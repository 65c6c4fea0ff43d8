/** In-place resolution of references between the leaves of a config tree. */
module References {
  import opened Options

  /** A dotted path, split: keys contain no dot. */
  type Path = seq<string>

  /** A string that mentions references, cut at its tokens; the literal parts are not empty. */
  datatype Part = Lit(text: string) | Ref(path: Path)

  /** A primitive: a string without references, another value with the text `String(...)` gives it, or a template. */
  datatype Value = Text(text: string) | Other(repr: string) | Undefined | Template(parts: seq<Part>)

  datatype Entry = Entry(key: string, tree: Tree)

  datatype Tree = Leaf(value: Value) | Object(entries: seq<Entry>)

  /** What is found at a path. */
  datatype Found = Nothing | Branch | Primitive(value: Value)

  datatype Error = Cycle | Missing | NotPrimitive

  datatype Resolved = Plain(value: Value) | AnObject | Failed(error: Error)

  predicate IsPlain(v: Value) {
    v.Text? || v.Other?
  }

  /** `String(v)`. */
  function TextOf(v: Value): string
    requires IsPlain(v)
  {
    match v
    case Text(s) => s
    case Other(s) => s
  }

  // ----- the tree -----

  predicate WellKeyed(t: Tree) {
    t.Object? ==>
      (forall i, j | 0 <= i < j < |t.entries| :: t.entries[i].key != t.entries[j].key) &&
      forall i | 0 <= i < |t.entries| :: WellKeyed(t.entries[i].tree)
  }

  function Find(entries: seq<Entry>, key: string): (r: Option<Tree>)
    ensures r.Some? ==> Entry(key, r.value) in entries
    ensures r.None? <==> forall i | 0 <= i < |entries| :: entries[i].key != key
  {
    if entries == [] then None
    else if entries[0].key == key then Some(entries[0].tree)
    else Find(entries[1..], key)
  }

  function At(t: Tree, path: Path): Found
    decreases |path|
  {
    if path == [] then (if t.Leaf? then Primitive(t.value) else Branch)
    else if t.Leaf? then Nothing
    else
      match Find(t.entries, path[0])
      case None => Nothing
      case Some(child) => At(child, path[1..])
  }

  function Replaced(entries: seq<Entry>, key: string, t: Tree): (r: seq<Entry>)
    ensures forall k :: Find(r, k) == if k == key && Find(entries, k).Some? then Some(t) else Find(entries, k)
  {
    if entries == [] then []
    else if entries[0].key == key then [Entry(key, t)] + entries[1..]
    else [entries[0]] + Replaced(entries[1..], key, t)
  }

  /** The tree with the leaf at `path` overwritten. */
  function Write(t: Tree, path: Path, v: Value): Tree
    requires At(t, path).Primitive?
    decreases |path|
  {
    if path == [] then Leaf(v)
    else Object(Replaced(t.entries, path[0], Write(Find(t.entries, path[0]).value, path[1..], v)))
  }

  /** A write changes one leaf and nothing else. */
  lemma {:induction false} WriteChangesOneLeaf(t: Tree, path: Path, v: Value, q: Path)
    requires At(t, path).Primitive?
    ensures At(Write(t, path, v), q) == if q == path then Primitive(v) else At(t, q)
    decreases |path|
  {
    if path != [] && q != [] && q[0] == path[0] {
      WriteChangesOneLeaf(Find(t.entries, path[0]).value, path[1..], v, q[1..]);
      assert q == [q[0]] + q[1..] && path == [path[0]] + path[1..];
    }
  }

  // ----- the paths that mention references -----

  function Collected(t: Tree, path: Path): seq<Path>
    decreases t, 0
  {
    if t.Leaf? then [] else CollectedFrom(t.entries, path)
  }

  function CollectedFrom(entries: seq<Entry>, path: Path): seq<Path>
    decreases entries, 1
  {
    if entries == [] then [] else CollectedAt(entries[0].tree, path + [entries[0].key]) + CollectedFrom(entries[1..], path)
  }

  function CollectedAt(t: Tree, child: Path): seq<Path>
    decreases t, 1
  {
    if t.Object? then Collected(t, child) else if t.value.Template? then [child] else []
  }

  predicate Starts(q: Path, path: Path) {
    |path| <= |q| && q[..|path|] == path
  }

  predicate TemplateAt(t: Tree, path: Path) {
    At(t, path).Primitive? && At(t, path).value.Template?
  }

  /** The walk lists exactly the templates: listing a path and looking it up agree. */
  lemma {:induction false} CollectedAtExact(t: Tree, path: Path, q: Path)
    requires WellKeyed(t)
    ensures q in CollectedAt(t, path) <==> Starts(q, path) && TemplateAt(t, q[|path|..])
    decreases t, 1
  {
    if t.Object? {
      CollectedFromExact(t.entries, path, q);
    }
    if Starts(q, path) {
      var rest := q[|path|..];
      if rest == [] {
        assert q == path;
      } else if t.Object? {
        assert Starts(q, path + [rest[0]]);
      }
    }
  }

  lemma {:induction false} CollectedFromExact(entries: seq<Entry>, path: Path, q: Path)
    requires WellKeyed(Object(entries))
    ensures q in CollectedFrom(entries, path) <==>
            |q| > |path| && Starts(q, path) && Find(entries, q[|path|]).Some? &&
            TemplateAt(Find(entries, q[|path|]).value, q[|path| + 1..])
    decreases entries, 0
  {
    if entries != [] {
      var e, rest := entries[0], entries[1..];
      CollectedAtExact(e.tree, path + [e.key], q);
      CollectedFromExact(rest, path, q);
    }
  }

  // ----- what a leaf means: substitution over the original tree -----

  predicate IsWhole(parts: seq<Part>) {
    |parts| == 1 && parts[0].Ref?
  }

  /** The value at `path` with every reference replaced by what it means, followed through at most `n` leaves. */
  function Meaning(t: Tree, path: Path, n: nat): (r: Option<Value>)
    ensures r.Some? ==> IsPlain(r.value)
    decreases n, 0, 0
  {
    if n == 0 || !At(t, path).Primitive? then None
    else
      match At(t, path).value
      case Undefined => None
      case Template(parts) =>
        if IsWhole(parts) then Meaning(t, parts[0].path, n - 1)
        else
          var s := Spliced(t, parts, n - 1);
          if s.None? then None else Some(Text(s.value))
      case v => Some(v)
  }

  function Spliced(t: Tree, parts: seq<Part>, n: nat): Option<string>
    decreases n, 1, |parts|
  {
    if parts == [] then Some("") else
      var head := if parts[0].Lit? then Some(parts[0].text) else
                    var v := Meaning(t, parts[0].path, n);
                    if v.None? then None else Some(TextOf(v.value));
      var rest := Spliced(t, parts[1..], n);
      if head.None? || rest.None? then None else Some(head.value + rest.value)
  }

  ghost predicate Means(t: Tree, path: Path, v: Value) {
    exists n: nat :: Meaning(t, path, n) == Some(v)
  }

  predicate Refers(t: Tree, p: Path, q: Path) {
    TemplateAt(t, p) && Ref(q) in At(t, p).value.parts
  }

  predicate Target(t: Tree, q: Path) {
    At(t, q).Primitive? && !At(t, q).value.Undefined?
  }

  predicate IsWalk(t: Tree, w: seq<Path>) {
    forall i | 0 <= i < |w| - 1 :: Refers(t, w[i], w[i + 1])
  }

  ghost predicate Cyclic(t: Tree) {
    exists w: seq<Path> | |w| >= 2 && w[0] == w[|w| - 1] :: IsWalk(t, w)
  }

  /** Every reference has a primitive target, and no references form a cycle. */
  ghost predicate Resolvable(t: Tree) {
    (forall p, q | Refers(t, p, q) :: Target(t, q)) && !Cyclic(t)
  }

  /** No value is exactly one reference to an object, which would make the tree share it. */
  ghost predicate NoSharing(t: Tree) {
    forall p, q | TemplateAt(t, p) && At(t, p).value.parts == [Ref(q)] :: !At(t, q).Branch?
  }

  lemma {:induction false} MeaningMonotone(t: Tree, path: Path, n: nat, m: nat)
    requires n <= m && Meaning(t, path, n).Some?
    ensures Meaning(t, path, m) == Meaning(t, path, n)
    decreases n, 0, 0
  {
    if TemplateAt(t, path) {
      var parts := At(t, path).value.parts;
      if IsWhole(parts) {
        MeaningMonotone(t, parts[0].path, n - 1, m - 1);
      } else {
        SplicedMonotone(t, parts, n - 1, m - 1);
      }
    }
  }

  lemma {:induction false} SplicedMonotone(t: Tree, parts: seq<Part>, n: nat, m: nat)
    requires n <= m && Spliced(t, parts, n).Some?
    ensures Spliced(t, parts, m) == Spliced(t, parts, n)
    decreases n, 1, |parts|
  {
    if parts != [] {
      SplicedMonotone(t, parts[1..], n, m);
      if parts[0].Ref? {
        MeaningMonotone(t, parts[0].path, n, m);
      }
    }
  }

  /** A leaf has one meaning. */
  lemma {:induction false} MeansOnce(t: Tree, path: Path, v: Value, w: Value)
    requires Means(t, path, v) && Means(t, path, w)
    ensures v == w
  {
    var n: nat :| Meaning(t, path, n) == Some(v);
    var m: nat :| Meaning(t, path, m) == Some(w);
    if n <= m {
      MeaningMonotone(t, path, n, m);
    } else {
      MeaningMonotone(t, path, m, n);
    }
  }

  lemma {:induction false} SplicedNeedsAll(t: Tree, parts: seq<Part>, n: nat, q: Path)
    requires Spliced(t, parts, n).Some? && Ref(q) in parts
    ensures Meaning(t, q, n).Some?
  {
    if parts[0] != Ref(q) {
      SplicedNeedsAll(t, parts[1..], n, q);
    }
  }

  /** What has a meaning refers only to what has one, found in fewer steps. */
  lemma {:induction false} MeaningNeedsTargets(t: Tree, p: Path, n: nat, q: Path)
    requires Meaning(t, p, n).Some? && Refers(t, p, q)
    ensures n > 0 && Meaning(t, q, n - 1).Some? && Target(t, q)
  {
    var parts := At(t, p).value.parts;
    if !IsWhole(parts) {
      SplicedNeedsAll(t, parts, n - 1, q);
    }
  }

  lemma {:induction false} WalksAreShort(t: Tree, w: seq<Path>, n: nat)
    requires |w| >= 1 && IsWalk(t, w) && Meaning(t, w[0], n).Some?
    ensures |w| <= n
  {
    if |w| > 1 {
      assert Refers(t, w[0], w[0 + 1]);
      MeaningNeedsTargets(t, w[0], n, w[1]);
      forall i | 0 <= i < |w[1..]| - 1 ensures Refers(t, w[1..][i], w[1..][i + 1]) {
        assert Refers(t, w[i + 1], w[i + 1 + 1]);
      }
      WalksAreShort(t, w[1..], n - 1);
    }
  }

  /** Going round a cycle gives walks of any length. */
  lemma {:induction false} GoesRound(t: Tree, w: seq<Path>, n: nat) returns (long: seq<Path>)
    requires |w| >= 2 && w[0] == w[|w| - 1] && IsWalk(t, w)
    ensures |long| > n && long[0] == w[0] && IsWalk(t, long)
  {
    if n == 0 {
      long := w;
    } else {
      var shorter := GoesRound(t, w, n - 1);
      long := w[..|w| - 1] + shorter;
      forall i | 0 <= i < |long| - 1 ensures Refers(t, long[i], long[i + 1]) {
        if i < |w| - 1 {
          assert Refers(t, w[i], w[i + 1]);
        } else {
          var j := i - (|w| - 1);
          assert Refers(t, shorter[j], shorter[j + 1]);
        }
      }
    }
  }

  lemma {:induction false} MeaningExcludesCycle(t: Tree, w: seq<Path>, n: nat)
    requires |w| >= 2 && w[0] == w[|w| - 1] && IsWalk(t, w)
    ensures Meaning(t, w[0], n).None?
  {
    if Meaning(t, w[0], n).Some? {
      var long := GoesRound(t, w, n);
      WalksAreShort(t, long, n);
    }
  }

  /** When every template has a meaning, all targets exist and there is no cycle. */
  lemma {:induction false} AllMeaningfulIsResolvable(t: Tree)
    requires forall p | TemplateAt(t, p) :: exists v :: Means(t, p, v)
    ensures Resolvable(t)
  {
    forall p, q | Refers(t, p, q) ensures Target(t, q) {
      var v :| Means(t, p, v);
      var n: nat :| Meaning(t, p, n) == Some(v);
      MeaningNeedsTargets(t, p, n, q);
    }
    forall w: seq<Path> | |w| >= 2 && w[0] == w[|w| - 1] ensures !IsWalk(t, w) {
      if IsWalk(t, w) {
        assert Refers(t, w[0], w[0 + 1]);
        var v :| Means(t, w[0], v);
        var n: nat :| Meaning(t, w[0], n) == Some(v);
        MeaningExcludesCycle(t, w, n);
      }
    }
  }

  // ----- resolving in place -----

  /** The tree on the way: each leaf is the original one or, for a template, already what that means. */
  ghost predicate Partly(original: Tree, t: Tree) {
    forall p ::
      At(t, p) == At(original, p) ||
      (TemplateAt(original, p) && At(t, p).Primitive? && IsPlain(At(t, p).value) && Means(original, p, At(t, p).value))
  }

  /** Leaves that are resolved stay as they are. */
  ghost predicate Keeps(t: Tree, t': Tree) {
    forall p | At(t, p).Primitive? && IsPlain(At(t, p).value) :: At(t', p) == At(t, p)
  }

  /** The templates being resolved: each refers to the next, none occurs twice. */
  ghost predicate OnTheWay(original: Tree, seen: seq<Path>, next: Path) {
    IsWalk(original, seen + [next]) &&
    (seen == [] ==> TemplateAt(original, next)) &&
    (forall i | 0 <= i < |seen| :: TemplateAt(original, seen[i]))
  }

  /** Meeting a path again closes a cycle. */
  lemma SeenIsCycle(original: Tree, seen: seq<Path>, path: Path)
    requires OnTheWay(original, seen, path) && path in seen
    ensures Cyclic(original)
  {
    var k :| 0 <= k < |seen| && seen[k] == path;
    var w := seen[k..] + [path];
    forall i | 0 <= i < |w| - 1 ensures Refers(original, w[i], w[i + 1]) {
      assert Refers(original, (seen + [path])[k + i], (seen + [path])[k + i + 1]);
    }
    assert IsWalk(original, w) && |w| >= 2 && w[0] == w[|w| - 1];
  }

  /** A missing target is some template's. */
  lemma MissingIsUnresolvable(original: Tree, seen: seq<Path>, path: Path)
    requires OnTheWay(original, seen, path) && !Target(original, path)
    ensures !Resolvable(original)
  {
    if seen != [] {
      assert Refers(original, (seen + [path])[|seen| - 1], (seen + [path])[|seen| - 1 + 1]);
    }
  }

  lemma WriteKeepsPartly(original: Tree, t: Tree, path: Path, v: Value)
    requires Partly(original, t) && TemplateAt(original, path) && IsPlain(v) && Means(original, path, v)
    ensures At(t, path).Primitive? && Partly(original, Write(t, path, v)) && Keeps(t, Write(t, path, v))
  {
    assert At(t, path) == At(original, path) || IsPlain(At(t, path).value);
    forall p ensures At(Write(t, path, v), p) == if p == path then Primitive(v) else At(t, p) {
      WriteChangesOneLeaf(t, path, v, p);
    }
    if IsPlain(At(t, path).value) {
      MeansOnce(original, path, v, At(t, path).value);
    }
  }

  /** `result.replaceAll(token, text)`. */
  function ReplaceAll(parts: seq<Part>, token: Part, text: string): (r: seq<Part>)
    ensures |r| == |parts|
    ensures forall i | 0 <= i < |parts| :: r[i] == if parts[i] == token then Lit(text) else parts[i]
  {
    if parts == [] then [] else
      [if parts[0] == token then Lit(text) else parts[0]] + ReplaceAll(parts[1..], token, text)
  }

  function Concat(parts: seq<Part>): string
    requires forall i | 0 <= i < |parts| :: parts[i].Lit?
  {
    if parts == [] then "" else parts[0].text + Concat(parts[1..])
  }

  /** Some references of `parts` are replaced in `now` by the text of what they mean. */
  ghost predicate Substituted(original: Tree, parts: seq<Part>, now: seq<Part>, n: nat) {
    |now| == |parts| &&
    forall i | 0 <= i < |parts| ::
      now[i] == parts[i] ||
      (parts[i].Ref? && Meaning(original, parts[i].path, n).Some? && now[i] == Lit(TextOf(Meaning(original, parts[i].path, n).value)))
  }

  lemma {:induction false} AllSubstituted(original: Tree, parts: seq<Part>, now: seq<Part>, n: nat)
    requires Substituted(original, parts, now, n) && forall i | 0 <= i < |now| :: now[i].Lit?
    ensures Spliced(original, parts, n) == Some(Concat(now))
  {
    if parts != [] {
      AllSubstituted(original, parts[1..], now[1..], n);
    }
  }

  lemma SubstitutedMore(original: Tree, parts: seq<Part>, now: seq<Part>, n: nat, q: Path, v: Value)
    returns (m: nat)
    requires Substituted(original, parts, now, n) && Means(original, q, v) && IsPlain(v)
    ensures Substituted(original, parts, ReplaceAll(now, Ref(q), TextOf(v)), m)
  {
    var k: nat :| Meaning(original, q, k) == Some(v);
    m := if n < k then k else n;
    MeaningMonotone(original, q, k, m);
    forall i | 0 <= i < |parts| && parts[i].Ref? && Meaning(original, parts[i].path, n).Some?
      ensures Meaning(original, parts[i].path, m) == Meaning(original, parts[i].path, n)
    {
      MeaningMonotone(original, parts[i].path, n, m);
    }
  }

  /** The paths of the tokens, in order. */
  function Tokens(parts: seq<Part>): (r: seq<Path>)
    ensures forall q :: q in r <==> Ref(q) in parts
  {
    if parts == [] then [] else (if parts[0].Ref? then [parts[0].path] else []) + Tokens(parts[1..])
  }

  function SetOf(paths: seq<Path>): set<Path> {
    set p | p in paths
  }

  function Templates(t: Tree): set<Path> {
    SetOf(CollectedAt(t, []))
  }

  lemma TemplatesExact(t: Tree, p: Path)
    requires WellKeyed(t)
    ensures p in CollectedAt(t, []) <==> TemplateAt(t, p)
  {
    CollectedAtExact(t, [], p);
    assert p[0..] == p && p[..0] == [];
  }

  class ReferenceResolver {
    var root: Tree
    var referencingPaths: seq<Path>
    ghost const original: Tree

    ghost predicate Valid()
      reads this
    {
      WellKeyed(original) && NoSharing(original) && Partly(original, root)
    }

    constructor (root: Tree)
      requires WellKeyed(root) && NoSharing(root)
      ensures Valid() && original == root && this.root == root && referencingPaths == []
    {
      this.root := root;
      referencingPaths := [];
      original := root;
    }

    /** Lists the string leaves below an object that mention references. */
    method Collect(node: Tree, path: Path)
      modifies this`referencingPaths
      ensures referencingPaths == old(referencingPaths) + Collected(node, path)
      decreases node
    {
      if node.Leaf? {
        return;
      }
      for i := 0 to |node.entries|
        invariant referencingPaths + CollectedFrom(node.entries[i..], path) == old(referencingPaths) + Collected(node, path)
      {
        var child, childPath := node.entries[i].tree, path + [node.entries[i].key];
        if child.Leaf? {
          if child.value.Template? {
            referencingPaths := referencingPaths + [childPath];
          }
        } else {
          Collect(child, childPath);
        }
      }
    }

    /** The value at `path`, following chains and writing results back. */
    method ResolvePath(path: Path, seen: seq<Path>) returns (r: Resolved)
      requires Valid() && OnTheWay(original, seen, path)
      modifies this`root
      ensures Valid() && Keeps(old(root), root)
      ensures r.Plain? ==> IsPlain(r.value) && Means(original, path, r.value) && At(root, path) == Primitive(r.value)
      ensures r.AnObject? ==> At(original, path).Branch?
      ensures r.Failed? ==> !Resolvable(original)
      decreases |Templates(original) - SetOf(seen)|, 1
    {
      if path in seen {
        SeenIsCycle(original, seen, path);
        return Failed(Cycle);
      }
      if At(root, path).Nothing? || At(root, path) == Primitive(Undefined) {
        MissingIsUnresolvable(original, seen, path);
        return Failed(Missing);
      }
      if At(root, path).Branch? {
        return AnObject;
      }
      var raw := At(root, path).value;
      if raw.Template? {
        TemplatesExact(original, path);
        ShrinksTemplates(original, seen, path);
        r := ResolveString(raw.parts, seen, path);
        if r.Plain? {
          WriteKeepsPartly(original, root, path, r.value);
          WriteChangesOneLeaf(root, path, r.value, path);
          root := Write(root, path, r.value);
        }
        return r;
      }
      assert Means(original, path, raw) by {
        assert At(root, path) == At(original, path) ==> Meaning(original, path, 1) == Some(raw);
      }
      return Plain(raw);
    }

    /** All references of the template at `path`: a whole value is taken as it is, otherwise texts are spliced in. */
    method ResolveString(parts: seq<Part>, seen: seq<Path>, path: Path) returns (r: Resolved)
      requires Valid() && OnTheWay(original, seen, path) && path !in seen
      requires At(original, path) == Primitive(Template(parts))
      modifies this`root
      ensures Valid() && Keeps(old(root), root)
      ensures r.Plain? ==> IsPlain(r.value) && Means(original, path, r.value)
      ensures !r.AnObject?
      ensures r.Failed? ==> !Resolvable(original)
      decreases |Templates(original) - SetOf(seen + [path])|, 3
    {
      if IsWhole(parts) {
        r := ResolvePath(parts[0].path, seen + [path]);
        if r.Plain? {
          WholeMeans(original, path, parts, r.value);
        }
        return r;
      }
      r := Interpolate(parts, seen, path);
    }

    method Interpolate(parts: seq<Part>, seen: seq<Path>, path: Path) returns (r: Resolved)
      requires Valid() && OnTheWay(original, seen, path) && path !in seen
      requires At(original, path) == Primitive(Template(parts)) && !IsWhole(parts)
      modifies this`root
      ensures Valid() && Keeps(old(root), root)
      ensures r.Plain? ==> IsPlain(r.value) && Means(original, path, r.value)
      ensures !r.AnObject?
      ensures r.Failed? ==> !Resolvable(original)
      decreases |Templates(original) - SetOf(seen + [path])|, 2
    {
      var tokens := Tokens(parts);
      var result := parts;
      ghost var n: nat := 0;
      for i := 0 to |tokens|
        invariant Valid() && Keeps(old(root), root)
        invariant Substituted(original, parts, result, n) && NoneLeft(result, tokens[..i])
      {
        ghost var before := root;
        assert Refers(original, path, tokens[i]);
        var referenced := ResolvePath(tokens[i], seen + [path]);
        if referenced.Failed? {
          return referenced;
        }
        if referenced.AnObject? {
          MissingIsUnresolvable(original, seen + [path], tokens[i]);
          return Failed(NotPrimitive);
        }
        var text := TextOf(referenced.value);
        n := SubstitutedMore(original, parts, result, n, tokens[i], referenced.value);
        OneFewerLeft(result, tokens, i, text);
        result := ReplaceAll(result, Ref(tokens[i]), text);
      }
      assert tokens[..|tokens|] == tokens;
      InterpolatedMeans(original, path, parts, result, n);
      r := Plain(Text(Concat(result)));
    }
  }

  lemma WholeMeans(t: Tree, path: Path, parts: seq<Part>, v: Value)
    requires At(t, path) == Primitive(Template(parts)) && IsWhole(parts) && Means(t, parts[0].path, v)
    ensures Means(t, path, v)
  {
    var n: nat :| Meaning(t, parts[0].path, n) == Some(v);
    assert Meaning(t, path, n + 1) == Some(v);
  }

  /** No token for any of the paths is left. */
  predicate NoneLeft(now: seq<Part>, paths: seq<Path>) {
    forall j | 0 <= j < |now| && now[j].Ref? :: now[j].path !in paths
  }

  lemma OneFewerLeft(now: seq<Part>, tokens: seq<Path>, i: nat, text: string)
    requires i < |tokens| && NoneLeft(now, tokens[..i])
    ensures NoneLeft(ReplaceAll(now, Ref(tokens[i]), text), tokens[..i + 1])
  {
    assert tokens[..i + 1] == tokens[..i] + [tokens[i]];
  }

  lemma InterpolatedMeans(t: Tree, path: Path, parts: seq<Part>, now: seq<Part>, n: nat)
    requires At(t, path) == Primitive(Template(parts)) && !IsWhole(parts)
    requires Substituted(t, parts, now, n) && NoneLeft(now, Tokens(parts))
    ensures forall j | 0 <= j < |now| :: now[j].Lit?
    ensures Means(t, path, Text(Concat(now)))
  {
    forall j | 0 <= j < |parts| && parts[j].Ref? ensures parts[j].path in Tokens(parts) {
      assert parts[j] == Ref(parts[j].path);
    }
    AllSubstituted(t, parts, now, n);
    assert Meaning(t, path, n + 1) == Some(Text(Concat(now)));
  }

  lemma ShrinksTemplates(t: Tree, seen: seq<Path>, path: Path)
    requires path in Templates(t) && path !in seen
    ensures |Templates(t) - SetOf(seen + [path])| < |Templates(t) - SetOf(seen)|
  {
    var less, more := Templates(t) - SetOf(seen + [path]), Templates(t) - SetOf(seen);
    assert less == more - {path} && path in more;
  }

  /** The text at a path of a tree that is resolved. */
  function TextAt(t: Tree, q: Path): string {
    match At(t, q)
    case Primitive(Text(s)) => s
    case Primitive(Other(repr)) => repr
    case _ => ""
  }

  /** The literal parts and the texts at the paths referred to, one after the other. */
  function Joined(t: Tree, parts: seq<Part>): string {
    if parts == [] then ""
    else (if parts[0].Lit? then parts[0].text else TextAt(t, parts[0].path)) + Joined(t, parts[1..])
  }

  /** A resolved template: one reference alone takes the value over, everything else is joined text. */
  ghost predicate Replaces(t: Tree, p: Path, parts: seq<Part>) {
    (forall q | Ref(q) in parts :: At(t, q).Primitive? && (At(t, q).value.Text? || At(t, q).value.Other?)) &&
    if exists q :: parts == [Ref(q)] then At(t, p) == At(t, parts[0].path) else At(t, p) == Primitive(Text(Joined(t, parts)))
  }

  /**
   * Resolves the references of a tree: it succeeds exactly when all targets are there, as primitives, and nothing refers
   * to itself, and then every leaf is what it means in the original tree. The order of the keys plays no part. In the
   * result a leaf that was one reference alone is what is at that path, with its type; any other template is the text
   * its parts make; and all other leaves are as they were.
   */
  method ResolveReferences(root: Tree) returns (r: Option<Tree>)
    requires WellKeyed(root) && NoSharing(root) && root.Object?
    ensures r.Some? <==> Resolvable(root)
    ensures r.Some? ==> forall p | TemplateAt(root, p) :: Replaces(r.value, p, At(root, p).value.parts)
    ensures r.Some? ==> forall p ::
      if TemplateAt(root, p) then At(r.value, p).Primitive? && Means(root, p, At(r.value, p).value)
      else At(r.value, p) == At(root, p)
  {
    var resolver := new ReferenceResolver(root);
    resolver.Collect(root, []);
    var referencingPaths := resolver.referencingPaths;
    for i := 0 to |referencingPaths|
      invariant resolver.Valid() && resolver.original == root && referencingPaths == CollectedAt(root, [])
      invariant AllResolved(resolver.root, referencingPaths[..i])
    {
      ghost var before := resolver.root;
      TemplatesExact(root, referencingPaths[i]);
      var resolved := resolver.ResolvePath(referencingPaths[i], []);
      if !resolved.Plain? {
        return None;
      }
      OneMoreResolved(before, resolver.root, referencingPaths, i);
    }
    assert referencingPaths[..|referencingPaths|] == referencingPaths;
    ResolvedMeans(root, resolver.root);
    ResolvedReplaces(root, resolver.root);
    r := Some(resolver.root);
  }

  ghost predicate AllResolved(t: Tree, paths: seq<Path>) {
    forall p | p in paths :: At(t, p).Primitive? && IsPlain(At(t, p).value)
  }

  lemma OneMoreResolved(before: Tree, t: Tree, paths: seq<Path>, i: nat)
    requires i < |paths| && AllResolved(before, paths[..i]) && Keeps(before, t)
    requires At(t, paths[i]).Primitive? && IsPlain(At(t, paths[i]).value)
    ensures AllResolved(t, paths[..i + 1])
  {
    assert paths[..i + 1] == paths[..i] + [paths[i]];
  }

  lemma ResolvedMeans(root: Tree, t: Tree)
    requires WellKeyed(root) && Partly(root, t) && AllResolved(t, CollectedAt(root, []))
    ensures forall p ::
      if TemplateAt(root, p) then At(t, p).Primitive? && Means(root, p, At(t, p).value) else At(t, p) == At(root, p)
    ensures Resolvable(root)
  {
    forall p ensures if TemplateAt(root, p) then At(t, p).Primitive? && Means(root, p, At(t, p).value) else At(t, p) == At(root, p) {
      TemplatesExact(root, p);
    }
    AllMeaningfulIsResolvable(root);
  }

  ghost predicate Done(root: Tree, t: Tree) {
    forall p ::
      if TemplateAt(root, p) then At(t, p).Primitive? && Means(root, p, At(t, p).value) else At(t, p) == At(root, p)
  }

  /** What a path means is what the result has there. */
  lemma MeansInPlace(root: Tree, t: Tree, q: Path, v: Value)
    requires Done(root, t) && Means(root, q, v)
    ensures At(t, q) == Primitive(v) && IsPlain(v)
  {
    var n: nat :| Meaning(root, q, n) == Some(v);
    if TemplateAt(root, q) {
      MeansOnce(root, q, v, At(t, q).value);
    }
  }

  lemma {:induction false} SplicedInPlace(root: Tree, t: Tree, parts: seq<Part>, n: nat)
    requires Done(root, t) && Spliced(root, parts, n).Some?
    ensures Spliced(root, parts, n) == Some(Joined(t, parts))
  {
    if parts != [] {
      SplicedInPlace(root, t, parts[1..], n);
      if parts[0].Ref? {
        MeansInPlace(root, t, parts[0].path, Meaning(root, parts[0].path, n).value);
      }
    }
  }

  lemma WholeIsOneReference(parts: seq<Part>)
    ensures IsWhole(parts) <==> exists q :: parts == [Ref(q)]
  {
    if IsWhole(parts) {
      assert parts == [Ref(parts[0].path)];
    }
  }

  lemma ResolvedReplaces(root: Tree, t: Tree)
    requires Done(root, t)
    ensures forall p | TemplateAt(root, p) :: Replaces(t, p, At(root, p).value.parts)
  {
    forall p | TemplateAt(root, p) ensures Replaces(t, p, At(root, p).value.parts) {
      var parts := At(root, p).value.parts;
      WholeIsOneReference(parts);
      var n: nat :| Meaning(root, p, n) == Some(At(t, p).value);
      forall q | Ref(q) in parts ensures At(t, q).Primitive? && IsPlain(At(t, q).value) {
        MeaningNeedsTargets(root, p, n, q);
        MeansInPlace(root, t, q, Meaning(root, q, n - 1).value);
      }
      if q :| parts == [Ref(q)] {
        assert Meaning(root, q, n - 1) == Some(At(t, p).value);
        MeansInPlace(root, t, q, At(t, p).value);
      } else {
        SplicedInPlace(root, t, parts, n - 1);
      }
    }
  }
}
