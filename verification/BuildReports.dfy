/**
 * What a build reports besides what it writes: its diagnostics, in order, and the namespaces it serves from the cache.
 *
 * The three lists of diagnostics are given without the compiler's bookkeeping: which files do not parse, which
 * declarations repeat a name that another file declares first, and which files that are not cached do not lower next to
 * their siblings.
 */
module BuildReports {
  import opened Options
  import opened Lowering
  import opened BuildSpec

  datatype Diagnostic =
    | Unparsable(filename: string)
    | DeclaredTwice(filename: string, namespace: string, firstFile: string)
    | Rejected(filename: string)

  datatype FilePlan = FilePlan(parsed: ParsedFile, cached: bool)

  // ----- stage 1 -----

  /** One for each file that does not parse. */
  function ParseErrors(t: Tools, inputs: seq<Input>): seq<Diagnostic> {
    if inputs == [] then []
    else
      var before, last := ParseErrors(t, inputs[..|inputs| - 1]), inputs[|inputs| - 1];
      if t.parse(last.source).Some? then before else before + [Unparsable(last.filename)]
  }

  lemma {:induction false} NoParseErrors(t: Tools, inputs: seq<Input>)
    ensures ParseErrors(t, inputs) == [] <==> Parses(t, inputs)
  {
    if inputs != [] {
      var init, last := inputs[..|inputs| - 1], inputs[|inputs| - 1];
      NoParseErrors(t, init);
      assert forall x :: x in inputs <==> x in init || x == last;
    }
  }

  // ----- stage 2 -----

  predicate Named(nss: seq<NamespaceNode>, n: string) {
    exists x | x in nss :: x.name == n
  }

  /** The first file that declares `n`. */
  function FirstFile(parsed: seq<ParsedFile>, n: string): Option<ParsedFile> {
    if parsed == [] then None
    else
      var before, last := FirstFile(parsed[..|parsed| - 1], n), parsed[|parsed| - 1];
      if before.Some? then before
      else if Named(last.namespaces, n) then Some(last)
      else None
  }

  /** One for each of the namespaces of `p` that another file declares first. */
  function DuplicatesOf(parsed: seq<ParsedFile>, p: ParsedFile, nss: seq<NamespaceNode>): seq<Diagnostic> {
    if nss == [] then []
    else
      var before, n := DuplicatesOf(parsed, p, nss[..|nss| - 1]), nss[|nss| - 1].name;
      var first := FirstFile(parsed, n);
      if first.Some? && first.value.filename != p.filename
      then before + [DeclaredTwice(p.filename, n, first.value.filename)] else before
  }

  function Duplicates(parsed: seq<ParsedFile>, files: seq<ParsedFile>): seq<Diagnostic> {
    if files == [] then []
    else
      var last := files[|files| - 1];
      Duplicates(parsed, files[..|files| - 1]) + DuplicatesOf(parsed, last, last.namespaces)
  }

  lemma {:induction false} FirstFileDeclares(parsed: seq<ParsedFile>, n: string)
    ensures FirstFile(parsed, n).Some? <==> exists p | p in parsed :: Named(p.namespaces, n)
    ensures FirstFile(parsed, n).Some? ==>
              FirstFile(parsed, n).value in parsed && Named(FirstFile(parsed, n).value.namespaces, n)
  {
    if parsed != [] {
      var init, last := parsed[..|parsed| - 1], parsed[|parsed| - 1];
      FirstFileDeclares(init, n);
      assert forall p :: p in parsed <==> p in init || p == last;
    }
  }

  /** Later files do not change which one was first. */
  lemma {:induction false} FirstAt(parsed: seq<ParsedFile>, i: nat, n: string)
    requires i < |parsed| && Named(parsed[i].namespaces, n)
    ensures FirstFile(parsed, n) ==
            if FirstFile(parsed[..i], n).Some? then FirstFile(parsed[..i], n) else Some(parsed[i])
  {
    var init := parsed[..|parsed| - 1];
    if i < |init| {
      FirstAt(init, i, n);
      assert init[..i] == parsed[..i];
    }
  }

  predicate OtherFirst(parsed: seq<ParsedFile>, p: ParsedFile, n: string) {
    FirstFile(parsed, n).Some? && FirstFile(parsed, n).value.filename != p.filename
  }

  lemma {:induction false} DuplicatesOfSome(parsed: seq<ParsedFile>, p: ParsedFile, nss: seq<NamespaceNode>)
    ensures DuplicatesOf(parsed, p, nss) == [] <==> forall x | x in nss :: !OtherFirst(parsed, p, x.name)
  {
    if nss != [] {
      var init, last := nss[..|nss| - 1], nss[|nss| - 1];
      DuplicatesOfSome(parsed, p, init);
      assert forall x :: x in nss <==> x in init || x == last;
    }
  }

  lemma {:induction false} DuplicatesSome(parsed: seq<ParsedFile>, files: seq<ParsedFile>)
    ensures Duplicates(parsed, files) == [] <==>
            forall p, x | p in files && x in p.namespaces :: !OtherFirst(parsed, p, x.name)
  {
    if files != [] {
      var init, last := files[..|files| - 1], files[|files| - 1];
      DuplicatesSome(parsed, init);
      DuplicatesOfSome(parsed, last, last.namespaces);
      assert forall p :: p in files <==> p in init || p == last;
    }
  }

  lemma NobodyFirst(parsed: seq<ParsedFile>)
    requires forall p, x | p in parsed && x in p.namespaces :: !OtherFirst(parsed, p, x.name)
    ensures NoCrossFileDuplicates(parsed)
  {
    forall p, q, a, b | p in parsed && q in parsed && a in p.namespaces && b in q.namespaces && a.name == b.name
      ensures p.filename == q.filename
    {
      FirstFileDeclares(parsed, a.name);
      assert Named(p.namespaces, a.name) && !OtherFirst(parsed, p, a.name) && !OtherFirst(parsed, q, b.name);
    }
  }

  /** There is nothing to report exactly when no name is declared in two files. */
  lemma {:induction false} NoDuplicates(parsed: seq<ParsedFile>)
    ensures Duplicates(parsed, parsed) == [] <==> NoCrossFileDuplicates(parsed)
  {
    DuplicatesSome(parsed, parsed);
    if NoCrossFileDuplicates(parsed) {
      forall p, x | p in parsed && x in p.namespaces ensures !OtherFirst(parsed, p, x.name) {
        FirstFileDeclares(parsed, x.name);
      }
    } else if Duplicates(parsed, parsed) == [] {
      NobodyFirst(parsed);
    }
  }

  /** The first file is the one before which no other declares the name. */
  lemma {:induction false} FirstFileAt(parsed: seq<ParsedFile>, n: string) returns (j: nat)
    requires FirstFile(parsed, n).Some?
    ensures j < |parsed| && FirstFile(parsed, n) == Some(parsed[j]) && Named(parsed[j].namespaces, n)
    ensures forall h | 0 <= h < j :: !Named(parsed[h].namespaces, n)
  {
    var init := parsed[..|parsed| - 1];
    if FirstFile(init, n).Some? {
      j := FirstFileAt(init, n);
      assert forall h | 0 <= h <= j :: init[h] == parsed[h];
    } else {
      j := |parsed| - 1;
      FirstFileDeclares(init, n);
      forall h | 0 <= h < j ensures !Named(parsed[h].namespaces, n) {
        assert init[h] in init;
      }
    }
  }

  lemma {:induction false} DuplicatesOfHold(parsed: seq<ParsedFile>, p: ParsedFile, nss: seq<NamespaceNode>, d: Diagnostic)
    ensures d in DuplicatesOf(parsed, p, nss) <==>
            exists x | x in nss :: OtherFirst(parsed, p, x.name) &&
              d == DeclaredTwice(p.filename, x.name, FirstFile(parsed, x.name).value.filename)
  {
    if nss != [] {
      var init, last := nss[..|nss| - 1], nss[|nss| - 1];
      DuplicatesOfHold(parsed, p, init, d);
      assert forall x :: x in nss <==> x in init || x == last;
    }
  }

  ghost predicate Blamed(parsed: seq<ParsedFile>, p: ParsedFile, d: Diagnostic) {
    exists x | x in p.namespaces :: OtherFirst(parsed, p, x.name) &&
      d == DeclaredTwice(p.filename, x.name, FirstFile(parsed, x.name).value.filename)
  }

  lemma {:induction false} DuplicatesHold(parsed: seq<ParsedFile>, files: seq<ParsedFile>, d: Diagnostic)
    ensures d in Duplicates(parsed, files) <==> exists p | p in files :: Blamed(parsed, p, d)
  {
    if files != [] {
      var init, last := files[..|files| - 1], files[|files| - 1];
      DuplicatesHold(parsed, init, d);
      DuplicatesOfHold(parsed, last, last.namespaces, d);
      assert d in DuplicatesOf(parsed, last, last.namespaces) <==> Blamed(parsed, last, d);
      assert forall p :: p in files <==> p in init || p == last;
    }
  }

  /** File `i` repeats a name that file `j` before it is the first to declare. */
  ghost predicate Repeats(parsed: seq<ParsedFile>, i: nat, j: nat, x: NamespaceNode) {
    j < i < |parsed| && x in parsed[i].namespaces && Named(parsed[j].namespaces, x.name) &&
    forall h | 0 <= h < j :: !Named(parsed[h].namespaces, x.name)
  }

  lemma RepeatIsBlamed(parsed: seq<ParsedFile>, i: nat, j: nat, x: NamespaceNode)
    requires DistinctParsed(parsed) && Repeats(parsed, i, j, x)
    ensures OtherFirst(parsed, parsed[i], x.name) && FirstFile(parsed, x.name) == Some(parsed[j])
  {
    FirstFileDeclares(parsed, x.name);
    assert parsed[j] in parsed;
    var k := FirstFileAt(parsed, x.name);
    assert k == j;
  }

  /** Exactly the repetitions are reported: the later file is blamed, and the first one is named. */
  lemma {:induction false} DuplicatesBlameLater(parsed: seq<ParsedFile>, d: Diagnostic)
    requires DistinctParsed(parsed)
    ensures d in Duplicates(parsed, parsed) <==>
            exists i: nat, j: nat, x :: Repeats(parsed, i, j, x) &&
              d == DeclaredTwice(parsed[i].filename, x.name, parsed[j].filename)
  {
    DuplicatesHold(parsed, parsed, d);
    if i: nat, j: nat, x :| Repeats(parsed, i, j, x) && d == DeclaredTwice(parsed[i].filename, x.name, parsed[j].filename) {
      RepeatIsBlamed(parsed, i, j, x);
      assert parsed[i] in parsed && Blamed(parsed, parsed[i], d);
    }
    if p :| p in parsed && Blamed(parsed, p, d) {
      var i, j, x := BlamedRepeats(parsed, p, d);
    }
  }

  lemma BlamedRepeats(parsed: seq<ParsedFile>, p: ParsedFile, d: Diagnostic) returns (i: nat, j: nat, x: NamespaceNode)
    requires p in parsed && Blamed(parsed, p, d)
    ensures Repeats(parsed, i, j, x) && d == DeclaredTwice(parsed[i].filename, x.name, parsed[j].filename)
  {
    i :| i < |parsed| && parsed[i] == p;
    x :| x in p.namespaces && OtherFirst(parsed, p, x.name) &&
         d == DeclaredTwice(p.filename, x.name, FirstFile(parsed, x.name).value.filename);
    j := FirstFileAt(parsed, x.name);
    assert Named(parsed[i].namespaces, x.name);
  }

  // ----- stage 3 -----

  function Plans(t: Tools, prev: Manifest, parsed: seq<ParsedFile>, all: seq<NamespaceNode>): (plans: seq<FilePlan>)
    ensures |plans| == |parsed|
    ensures forall i | 0 <= i < |plans| :: plans[i] == FilePlan(parsed[i], Cached(t, prev, parsed[i], all))
  {
    seq(|parsed|, i requires 0 <= i < |parsed| => FilePlan(parsed[i], Cached(t, prev, parsed[i], all)))
  }

  /** One for each plan that fails. */
  ghost function RejectedBy(plans: seq<FilePlan>, fails: FilePlan -> bool): seq<Diagnostic> {
    if plans == [] then []
    else
      var before, last := RejectedBy(plans[..|plans| - 1], fails), plans[|plans| - 1];
      if fails(last) then before + [Rejected(last.parsed.filename)] else before
  }

  /** One for each file that is not served from the cache and does not lower next to its siblings. */
  ghost function Rejections(plans: seq<FilePlan>, all: seq<NamespaceNode>): seq<Diagnostic> {
    RejectedBy(plans, (plan: FilePlan) => !plan.cached && !LowerOk(Merged(plan.parsed, all)))
  }

  lemma {:induction false} NobodyRejected(plans: seq<FilePlan>, fails: FilePlan -> bool)
    ensures RejectedBy(plans, fails) == [] <==> forall plan | plan in plans :: !fails(plan)
  {
    if plans != [] {
      var init, last := plans[..|plans| - 1], plans[|plans| - 1];
      NobodyRejected(init, fails);
      assert forall plan :: plan in plans <==> plan in init || plan == last;
    }
  }

  lemma {:induction false} NoRejections(t: Tools, prev: Manifest, parsed: seq<ParsedFile>, all: seq<NamespaceNode>)
    ensures Rejections(Plans(t, prev, parsed, all), all) == [] <==>
            forall p | p in parsed && !Cached(t, prev, p, all) :: LowerOk(Merged(p, all))
  {
    var plans := Plans(t, prev, parsed, all);
    var fails := (plan: FilePlan) => !plan.cached && !LowerOk(Merged(plan.parsed, all));
    NobodyRejected(plans, fails);
    forall p | p in parsed ensures FilePlan(p, Cached(t, prev, p, all)) in plans {
      var i :| 0 <= i < |parsed| && parsed[i] == p;
      assert plans[i] in plans;
    }
    forall plan | plan in plans ensures plan.parsed in parsed && plan.cached == Cached(t, prev, plan.parsed, all) {
      var i :| 0 <= i < |parsed| && plans[i] == plan;
    }
  }

  /** All that the first three stages report. */
  ghost function Diagnostics(t: Tools, prev: Manifest, inputs: seq<Input>): seq<Diagnostic> {
    var parsed := ParseAll(t, inputs);
    var all := AllNamespaces(parsed);
    ParseErrors(t, inputs) + Duplicates(parsed, parsed) + Rejections(Plans(t, prev, parsed, all), all)
  }

  /** Nothing is reported exactly when the incremental validation passes. */
  lemma {:induction false} NoDiagnostics(t: Tools, prev: Manifest, inputs: seq<Input>)
    ensures Diagnostics(t, prev, inputs) == [] <==> IncrementallyValid(t, prev, inputs)
  {
    var parsed := ParseAll(t, inputs);
    var all := AllNamespaces(parsed);
    NoParseErrors(t, inputs);
    NoDuplicates(parsed);
    NoRejections(t, prev, parsed, all);
    var a, b, c := ParseErrors(t, inputs), Duplicates(parsed, parsed), Rejections(Plans(t, prev, parsed, all), all);
    assert |a + b + c| == |a| + |b| + |c|;
  }

  // ----- stage 4 -----

  /** The recorded output of the namespace is the one at its path. */
  predicate Serves(t: Tools, cfg: string, reuse: Option<FileEntry>, n: string) {
    reuse.Some? && n in reuse.value.outputs && reuse.value.outputs[n].path == t.outPath(cfg, n)
  }

  function ServedOf(t: Tools, cfg: string, reuse: Option<FileEntry>, nss: seq<NamespaceNode>): seq<string> {
    if nss == [] then []
    else
      var before, n := ServedOf(t, cfg, reuse, nss[..|nss| - 1]), nss[|nss| - 1].name;
      if Serves(t, cfg, reuse, n) then before + [n] else before
  }

  function ReuseFor(prev: Manifest, plan: FilePlan): Option<FileEntry> {
    if plan.cached && plan.parsed.filename in prev.files then Some(prev.files[plan.parsed.filename]) else None
  }

  /** The namespaces whose recorded output a build of these plans leaves alone. */
  function Served(t: Tools, cfg: string, prev: Manifest, plans: seq<FilePlan>): seq<string> {
    if plans == [] then []
    else
      var last := plans[|plans| - 1];
      Served(t, cfg, prev, plans[..|plans| - 1]) + ServedOf(t, cfg, ReuseFor(prev, last), last.parsed.namespaces)
  }

  lemma ServedOneMore(t: Tools, cfg: string, prev: Manifest, plans: seq<FilePlan>, i: nat)
    requires i < |plans|
    ensures Served(t, cfg, prev, plans[..i + 1]) ==
            Served(t, cfg, prev, plans[..i]) + ServedOf(t, cfg, ReuseFor(prev, plans[i]), plans[i].parsed.namespaces)
  {
    assert plans[..i + 1][..i] == plans[..i];
  }
}
