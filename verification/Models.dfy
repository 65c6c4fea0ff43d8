/** Validation of an authorization model: what its constructor accepts, and the loops that decide it. */
module Models {
  import opened Options
  import opened Text
  import opened Rewrites

  datatype SubjectType = SubjectType(namespace: string, relation: Option<string>, wildcard: bool)

  /** Decodes `<namespace>`, `<namespace>.*` and `<namespace>.<relation>`. */
  function ParseSubjectType(s: string): SubjectType {
    if EndsWith(s, ".*") then SubjectType(s[..|s| - 2], None, true)
    else
      match Split(s, '.')
      case Some((namespace, relation)) => SubjectType(namespace, Some(relation), false)
      case None => SubjectType(s, None, false)
  }

  // ----- what the constructor accepts -----

  ghost predicate DistinctNames(defs: seq<NamespaceDef>) {
    forall i, j | 0 <= i < j < |defs| :: defs[i].name != defs[j].name
  }

  /** The private map after all insertions. */
  function ByName(defs: seq<NamespaceDef>): Model {
    if defs == [] then map[]
    else
      var last := defs[|defs| - 1];
      ByName(defs[..|defs| - 1])[last.name := last]
  }

  predicate Declares(d: NamespaceDef, name: string) {
    name in d.relations || name in d.permissions
  }

  predicate SubjectTypeOk(model: Model, s: string) {
    var parsed := ParseSubjectType(s);
    IsName(parsed.namespace) && parsed.namespace in model &&
    (parsed.relation.Some? ==> parsed.relation.value in model[parsed.namespace].relations)
  }

  ghost predicate RelationsOk(model: Model, d: NamespaceDef) {
    forall r | r in d.relations :: IsName(r) && forall s | s in d.relations[r] :: SubjectTypeOk(model, s)
  }

  /** Subject type `s` leads to a namespace that declares `c`; usersets lead nowhere. */
  predicate Leads(model: Model, s: string, c: string) {
    var parsed := ParseSubjectType(s);
    parsed.relation.None? && parsed.namespace in model && Declares(model[parsed.namespace], c)
  }

  predicate ExprOk(model: Model, d: NamespaceDef, e: UsersetExpr)
    decreases e
  {
    match e
    case Direct => true
    case Computed(r) => Declares(d, r)
    case TupleToUserset(t, c) => t in d.relations && exists s | s in d.relations[t] :: Leads(model, s, c)
    case Union(cs) => cs != [] && forall c | c in cs :: ExprOk(model, d, c)
    case Intersection(cs) => cs != [] && forall c | c in cs :: ExprOk(model, d, c)
    case Exclusion(base, subtract) => ExprOk(model, d, base) && ExprOk(model, d, subtract)
  }

  ghost predicate PermissionsOk(model: Model, d: NamespaceDef) {
    forall p | p in d.permissions :: IsName(p) && p !in d.relations && ExprOk(model, d, d.permissions[p])
  }

  ghost predicate DefOk(model: Model, d: NamespaceDef) {
    IsName(d.name) && RelationsOk(model, d) && PermissionsOk(model, d)
  }

  ghost predicate ModelOk(defs: seq<NamespaceDef>) {
    DistinctNames(defs) && forall d | d in defs :: DefOk(ByName(defs), d)
  }

  // ----- the map the constructor fills -----

  lemma {:induction false} ByNameHolds(defs: seq<NamespaceDef>)
    ensures forall n :: n in ByName(defs) <==> exists d | d in defs :: d.name == n
    ensures DistinctNames(defs) ==> forall d | d in defs :: ByName(defs)[d.name] == d
    ensures forall n | n in ByName(defs) :: ByName(defs)[n] in defs && ByName(defs)[n].name == n
  {
    if defs != [] {
      var init, last := defs[..|defs| - 1], defs[|defs| - 1];
      ByNameHolds(init);
      assert forall d :: d in defs <==> d in init || d == last;
      if DistinctNames(defs) {
        forall d | d in init ensures d.name != last.name {
          var i :| 0 <= i < |init| && init[i] == d;
          assert defs[i] == d && defs[|defs| - 1] == last;
        }
      }
    }
  }

  /** With distinct names the map is a matter of which definitions there are, not of their order. */
  lemma ByNameIgnoresOrder(f: seq<NamespaceDef>, g: seq<NamespaceDef>)
    requires DistinctNames(f) && DistinctNames(g)
    requires forall d :: d in f <==> d in g
    ensures ByName(f) == ByName(g)
  {
    ByNameHolds(f);
    ByNameHolds(g);
    forall n ensures n in ByName(f) <==> n in ByName(g) {
      if n in ByName(f) { assert ByName(f)[n] in g; }
      if n in ByName(g) { assert ByName(g)[n] in f; }
    }
    forall n | n in ByName(f) ensures ByName(f)[n] == ByName(g)[n] {
      assert ByName(f)[n] in g;
    }
  }

  // ----- the loops -----

  method ValidateSubjects(model: Model, subjects: seq<string>) returns (ok: bool)
    ensures ok <==> forall s | s in subjects :: SubjectTypeOk(model, s)
  {
    for i := 0 to |subjects|
      invariant forall s | s in subjects[..i] :: SubjectTypeOk(model, s)
    {
      assert subjects[i] in subjects;
      var parsed := ParseSubjectType(subjects[i]);
      if !IsName(parsed.namespace) || parsed.namespace !in model {
        return false;
      }
      if parsed.relation.Some? && parsed.relation.value !in model[parsed.namespace].relations {
        return false;
      }
      assert subjects[..i + 1] == subjects[..i] + [subjects[i]];
    }
    assert subjects[..|subjects|] == subjects;
    ok := true;
  }

  /** The record's entries are visited in some order; the verdict does not depend on it. */
  method ValidateRelations(model: Model, d: NamespaceDef) returns (ok: bool)
    ensures ok <==> RelationsOk(model, d)
  {
    var todo := d.relations.Keys;
    while todo != {}
      invariant todo <= d.relations.Keys
      invariant forall r | r in d.relations && r !in todo ::
                  IsName(r) && forall s | s in d.relations[r] :: SubjectTypeOk(model, s)
      decreases |todo|
    {
      var r :| r in todo;
      if !IsName(r) {
        return false;
      }
      var good := ValidateSubjects(model, d.relations[r]);
      if !good {
        return false;
      }
      todo := todo - {r};
    }
    ok := true;
  }

  /** Collect the namespaces the tuple relation can lead to, then look for one that declares the relation. */
  method ValidateWalk(model: Model, d: NamespaceDef, t: string, c: string) returns (ok: bool)
    ensures ok <==> ExprOk(model, d, TupleToUserset(t, c))
  {
    if t !in d.relations {
      return false;
    }
    var subjects := d.relations[t];
    var candidates: set<string> := {};
    for i := 0 to |subjects|
      invariant forall n :: n in candidates <==>
                  exists j | 0 <= j < i :: ParseSubjectType(subjects[j]).relation.None? && ParseSubjectType(subjects[j]).namespace == n
    {
      var parsed := ParseSubjectType(subjects[i]);
      if parsed.relation.None? {
        candidates := candidates + {parsed.namespace};
      }
    }
    var resolved := false;
    var todo := candidates;
    while todo != {}
      invariant todo <= candidates && !resolved
      invariant forall n | n in candidates && n !in todo :: n !in model || !Declares(model[n], c)
      decreases |todo|
    {
      var n :| n in todo;
      if n in model && Declares(model[n], c) {
        resolved := true;
        var j :| 0 <= j < |subjects| && ParseSubjectType(subjects[j]).relation.None? && ParseSubjectType(subjects[j]).namespace == n;
        assert Leads(model, subjects[j], c) && subjects[j] in subjects;
        break;
      }
      todo := todo - {n};
    }
    if !resolved {
      forall s | s in subjects ensures !Leads(model, s, c) {
        var j :| 0 <= j < |subjects| && subjects[j] == s;
        if ParseSubjectType(s).relation.None? {
          assert ParseSubjectType(subjects[j]).namespace in candidates;
        }
      }
    }
    ok := resolved;
  }

  method ValidateExpr(model: Model, d: NamespaceDef, e: UsersetExpr) returns (ok: bool)
    ensures ok <==> ExprOk(model, d, e)
    decreases e
  {
    match e
    case Direct => ok := true;
    case Computed(r) => ok := Declares(d, r);
    case TupleToUserset(t, c) => ok := ValidateWalk(model, d, t, c);
    case Union(cs) => ok := ValidateChildren(model, d, e, cs);
    case Intersection(cs) => ok := ValidateChildren(model, d, e, cs);
    case Exclusion(base, subtract) =>
      ok := ValidateExpr(model, d, base);
      if ok {
        ok := ValidateExpr(model, d, subtract);
      }
  }

  method ValidateChildren(model: Model, d: NamespaceDef, e: UsersetExpr, cs: seq<UsersetExpr>) returns (ok: bool)
    requires e == Union(cs) || e == Intersection(cs)
    ensures ok <==> cs != [] && forall c | c in cs :: ExprOk(model, d, c)
    decreases e, 0
  {
    if |cs| == 0 {
      return false;
    }
    for i := 0 to |cs|
      invariant forall c | c in cs[..i] :: ExprOk(model, d, c)
    {
      assert cs[i] in cs;
      var good := ValidateExpr(model, d, cs[i]);
      if !good {
        return false;
      }
      assert cs[..i + 1] == cs[..i] + [cs[i]];
    }
    assert cs[..|cs|] == cs;
    ok := true;
  }

  method ValidatePermissions(model: Model, d: NamespaceDef) returns (ok: bool)
    ensures ok <==> PermissionsOk(model, d)
  {
    var todo := d.permissions.Keys;
    while todo != {}
      invariant todo <= d.permissions.Keys
      invariant forall p | p in d.permissions && p !in todo ::
                  IsName(p) && p !in d.relations && ExprOk(model, d, d.permissions[p])
      decreases |todo|
    {
      var p :| p in todo;
      if !IsName(p) || p in d.relations {
        return false;
      }
      var good := ValidateExpr(model, d, d.permissions[p]);
      if !good {
        return false;
      }
      todo := todo - {p};
    }
    ok := true;
  }

  lemma TakenName(defs: seq<NamespaceDef>, i: nat)
    requires i < |defs| && defs[i].name in ByName(defs[..i])
    ensures !DistinctNames(defs)
  {
    ByNameHolds(defs[..i]);
    var d :| d in defs[..i] && d.name == defs[i].name;
    var j :| 0 <= j < i && defs[..i][j] == d;
    assert defs[j].name == defs[i].name;
  }

  lemma FreshName(defs: seq<NamespaceDef>, i: nat)
    requires i < |defs| && DistinctNames(defs[..i]) && defs[i].name !in ByName(defs[..i])
    ensures DistinctNames(defs[..i + 1])
  {
    ByNameHolds(defs[..i]);
    forall j | 0 <= j < i ensures defs[j].name != defs[i].name {
      assert defs[..i][j] in defs[..i];
    }
  }

  /** The map, or `None` at the first name that is already there. */
  method Register(namespaces: seq<NamespaceDef>) returns (byName: Option<Model>)
    ensures byName.Some? <==> DistinctNames(namespaces)
    ensures byName.Some? ==> byName.value == ByName(namespaces)
  {
    var m: Model := map[];
    for i := 0 to |namespaces|
      invariant m == ByName(namespaces[..i]) && DistinctNames(namespaces[..i])
    {
      assert namespaces[..i + 1][..i] == namespaces[..i];
      if namespaces[i].name in m {
        TakenName(namespaces, i);
        return None;
      }
      FreshName(namespaces, i);
      m := m[namespaces[i].name := namespaces[i]];
    }
    assert namespaces[..|namespaces|] == namespaces;
    byName := Some(m);
  }

  method Validate(model: Model, namespaces: seq<NamespaceDef>) returns (ok: bool)
    ensures ok <==> forall d | d in namespaces :: DefOk(model, d)
  {
    for i := 0 to |namespaces|
      invariant forall d | d in namespaces[..i] :: DefOk(model, d)
    {
      assert namespaces[i] in namespaces;
      if !IsName(namespaces[i].name) {
        return false;
      }
      var good := ValidateRelations(model, namespaces[i]);
      if !good {
        return false;
      }
      good := ValidatePermissions(model, namespaces[i]);
      if !good {
        return false;
      }
      assert namespaces[..i + 1] == namespaces[..i] + [namespaces[i]];
    }
    assert namespaces[..|namespaces|] == namespaces;
    ok := true;
  }

  /** The constructor: `None` stands for the exception it throws. */
  method NewAuthorizationModel(namespaces: seq<NamespaceDef>) returns (model: Option<Model>)
    ensures model.Some? <==> ModelOk(namespaces)
    ensures model.Some? ==> model.value == ByName(namespaces)
  {
    model := Register(namespaces);
    if model.Some? {
      var ok := Validate(model.value, namespaces);
      if !ok {
        model := None;
      }
    }
  }
}
