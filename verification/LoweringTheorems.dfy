/** How the compiler's reference checks relate to the model's own validation, the last safety net. */
module LoweringTheorems {
  import opened Options
  import opened Text
  import opened Rewrites
  import opened Models
  import opened SmallModels
  import opened Lowering

  // The net catches exactly one thing the reference checks let through: a userset subject that names a permission.

  /** What the grammar guarantees of a subject type: its identifiers hold neither `.` nor `*`. */
  predicate Grammatical(s: SubjectType) {
    '.' !in s.namespace && (s.relation.Some? ==> !s.wildcard && '*' !in s.relation.value)
  }

  ghost predicate GrammaticalFile(file: seq<NamespaceNode>) {
    forall ns, m, s | ns in file && m in ns.members && m.RelationNode? && s in m.subjects :: Grammatical(s)
  }

  /** The decoder undoes the encoder. */
  lemma SubjectTypeRoundTrip(s: SubjectType)
    requires Grammatical(s)
    ensures ParseSubjectType(SubjectToString(s)) == s
  {
    var text := SubjectToString(s);
    if s.relation.Some? {
      var r := s.relation.value;
      assert text == s.namespace + ['.'] + r;
      assert text[|text| - 1] == (if r == "" then '.' else r[|r| - 1]);
      if |text| >= 2 {
        assert text[|text| - 2..][1] == text[|text| - 1];
      }
      SplitOf(s.namespace, '.', r);
    } else if s.wildcard {
      assert text[|text| - 2..] == ".*";
      assert text[..|text| - 2] == s.namespace;
    } else {
      if |text| >= 2 {
        assert text[|text| - 2..][0] == text[|text| - 2];
        assert text[|text| - 2] in text;
      }
    }
  }

  /** The three forms: all of a namespace, its wildcard, and the subjects of a relation. */
  lemma SubjectTypeNotation(ns: string, r: string)
    requires '.' !in ns && '*' !in r
    ensures SubjectToString(SubjectType(ns, None, false)) == ns && SubjectToString(SubjectType(ns, None, true)) == ns + ".*"
    ensures SubjectToString(SubjectType(ns, Some(r), false)) == ns + "." + r
    ensures ParseSubjectType(ns) == SubjectType(ns, None, false) && ParseSubjectType(ns + ".*") == SubjectType(ns, None, true)
    ensures ParseSubjectType(ns + "." + r) == SubjectType(ns, Some(r), false)
  {
    SubjectTypeRoundTrip(SubjectType(ns, None, false));
    SubjectTypeRoundTrip(SubjectType(ns, None, true));
    SubjectTypeRoundTrip(SubjectType(ns, Some(r), false));
  }

  // ----- lowered records, member by member -----

  lemma {:induction false} RelationsHold(members: seq<MemberNode>)
    ensures forall r :: r in Relations(members) <==> exists m | m in members :: m.RelationNode? && m.name == r
    ensures DistinctMembers(members) ==>
              forall m | m in members && m.RelationNode? :: Relations(members)[m.name] == SubjectStrings(m.subjects)
  {
    if members != [] {
      var init, last := members[..|members| - 1], members[|members| - 1];
      RelationsHold(init);
      assert forall m :: m in members <==> m in init || m == last;
      LastIsNew(members);
    }
  }

  lemma {:induction false} PermissionsHold(members: seq<MemberNode>)
    ensures forall p :: p in Permissions(members) <==> exists m | m in members :: m.PermissionNode? && m.name == p
    ensures DistinctMembers(members) ==>
              forall m | m in members && m.PermissionNode? :: Permissions(members)[m.name] == LowerExpr(m.expr)
  {
    if members != [] {
      var init, last := members[..|members| - 1], members[|members| - 1];
      PermissionsHold(init);
      assert forall m :: m in members <==> m in init || m == last;
      LastIsNew(members);
    }
  }

  lemma LastIsNew(members: seq<MemberNode>)
    requires members != []
    ensures DistinctMembers(members) ==>
              DistinctMembers(members[..|members| - 1]) &&
              forall m | m in members[..|members| - 1] :: m.name != members[|members| - 1].name
  {
  }

  lemma NameIdentifies(members: seq<MemberNode>, p: MemberNode, r: MemberNode)
    requires DistinctMembers(members) && p in members && r in members && p.name == r.name
    ensures p == r
  {
    var i :| 0 <= i < |members| && members[i] == p;
    var j :| 0 <= j < |members| && members[j] == r;
    assert i == j;
  }

  lemma DeclaresIsHas(ns: NamespaceNode, name: string)
    ensures Declares(LowerNamespace(ns), name) <==> Has(ns.members, name)
  {
    RelationsHold(ns.members);
    PermissionsHold(ns.members);
  }

  // ----- scope and model -----

  lemma {:induction false} ScopeHolds(file: seq<NamespaceNode>)
    ensures forall n :: n in NamespacesByName(file) <==> exists ns | ns in file :: ns.name == n
    ensures DistinctNamespaces(file) ==> forall ns | ns in file :: NamespacesByName(file)[ns.name] == ns
    ensures forall n | n in NamespacesByName(file) :: NamespacesByName(file)[n] in file && NamespacesByName(file)[n].name == n
  {
    if file != [] {
      var init, last := file[..|file| - 1], file[|file| - 1];
      ScopeHolds(init);
      assert forall ns :: ns in file <==> ns in init || ns == last;
      if DistinctNamespaces(file) {
        forall ns | ns in init ensures ns.name != last.name {
          var i :| 0 <= i < |init| && init[i] == ns;
          assert file[i] == ns && file[|file| - 1] == last;
        }
      }
    }
  }

  /** The model's map is the scope, lowered. */
  ghost predicate Corresponds(scope: Scope, model: Model) {
    forall n :: (n in scope <==> n in model) && (n in scope ==> model[n] == LowerNamespace(scope[n]))
  }

  lemma {:induction false} ScopeCorresponds(file: seq<NamespaceNode>)
    ensures Corresponds(NamespacesByName(file), ByName(LowerNamespaces(file)))
  {
    if file != [] {
      var init := file[..|file| - 1];
      ScopeCorresponds(init);
      assert LowerNamespaces(file)[..|file| - 1] == LowerNamespaces(init);
    }
  }

  // ----- expressions -----

  lemma WalkIsLeads(scope: Scope, model: Model, s: SubjectType, c: string)
    requires Corresponds(scope, model) && Grammatical(s)
    ensures Leads(model, SubjectToString(s), c) <==> WalkResolves(scope, s, c)
  {
    SubjectTypeRoundTrip(s);
    if s.namespace in scope {
      DeclaresIsHas(scope[s.namespace], c);
    }
  }

  ghost predicate GrammaticalMembers(ns: NamespaceNode) {
    forall m, s | m in ns.members && m.RelationNode? && s in m.subjects :: Grammatical(s)
  }

  lemma {:induction false} ExprChecksAgree(scope: Scope, model: Model, ns: NamespaceNode, e: ExprNode)
    requires Corresponds(scope, model) && DistinctMembers(ns.members) && GrammaticalMembers(ns)
    ensures ExprOk(model, LowerNamespace(ns), LowerExpr(e)) <==> ExprRefsOk(scope, ns, e)
    decreases e
  {
    match e
    case Ref(name) => DeclaresIsHas(ns, name);
    case Ttu(t, c) => TtuChecksAgree(scope, model, ns, t, c);
    case UnionNode(cs) => ChildChecksAgree(scope, model, ns, e, cs);
    case IntersectionNode(cs) => ChildChecksAgree(scope, model, ns, e, cs);
    case ExclusionNode(base, subtract) =>
      ExprChecksAgree(scope, model, ns, base);
      ExprChecksAgree(scope, model, ns, subtract);
  }

  lemma {:induction false} ChildChecksAgree(scope: Scope, model: Model, ns: NamespaceNode, e: ExprNode, cs: seq<ExprNode>)
    requires Corresponds(scope, model) && DistinctMembers(ns.members) && GrammaticalMembers(ns)
    requires e == UnionNode(cs) || e == IntersectionNode(cs)
    ensures (forall d | d in LowerAll(cs) :: ExprOk(model, LowerNamespace(ns), d)) <==>
            forall c | c in cs :: ExprRefsOk(scope, ns, c)
    decreases e, 0
  {
    forall c | c in cs ensures ExprOk(model, LowerNamespace(ns), LowerExpr(c)) <==> ExprRefsOk(scope, ns, c) {
      ExprChecksAgree(scope, model, ns, c);
    }
    LoweredMembers(cs);
    if forall c | c in cs :: ExprRefsOk(scope, ns, c) {
      forall d | d in LowerAll(cs) ensures ExprOk(model, LowerNamespace(ns), d) {
        var c :| c in cs && LowerExpr(c) == d;
      }
    }
    if forall d | d in LowerAll(cs) :: ExprOk(model, LowerNamespace(ns), d) {
      forall c | c in cs ensures ExprRefsOk(scope, ns, c) {
        assert LowerExpr(c) in LowerAll(cs);
      }
    }
  }

  lemma LoweredMembers(cs: seq<ExprNode>)
    ensures forall c | c in cs :: LowerExpr(c) in LowerAll(cs)
    ensures forall d | d in LowerAll(cs) :: exists c | c in cs :: LowerExpr(c) == d
  {
    forall c | c in cs ensures LowerExpr(c) in LowerAll(cs) {
      var i :| 0 <= i < |cs| && cs[i] == c;
      assert LowerAll(cs)[i] == LowerExpr(c);
    }
    forall d | d in LowerAll(cs) ensures exists c | c in cs :: LowerExpr(c) == d {
      var i :| 0 <= i < |cs| && LowerAll(cs)[i] == d;
      assert cs[i] in cs;
    }
  }

  lemma SomeWalkAgrees(scope: Scope, model: Model, subjects: seq<SubjectType>, c: string)
    requires Corresponds(scope, model) && forall s | s in subjects :: Grammatical(s)
    ensures (exists text | text in SubjectStrings(subjects) :: Leads(model, text, c)) <==>
            exists s | s in subjects :: WalkResolves(scope, s, c)
  {
    var strings := SubjectStrings(subjects);
    forall s | s in subjects ensures Leads(model, SubjectToString(s), c) <==> WalkResolves(scope, s, c) {
      WalkIsLeads(scope, model, s, c);
    }
    if s :| s in subjects && WalkResolves(scope, s, c) {
      var j :| 0 <= j < |subjects| && subjects[j] == s;
      assert strings[j] in strings && Leads(model, strings[j], c);
    }
    if text :| text in strings && Leads(model, text, c) {
      var j :| 0 <= j < |strings| && strings[j] == text;
      assert subjects[j] in subjects && WalkResolves(scope, subjects[j], c);
    }
  }

  lemma TtuChecksAgree(scope: Scope, model: Model, ns: NamespaceNode, t: string, c: string)
    requires Corresponds(scope, model) && DistinctMembers(ns.members) && GrammaticalMembers(ns)
    ensures ExprOk(model, LowerNamespace(ns), TupleToUserset(t, c)) <==> ExprRefsOk(scope, ns, Ttu(t, c))
  {
    RelationsHold(ns.members);
    if m :| m in ns.members && m.RelationNode? && m.name == t {
      var i :| 0 <= i < |ns.members| && ns.members[i] == m;
      assert IsFirstRelation(ns.members, m);
      SomeWalkAgrees(scope, model, m.subjects, c);
      forall other | other in ns.members && other.RelationNode? && other.name == t ensures other == m {
        NameIdentifies(ns.members, m, other);
      }
    }
  }

  // ----- subjects -----

  /** The condition a caller can check beforehand: a userset subject names a relation, not a permission. */
  predicate NamesRelation(scope: Scope, s: SubjectType) {
    s.relation.Some? && s.namespace in scope ==>
      exists m | m in scope[s.namespace].members :: m.RelationNode? && m.name == s.relation.value
  }

  ghost predicate UsersetsNameRelations(file: seq<NamespaceNode>) {
    forall ns, m, s | ns in file && m in ns.members && m.RelationNode? && s in m.subjects ::
      NamesRelation(NamespacesByName(file), s)
  }

  lemma SubjectChecksAgree(scope: Scope, model: Model, s: SubjectType)
    requires Corresponds(scope, model) && Grammatical(s) && forall n | n in scope :: IsName(n)
    ensures SubjectTypeOk(model, SubjectToString(s)) <==> SubjectRefsOk(scope, s) && NamesRelation(scope, s)
  {
    SubjectTypeRoundTrip(s);
    if s.namespace in scope {
      RelationsHold(scope[s.namespace].members);
    }
  }

  ghost predicate NamespaceUsersets(scope: Scope, ns: NamespaceNode) {
    forall m, s | m in ns.members && m.RelationNode? && s in m.subjects :: NamesRelation(scope, s)
  }

  ghost predicate RelationRefsOk(scope: Scope, ns: NamespaceNode) {
    forall m | m in ns.members && m.RelationNode? :: MemberRefsOk(scope, ns, m)
  }

  lemma ModelRelationsOnlyIf(scope: Scope, model: Model, ns: NamespaceNode)
    requires Corresponds(scope, model) && MembersNamed(ns.members) && GrammaticalMembers(ns)
    requires (forall n | n in scope :: IsName(n)) && RelationsOk(model, LowerNamespace(ns))
    ensures NamespaceUsersets(scope, ns) && RelationRefsOk(scope, ns)
  {
    RelationsHold(ns.members);
    forall m, s | m in ns.members && m.RelationNode? && s in m.subjects
      ensures SubjectRefsOk(scope, s) && NamesRelation(scope, s)
    {
      SubjectChecksAgree(scope, model, s);
      var j :| 0 <= j < |m.subjects| && m.subjects[j] == s;
      assert SubjectStrings(m.subjects)[j] == SubjectToString(s);
      assert SubjectToString(s) in LowerNamespace(ns).relations[m.name];
    }
  }

  lemma ModelRelationsIf(scope: Scope, model: Model, ns: NamespaceNode)
    requires Corresponds(scope, model) && MembersNamed(ns.members) && GrammaticalMembers(ns)
    requires (forall n | n in scope :: IsName(n)) && NamespaceUsersets(scope, ns) && RelationRefsOk(scope, ns)
    ensures RelationsOk(model, LowerNamespace(ns))
  {
    RelationsHold(ns.members);
    forall r | r in LowerNamespace(ns).relations
      ensures IsName(r) && forall text | text in LowerNamespace(ns).relations[r] :: SubjectTypeOk(model, text)
    {
      var m :| m in ns.members && m.RelationNode? && m.name == r;
      forall text | text in LowerNamespace(ns).relations[r] ensures SubjectTypeOk(model, text) {
        var j :| 0 <= j < |m.subjects| && SubjectStrings(m.subjects)[j] == text;
        assert m.subjects[j] in m.subjects && MemberRefsOk(scope, ns, m);
        SubjectChecksAgree(scope, model, m.subjects[j]);
      }
    }
  }

  lemma PermissionsCheckAgree(scope: Scope, model: Model, ns: NamespaceNode)
    requires Corresponds(scope, model) && MembersNamed(ns.members) && GrammaticalMembers(ns)
    ensures PermissionsOk(model, LowerNamespace(ns)) <==>
            forall m | m in ns.members && m.PermissionNode? :: MemberRefsOk(scope, ns, m)
  {
    RelationsHold(ns.members);
    PermissionsHold(ns.members);
    var d := LowerNamespace(ns);
    forall m | m in ns.members && m.PermissionNode?
      ensures m.name in d.permissions && m.name !in d.relations
      ensures ExprOk(model, d, d.permissions[m.name]) <==> MemberRefsOk(scope, ns, m)
    {
      ExprChecksAgree(scope, model, ns, m.expr);
      forall other | other in ns.members && other.name == m.name ensures other == m {
        NameIdentifies(ns.members, m, other);
      }
    }
  }

  lemma NamespaceChecksAgree(scope: Scope, model: Model, ns: NamespaceNode)
    requires Corresponds(scope, model) && NamespaceNamed(ns) && GrammaticalMembers(ns)
    requires forall n | n in scope :: IsName(n)
    ensures DefOk(model, LowerNamespace(ns)) <==> NamespaceRefsOk(scope, ns) && NamespaceUsersets(scope, ns)
  {
    if RelationsOk(model, LowerNamespace(ns)) {
      ModelRelationsOnlyIf(scope, model, ns);
    }
    if NamespaceUsersets(scope, ns) && RelationRefsOk(scope, ns) {
      ModelRelationsIf(scope, model, ns);
    }
    PermissionsCheckAgree(scope, model, ns);
  }

  /**
   * For a file that `validateLocal` accepts: the model built from it is accepted if and only if `validateRefs`
   * accepts it and every userset subject names a relation.
   */
  lemma {:induction false} ModelAcceptsExactly(file: seq<NamespaceNode>)
    requires WellNamed(file) && GrammaticalFile(file)
    ensures ModelOk(LowerNamespaces(file)) <==> RefsResolve(file) && UsersetsNameRelations(file)
  {
    var scope, defs := NamespacesByName(file), LowerNamespaces(file);
    var model := ByName(defs);
    ScopeHolds(file);
    ScopeCorresponds(file);
    assert DistinctNames(defs);
    forall ns | ns in file
      ensures DefOk(model, LowerNamespace(ns)) <==> NamespaceRefsOk(scope, ns) && NamespaceUsersets(scope, ns)
      ensures LowerNamespace(ns) in defs
    {
      NamespaceChecksAgree(scope, model, ns);
      var i :| 0 <= i < |file| && file[i] == ns;
      assert defs[i] == LowerNamespace(ns);
    }
    forall d | d in defs ensures exists ns | ns in file :: LowerNamespace(ns) == d {
      var i :| 0 <= i < |defs| && defs[i] == d;
      assert file[i] in file;
    }
    assert UsersetsNameRelations(file) <==> forall ns | ns in file :: NamespaceUsersets(scope, ns);
  }

  /** What the safety net catches: `relation r: a.p` with `p` a permission of `a`. */
  lemma SafetyNetCatches(file: seq<NamespaceNode>, ns: NamespaceNode, m: MemberNode, s: SubjectType)
    requires WellNamed(file) && GrammaticalFile(file)
    requires ns in file && m in ns.members && m.RelationNode? && s in m.subjects
    requires s.relation.Some? && s.namespace in NamespacesByName(file)
    requires exists p | p in NamespacesByName(file)[s.namespace].members :: p.PermissionNode? && p.name == s.relation.value
    ensures !ModelOk(LowerNamespaces(file)) && !LowerOk(file)
  {
    ModelAcceptsExactly(file);
    ScopeHolds(file);
    var members := NamespacesByName(file)[s.namespace].members;
    var p :| p in members && p.PermissionNode? && p.name == s.relation.value;
    assert NamespaceNamed(NamespacesByName(file)[s.namespace]);
    forall r | r in members && r.name == p.name ensures r == p {
      NameIdentifies(members, p, r);
    }
    assert !NamesRelation(NamespacesByName(file), s);
  }

  /** `a` with a relation on itself and a permission over it, and `b` with a relation to whom that permission is granted. */
  function Grantees(a: string, r: string, p: string, b: string, q: string): seq<NamespaceNode> {
    [NamespaceNode(a, [RelationNode(r, [SubjectType(a, None, false)]), PermissionNode(p, Ref(r))]),
     NamespaceNode(b, [RelationNode(q, [SubjectType(a, Some(p), false)])])]
  }

  lemma GranteesResolve(a: string, r: string, p: string, b: string, q: string)
    requires IsName(a) && IsName(r) && IsName(p) && IsName(b) && IsName(q) && a != b && r != p
    requires a !in RESERVED_NAMESPACE_NAMES && b !in RESERVED_NAMESPACE_NAMES
    ensures var file := Grantees(a, r, p, b, q);
            WellNamed(file) && GrammaticalFile(file) && RefsResolve(file) &&
            NamespacesByName(file) == map[a := file[0], b := file[1]]
  {
    var file := Grantees(a, r, p, b, q);
    NamesHoldNoSeparator(a);
    NamesHoldNoSeparator(p);
    assert file[..1] == [file[0]] && file[..1][..0] == [];
    assert NamespacesByName(file[..1]) == map[a := file[0]];
    assert file[0].members[0] in file[0].members && file[0].members[1] in file[0].members;
  }

  /** A file that passes both checks of the compiler and is caught by the model: `doc` is owned by those who may `org.view`. */
  lemma SafetyNetFires()
    ensures var file := Grantees("org", "member", "view", "doc", "owner");
            WellNamed(file) && GrammaticalFile(file) && RefsResolve(file) && !LowerOk(file)
  {
    var file := Grantees("org", "member", "view", "doc", "owner");
    UserAndDoc();
    OwnerAndView();
    assert "org"[0] != "doc"[0] && "member"[0] != "view"[0];
    NotReserved("org");
    NotReserved("doc");
    GranteesResolve("org", "member", "view", "doc", "owner");
    var s := SubjectType("org", Some("view"), false);
    assert file[0].members[1] in NamespacesByName(file)["org"].members;
    SafetyNetCatches(file, file[1], file[1].members[0], s);
  }

  lemma ShortWordsToF(n: string)
    requires n in WORDS_A_TO_F && |n| == 3
    ensures n[0] == 'f'
  {
  }

  lemma ShortWordsFromI(n: string)
    requires n in WORDS_I_TO_Y && |n| == 3
    ensures n[0] != 'd' && n[0] != 'o'
  {
  }

  lemma GeneratedAreLonger(n: string)
    requires n in GENERATED_NAMES
    ensures |n| > 3
  {
  }

  lemma NotReserved(n: string)
    requires |n| == 3 && (n[0] == 'd' || n[0] == 'o')
    ensures n !in RESERVED_NAMESPACE_NAMES
  {
    if n in WORDS_A_TO_F {
      ShortWordsToF(n);
    } else if n in WORDS_I_TO_Y {
      ShortWordsFromI(n);
    } else if n in GENERATED_NAMES {
      GeneratedAreLonger(n);
    }
  }

  // ----- the verdict of `lower` is about the set of namespaces -----

  lemma SameScope(f: seq<NamespaceNode>, g: seq<NamespaceNode>)
    requires DistinctNamespaces(f) && DistinctNamespaces(g)
    requires forall ns :: ns in f <==> ns in g
    ensures NamespacesByName(f) == NamespacesByName(g)
  {
    ScopeHolds(f);
    ScopeHolds(g);
    var a, b := NamespacesByName(f), NamespacesByName(g);
    forall n ensures n in a <==> n in b {
      if n in a { assert a[n] in g; }
      if n in b { assert b[n] in f; }
    }
    forall n | n in a ensures a[n] == b[n] {
      assert a[n] in g;
    }
  }

  lemma SameDefs(f: seq<NamespaceNode>, g: seq<NamespaceNode>)
    requires forall ns :: ns in f <==> ns in g
    ensures forall d :: d in LowerNamespaces(f) ==> d in LowerNamespaces(g)
  {
    forall d | d in LowerNamespaces(f) ensures d in LowerNamespaces(g) {
      var i :| 0 <= i < |f| && LowerNamespaces(f)[i] == d;
      assert f[i] in g;
      var j :| 0 <= j < |g| && g[j] == f[i];
      assert LowerNamespaces(g)[j] == d;
    }
  }

  /** Rearranging the namespaces of a file, none of them named twice, does not change whether it is accepted. */
  lemma {:induction false} LowerIgnoresOrder(f: seq<NamespaceNode>, g: seq<NamespaceNode>)
    requires DistinctNamespaces(f) && DistinctNamespaces(g)
    requires forall ns :: ns in f <==> ns in g
    ensures LowerOk(f) <==> LowerOk(g)
  {
    SameScope(f, g);
    SameDefs(f, g);
    SameDefs(g, f);
    assert DistinctNames(LowerNamespaces(f)) && DistinctNames(LowerNamespaces(g));
    ByNameIgnoresOrder(LowerNamespaces(f), LowerNamespaces(g));
  }

  /** The same for files that may name a namespace twice: then neither is accepted. */
  lemma {:induction false} SameVerdict(f: seq<NamespaceNode>, g: seq<NamespaceNode>)
    requires DistinctNamespaces(f) <==> DistinctNamespaces(g)
    requires forall ns :: ns in f <==> ns in g
    ensures LowerOk(f) <==> LowerOk(g)
    ensures LowerOk(f) ==> DistinctNamespaces(f)
  {
    if DistinctNamespaces(f) {
      LowerIgnoresOrder(f, g);
    }
  }
}
