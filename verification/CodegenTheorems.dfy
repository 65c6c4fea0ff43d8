/** What the compiler generates for input that its validation accepts. */
module CodegenTheorems {
  import opened Options
  import opened Text
  import opened Models
  import opened Lowering
  import opened Codegen

  lemma {:induction false} ScopeIsFile(file: seq<NamespaceNode>, n: string)
    requires n in NamespacesByName(file)
    ensures NamespacesByName(file)[n] in file && NamespacesByName(file)[n].name == n
  {
    if file[|file| - 1].name != n {
      ScopeIsFile(file[..|file| - 1], n);
    }
  }

  lemma ScopeNamed(file: seq<NamespaceNode>, n: string)
    requires WellNamed(file) && n in NamespacesByName(file)
    ensures IsName(n) && MembersNamed(NamespacesByName(file)[n].members)
  {
    ScopeIsFile(file, n);
    assert NamespaceNamed(NamespacesByName(file)[n]);
  }

  lemma {:induction false} ResolvedIsQuotable(file: seq<NamespaceNode>, ns: NamespaceNode, e: ExprNode)
    requires WellNamed(file) && ns in file && ExprRefsOk(NamespacesByName(file), ns, e)
    ensures Quotable(e)
    decreases e
  {
    var scope := NamespacesByName(file);
    assert MembersNamed(ns.members) by { assert NamespaceNamed(ns); }
    match e
    case Ref(name) =>
    case Ttu(t, c) =>
      var m :| m in ns.members && m.RelationNode? && m.name == t && exists s | s in m.subjects :: WalkResolves(scope, s, c);
      var s :| s in m.subjects && WalkResolves(scope, s, c);
      ScopeNamed(file, s.namespace);
    case UnionNode(cs) =>
      forall c | c in cs ensures Quotable(c) { ResolvedIsQuotable(file, ns, c); }
    case IntersectionNode(cs) =>
      forall c | c in cs ensures Quotable(c) { ResolvedIsQuotable(file, ns, c); }
    case ExclusionNode(base, subtract) =>
      ResolvedIsQuotable(file, ns, base);
      ResolvedIsQuotable(file, ns, subtract);
  }

  lemma SubjectIsQuotable(file: seq<NamespaceNode>, s: SubjectType)
    requires WellNamed(file) && SubjectRefsOk(NamespacesByName(file), s)
    ensures '\'' !in SubjectToString(s)
  {
    ScopeNamed(file, s.namespace);
    if s.relation.Some? {
    }
  }

  lemma MemberIsQuotable(file: seq<NamespaceNode>, ns: NamespaceNode, m: MemberNode)
    requires WellNamed(file) && RefsResolve(file) && ns in file && m in ns.members
    ensures MemberQuotable(m)
  {
    assert MemberRefsOk(NamespacesByName(file), ns, m) by { assert NamespaceRefsOk(NamespacesByName(file), ns); }
    assert IsName(m.name) by { assert NamespaceNamed(ns); }
    match m
    case RelationNode(_, subjects) =>
      forall s | s in subjects ensures '\'' !in SubjectToString(s) {
        SubjectIsQuotable(file, s);
      }
    case PermissionNode(_, e) => ResolvedIsQuotable(file, ns, e);
  }

  /**
   * For every file that validation accepts, each generated definition evaluates to the very namespace that the
   * accepted model was built from.
   */
  lemma {:induction false} GeneratedMeansValidated(file: seq<NamespaceNode>, i: nat)
    requires WellNamed(file) && RefsResolve(file) && i < |file|
    ensures ReadDefinition(RenderDefinition(file[i])) == Some((file[i].name, LowerNamespaces(file)[i]))
  {
    var ns := file[i];
    assert IsName(ns.name) by { assert NamespaceNamed(ns); }
    forall m | m in ns.members ensures MemberQuotable(m) {
      MemberIsQuotable(file, ns, m);
    }
    DefinitionReadsBack(ns);
  }

  lemma {:induction false} CallsAreReserved(e: ExprNode, b: string)
    requires Calls(LowerExpr(e), b)
    ensures b in GENERATED_NAMES
    decreases e
  {
    match e
    case Ref(_) | Ttu(_, _) =>
    case UnionNode(cs) =>
      if SomeCalls(LowerAll(cs), b) {
        var i :| 0 <= i < |cs| && Calls(LowerAll(cs)[i], b);
        CallsAreReserved(cs[i], b);
      }
    case IntersectionNode(cs) =>
      if SomeCalls(LowerAll(cs), b) {
        var i :| 0 <= i < |cs| && Calls(LowerAll(cs)[i], b);
        CallsAreReserved(cs[i], b);
      }
    case ExclusionNode(base, subtract) =>
      if Calls(LowerExpr(base), b) {
        CallsAreReserved(base, b);
      } else if Calls(LowerExpr(subtract), b) {
        CallsAreReserved(subtract, b);
      }
  }

  /** The constant a generated module exports is none of the builders it calls, nor the model of the aggregate index. */
  lemma {:induction false} ExportedNameIsFree(file: seq<NamespaceNode>, ns: NamespaceNode)
    requires WellNamed(file) && ns in file
    ensures ns.name != "defineNamespace" && ns.name != "model"
    ensures forall m, b | m in ns.members && m.PermissionNode? && Calls(LowerExpr(m.expr), b) :: ns.name != b
  {
    assert NamespaceNamed(ns);
    forall m, b | m in ns.members && m.PermissionNode? && Calls(LowerExpr(m.expr), b) ensures ns.name != b {
      CallsAreReserved(m.expr, b);
    }
  }
}
