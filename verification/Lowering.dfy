/** From the permission DSL's syntax tree to namespace definitions: the checks, the translation, and how they fit together. */
module Lowering {
  import opened Options
  import opened Text
  import opened Rewrites
  import opened Models

  datatype ExprNode =
    | Ref(name: string)
    | Ttu(tupleRelation: string, computedRelation: string)
    | UnionNode(children: seq<ExprNode>)
    | IntersectionNode(children: seq<ExprNode>)
    | ExclusionNode(base: ExprNode, subtract: ExprNode)

  datatype MemberNode =
    | RelationNode(name: string, subjects: seq<SubjectType>)
    | PermissionNode(name: string, expr: ExprNode)

  datatype NamespaceNode = NamespaceNode(name: string, members: seq<MemberNode>)

  /** JavaScript's reserved words, then what every generated module imports or stands beside. */
  const WORDS_A_TO_F: set<string> := {
    "await", "break", "case", "catch", "class", "const", "continue", "debugger", "default", "delete", "do", "else",
    "enum", "export", "extends", "false", "finally", "for", "function"
  }
  const WORDS_I_TO_Y: set<string> := {
    "if", "implements", "import", "in", "instanceof", "interface", "let", "new", "null", "package", "private",
    "protected", "public", "return", "static", "super", "switch", "this", "throw", "true", "try", "typeof", "var",
    "void", "while", "with", "yield"
  }
  const GENERATED_NAMES: set<string> := {
    "defineNamespace", "computed", "tupleToUserset", "union", "intersection", "exclusion", "model"
  }
  const RESERVED_NAMESPACE_NAMES := WORDS_A_TO_F + WORDS_I_TO_Y + GENERATED_NAMES

  datatype CompileError =
    | BadNamespaceName(namespace: string)
    | ReservedNamespaceName(namespace: string)
    | DuplicateNamespace(namespace: string)
    | BadMemberName(name: string)
    | DuplicateMember(namespace: string, name: string)
    | UnknownReference(namespace: string, permission: string)
    | UnknownSubject(namespace: string, relation: string)
    | ModelRejected

  // ----- lowering -----

  function SubjectToString(s: SubjectType): string {
    if s.relation.Some? then s.namespace + "." + s.relation.value
    else if s.wildcard then s.namespace + ".*"
    else s.namespace
  }

  function LowerExpr(e: ExprNode): UsersetExpr {
    match e
    case Ref(name) => Computed(name)
    case Ttu(t, c) => TupleToUserset(t, c)
    case UnionNode(cs) => Union(LowerAll(cs))
    case IntersectionNode(cs) => Intersection(LowerAll(cs))
    case ExclusionNode(base, subtract) => Exclusion(LowerExpr(base), LowerExpr(subtract))
  }

  function LowerAll(cs: seq<ExprNode>): (r: seq<UsersetExpr>)
    ensures |r| == |cs| && forall i | 0 <= i < |cs| :: r[i] == LowerExpr(cs[i])
  {
    if cs == [] then [] else [LowerExpr(cs[0])] + LowerAll(cs[1..])
  }

  function SubjectStrings(subjects: seq<SubjectType>): (r: seq<string>)
    ensures |r| == |subjects| && forall i | 0 <= i < |r| :: r[i] == SubjectToString(subjects[i])
  {
    seq(|subjects|, i requires 0 <= i < |subjects| => SubjectToString(subjects[i]))
  }

  /** The two records after the members' assignments; a later member of the same name overwrites. */
  function Relations(members: seq<MemberNode>): map<string, seq<string>> {
    if members == [] then map[]
    else
      var before, m := Relations(members[..|members| - 1]), members[|members| - 1];
      if m.RelationNode? then before[m.name := SubjectStrings(m.subjects)] else before
  }

  function Permissions(members: seq<MemberNode>): map<string, UsersetExpr> {
    if members == [] then map[]
    else
      var before, m := Permissions(members[..|members| - 1]), members[|members| - 1];
      if m.PermissionNode? then before[m.name := LowerExpr(m.expr)] else before
  }

  function LowerNamespace(ns: NamespaceNode): NamespaceDef {
    NamespaceDef(ns.name, Relations(ns.members), Permissions(ns.members))
  }

  function LowerNamespaces(file: seq<NamespaceNode>): (defs: seq<NamespaceDef>)
    ensures |defs| == |file| && forall i | 0 <= i < |file| :: defs[i] == LowerNamespace(file[i])
  {
    seq(|file|, i requires 0 <= i < |file| => LowerNamespace(file[i]))
  }

  method FillNamespace(ns: NamespaceNode) returns (d: NamespaceDef)
    ensures d == LowerNamespace(ns)
  {
    var relations: map<string, seq<string>> := map[];
    var permissions: map<string, UsersetExpr> := map[];
    for i := 0 to |ns.members|
      invariant relations == Relations(ns.members[..i]) && permissions == Permissions(ns.members[..i])
    {
      assert ns.members[..i + 1][..i] == ns.members[..i];
      match ns.members[i]
      case RelationNode(name, subjects) => relations := relations[name := SubjectStrings(subjects)];
      case PermissionNode(name, expr) => permissions := permissions[name := LowerExpr(expr)];
    }
    assert ns.members[..|ns.members|] == ns.members;
    d := NamespaceDef(ns.name, relations, permissions);
  }

  // ----- validateLocal -----

  ghost predicate DistinctMembers(members: seq<MemberNode>) {
    forall i, j | 0 <= i < j < |members| :: members[i].name != members[j].name
  }

  ghost predicate MembersNamed(members: seq<MemberNode>) {
    DistinctMembers(members) && forall m | m in members :: IsName(m.name)
  }

  ghost predicate NamespaceNamed(ns: NamespaceNode) {
    IsName(ns.name) && ns.name !in RESERVED_NAMESPACE_NAMES && MembersNamed(ns.members)
  }

  ghost predicate DistinctNamespaces(file: seq<NamespaceNode>) {
    forall i, j | 0 <= i < j < |file| :: file[i].name != file[j].name
  }

  /** What `validateLocal` accepts. */
  ghost predicate WellNamed(file: seq<NamespaceNode>) {
    DistinctNamespaces(file) && forall ns | ns in file :: NamespaceNamed(ns)
  }

  method ValidateMembers(ns: NamespaceNode) returns (error: Option<CompileError>)
    ensures error.None? <==> MembersNamed(ns.members)
  {
    var members := ns.members;
    var relations: set<string>, permissions: set<string> := {}, {};
    for i := 0 to |members|
      invariant MembersNamed(members[..i])
      invariant relations == set m | m in members[..i] && m.RelationNode? :: m.name
      invariant permissions == set m | m in members[..i] && m.PermissionNode? :: m.name
    {
      var m := members[i];
      assert members[..i + 1] == members[..i] + [m] && m in members;
      if !IsName(m.name) {
        return Some(BadMemberName(m.name));
      }
      if m.name in relations || m.name in permissions {
        var other :| other in members[..i] && other.name == m.name;
        var j :| 0 <= j < i && members[j] == other;
        assert members[j].name == members[i].name;
        return Some(DuplicateMember(ns.name, m.name));
      }
      forall j | 0 <= j < i ensures members[j].name != m.name {
        assert members[j] in members[..i];
      }
      if m.RelationNode? {
        relations := relations + {m.name};
      } else {
        permissions := permissions + {m.name};
      }
    }
    assert members[..|members|] == members;
    error := None;
  }

  method ValidateLocal(file: seq<NamespaceNode>) returns (error: Option<CompileError>)
    ensures error.None? <==> WellNamed(file)
  {
    var seen: set<string> := {};
    for i := 0 to |file|
      invariant seen == set n | n in file[..i] :: n.name
      invariant WellNamed(file[..i])
    {
      var ns := file[i];
      assert file[..i + 1] == file[..i] + [ns] && ns in file;
      if !IsName(ns.name) {
        return Some(BadNamespaceName(ns.name));
      }
      if ns.name in RESERVED_NAMESPACE_NAMES {
        return Some(ReservedNamespaceName(ns.name));
      }
      if ns.name in seen {
        var other :| other in file[..i] && other.name == ns.name;
        var j :| 0 <= j < i && file[j] == other;
        assert file[j].name == file[i].name;
        return Some(DuplicateNamespace(ns.name));
      }
      forall j | 0 <= j < i ensures file[j].name != ns.name {
        assert file[j] in file[..i];
      }
      seen := seen + {ns.name};
      error := ValidateMembers(ns);
      if error.Some? {
        return;
      }
    }
    assert file[..|file|] == file;
    error := None;
  }

  // ----- validateRefs -----

  type Scope = map<string, NamespaceNode>

  function NamespacesByName(file: seq<NamespaceNode>): Scope {
    if file == [] then map[]
    else NamespacesByName(file[..|file| - 1])[file[|file| - 1].name := file[|file| - 1]]
  }

  predicate Has(members: seq<MemberNode>, name: string) {
    exists m | m in members :: m.name == name
  }

  predicate WalkResolves(scope: Scope, s: SubjectType, c: string) {
    s.relation.None? && s.namespace in scope && Has(scope[s.namespace].members, c)
  }

  predicate ExprRefsOk(scope: Scope, ns: NamespaceNode, e: ExprNode)
    decreases e
  {
    match e
    case Ref(name) => Has(ns.members, name)
    case Ttu(t, c) =>
      exists m | m in ns.members :: m.RelationNode? && m.name == t && IsFirstRelation(ns.members, m) &&
        exists s | s in m.subjects :: WalkResolves(scope, s, c)
    case UnionNode(cs) => cs != [] && forall c | c in cs :: ExprRefsOk(scope, ns, c)
    case IntersectionNode(cs) => cs != [] && forall c | c in cs :: ExprRefsOk(scope, ns, c)
    case ExclusionNode(base, subtract) => ExprRefsOk(scope, ns, base) && ExprRefsOk(scope, ns, subtract)
  }

  /** `m` is the relation `find` returns for its name. */
  predicate IsFirstRelation(members: seq<MemberNode>, m: MemberNode) {
    exists i | 0 <= i < |members| :: members[i] == m &&
      forall j | 0 <= j < i :: !(members[j].RelationNode? && members[j].name == m.name)
  }

  predicate SubjectRefsOk(scope: Scope, s: SubjectType) {
    s.namespace in scope && (s.relation.Some? ==> Has(scope[s.namespace].members, s.relation.value))
  }

  predicate MemberRefsOk(scope: Scope, ns: NamespaceNode, m: MemberNode) {
    match m
    case RelationNode(_, subjects) => forall s | s in subjects :: SubjectRefsOk(scope, s)
    case PermissionNode(_, e) => ExprRefsOk(scope, ns, e)
  }

  ghost predicate NamespaceRefsOk(scope: Scope, ns: NamespaceNode) {
    forall m | m in ns.members :: MemberRefsOk(scope, ns, m)
  }

  /** What `validateRefs` accepts. */
  ghost predicate RefsResolve(file: seq<NamespaceNode>) {
    forall ns | ns in file :: NamespaceRefsOk(NamespacesByName(file), ns)
  }

  method CheckRelationSubjects(scope: Scope, ns: NamespaceNode, m: MemberNode) returns (error: Option<CompileError>)
    requires m.RelationNode?
    ensures error.None? <==> MemberRefsOk(scope, ns, m)
  {
    for i := 0 to |m.subjects|
      invariant forall s | s in m.subjects[..i] :: SubjectRefsOk(scope, s)
    {
      var s := m.subjects[i];
      assert m.subjects[..i + 1] == m.subjects[..i] + [s] && s in m.subjects;
      if s.namespace !in scope {
        return Some(UnknownSubject(ns.name, m.name));
      }
      if s.relation.Some? && !Has(scope[s.namespace].members, s.relation.value) {
        return Some(UnknownSubject(ns.name, m.name));
      }
    }
    assert m.subjects[..|m.subjects|] == m.subjects;
    error := None;
  }

  method CheckTtu(scope: Scope, ns: NamespaceNode, t: string, c: string) returns (ok: bool)
    ensures ok <==> ExprRefsOk(scope, ns, Ttu(t, c))
  {
    for i := 0 to |ns.members|
      invariant forall j | 0 <= j < i :: !(ns.members[j].RelationNode? && ns.members[j].name == t)
    {
      var m := ns.members[i];
      if m.RelationNode? && m.name == t {
        assert m in ns.members && IsFirstRelation(ns.members, m);
        ok := exists s | s in m.subjects :: WalkResolves(scope, s, c);
        forall other | other in ns.members && other.RelationNode? && other.name == t && IsFirstRelation(ns.members, other)
          ensures other == m
        {
          var k :| 0 <= k < |ns.members| && ns.members[k] == other &&
                   forall j | 0 <= j < k :: !(ns.members[j].RelationNode? && ns.members[j].name == t);
          assert k == i;
        }
        return;
      }
    }
    ok := false;
  }

  method CheckExprRefs(scope: Scope, ns: NamespaceNode, e: ExprNode) returns (ok: bool)
    ensures ok <==> ExprRefsOk(scope, ns, e)
    decreases e
  {
    match e
    case Ref(name) => ok := Has(ns.members, name);
    case Ttu(t, c) => ok := CheckTtu(scope, ns, t, c);
    case UnionNode(cs) => ok := CheckChildren(scope, ns, e, cs);
    case IntersectionNode(cs) => ok := CheckChildren(scope, ns, e, cs);
    case ExclusionNode(base, subtract) =>
      ok := CheckExprRefs(scope, ns, base);
      if ok {
        ok := CheckExprRefs(scope, ns, subtract);
      }
  }

  method CheckChildren(scope: Scope, ns: NamespaceNode, e: ExprNode, cs: seq<ExprNode>) returns (ok: bool)
    requires e == UnionNode(cs) || e == IntersectionNode(cs)
    ensures ok <==> cs != [] && forall c | c in cs :: ExprRefsOk(scope, ns, c)
    decreases e, 0
  {
    if |cs| == 0 {
      return false;
    }
    for i := 0 to |cs|
      invariant forall c | c in cs[..i] :: ExprRefsOk(scope, ns, c)
    {
      assert cs[..i + 1] == cs[..i] + [cs[i]] && cs[i] in cs;
      var good := CheckExprRefs(scope, ns, cs[i]);
      if !good {
        return false;
      }
    }
    assert cs[..|cs|] == cs;
    ok := true;
  }

  method CheckNamespaceRefs(scope: Scope, ns: NamespaceNode) returns (error: Option<CompileError>)
    ensures error.None? <==> NamespaceRefsOk(scope, ns)
  {
    for i := 0 to |ns.members|
      invariant forall m | m in ns.members[..i] :: MemberRefsOk(scope, ns, m)
    {
      var m := ns.members[i];
      assert ns.members[..i + 1] == ns.members[..i] + [m] && m in ns.members;
      if m.RelationNode? {
        error := CheckRelationSubjects(scope, ns, m);
        if error.Some? {
          return;
        }
      } else {
        var ok := CheckExprRefs(scope, ns, m.expr);
        if !ok {
          return Some(UnknownReference(ns.name, m.name));
        }
      }
    }
    assert ns.members[..|ns.members|] == ns.members;
    error := None;
  }

  method ValidateRefs(file: seq<NamespaceNode>) returns (error: Option<CompileError>)
    ensures error.None? <==> RefsResolve(file)
  {
    var scope := NamespacesByName(file);
    for i := 0 to |file|
      invariant forall ns | ns in file[..i] :: NamespaceRefsOk(scope, ns)
    {
      assert file[..i + 1] == file[..i] + [file[i]] && file[i] in file;
      error := CheckNamespaceRefs(scope, file[i]);
      if error.Some? {
        return;
      }
    }
    assert file[..|file|] == file;
    error := None;
  }

  // ----- lower -----

  ghost predicate LowerOk(file: seq<NamespaceNode>) {
    WellNamed(file) && RefsResolve(file) && ModelOk(LowerNamespaces(file))
  }

  method Lower(file: seq<NamespaceNode>) returns (model: Option<Model>, error: Option<CompileError>)
    ensures error.None? <==> LowerOk(file)
    ensures model.Some? <==> error.None?
    ensures model.Some? ==> model.value == ByName(LowerNamespaces(file))
  {
    model := None;
    error := ValidateLocal(file);
    if error.Some? {
      return;
    }
    error := ValidateRefs(file);
    if error.Some? {
      return;
    }
    var defs: seq<NamespaceDef> := [];
    for i := 0 to |file|
      invariant defs == LowerNamespaces(file[..i])
    {
      var d := FillNamespace(file[i]);
      defs := defs + [d];
    }
    assert file[..|file|] == file;
    model := NewAuthorizationModel(defs);
    if model.None? {
      error := Some(ModelRejected);
    }
  }
}
