/**
 * The authorization model the evaluators walk, and what a question means: userset rewrites read as
 * one monotone-where-possible operator on sets of questions, its finite stages and its least fixpoint.
 */
module Rewrites {
  import opened Options
  import opened Tuples

  datatype UsersetExpr =
    | Direct
    | Computed(relation: string)
    | TupleToUserset(tupleRelation: string, computedRelation: string)
    | Union(children: seq<UsersetExpr>)
    | Intersection(children: seq<UsersetExpr>)
    | Exclusion(base: UsersetExpr, subtract: UsersetExpr)

  /** `relations` keeps, per relation, its subject types in their string encoding. */
  datatype NamespaceDef = NamespaceDef(
    name: string,
    relations: map<string, seq<string>>,
    permissions: map<string, UsersetExpr>)

  type Model = map<string, NamespaceDef>

  /** `None` stands for the exception on an unknown namespace, relation or permission. */
  function Resolve(model: Model, namespace: string, name: string): Option<UsersetExpr> {
    if namespace !in model then None
    else if name in model[namespace].permissions then Some(model[namespace].permissions[name])
    else if name in model[namespace].relations then Some(Direct)
    else None
  }

  // ----- the two tuple queries -----

  function ListByObjectRelation(tuples: seq<RelationTuple>, o: ObjectRef, relation: string): (out: seq<RelationTuple>)
    ensures forall t :: t in out <==> t in tuples && t.obj == o && t.relation == relation
  {
    if tuples == [] then []
    else
      var rest := ListByObjectRelation(tuples[1..], o, relation);
      if tuples[0].obj == o && tuples[0].relation == relation then [tuples[0]] + rest else rest
  }

  function ListObjectsRelatedBy(tuples: seq<RelationTuple>, o: ObjectRef, relation: string): (out: seq<ObjectRef>)
    ensures forall p :: p in out <==> RelationTuple(o, relation, Concrete(p.namespace, p.id)) in tuples
  {
    if tuples == [] then []
    else
      var t, rest := tuples[0], ListObjectsRelatedBy(tuples[1..], o, relation);
      if t.obj == o && t.relation == relation && t.subject.Concrete?
      then [ObjectRef(t.subject.namespace, t.subject.id)] + rest
      else rest
  }

  /** The first query goes through the store tuple by tuple: it keeps the order and every repetition. */
  lemma {:induction false} TuplesKeepOrder(a: seq<RelationTuple>, b: seq<RelationTuple>, t: RelationTuple, o: ObjectRef, relation: string)
    ensures ListByObjectRelation(a + b, o, relation) ==
            ListByObjectRelation(a, o, relation) + ListByObjectRelation(b, o, relation)
    ensures ListByObjectRelation([t], o, relation) == if t.obj == o && t.relation == relation then [t] else []
    decreases |a|
  {
    assert [t][1..] == [];
    if a == [] {
      assert a + b == b;
    } else {
      assert (a + b)[1..] == a[1..] + b;
      TuplesKeepOrder(a[1..], b, t, o, relation);
    }
  }

  /** So does the second one. */
  lemma {:induction false} ParentsKeepOrder(a: seq<RelationTuple>, b: seq<RelationTuple>, t: RelationTuple, o: ObjectRef, relation: string)
    ensures ListObjectsRelatedBy(a + b, o, relation) ==
            ListObjectsRelatedBy(a, o, relation) + ListObjectsRelatedBy(b, o, relation)
    ensures ListObjectsRelatedBy([t], o, relation) ==
            if t.obj == o && t.relation == relation && t.subject.Concrete?
            then [ObjectRef(t.subject.namespace, t.subject.id)] else []
    decreases |a|
  {
    assert [t][1..] == [];
    if a == [] {
      assert a + b == b;
    } else {
      assert (a + b)[1..] == a[1..] + b;
      ParentsKeepOrder(a[1..], b, t, o, relation);
    }
  }

  // ----- meaning -----

  /** A question about the request's subject: does it satisfy `relation` on `obj`? */
  datatype Node = Node(obj: ObjectRef, relation: string)

  /** What stays fixed during one request. */
  datatype World = World(model: Model, tuples: seq<RelationTuple>, subject: SubjectRef) {
    function Rewrite(n: Node): Option<UsersetExpr> {
      Resolve(model, n.obj.namespace, n.relation)
    }
  }

  function UsersetNode(s: SubjectRef): Node
    requires s.Userset?
  {
    Node(ObjectRef(s.namespace, s.id), s.relation)
  }

  /** A stored subject that grants a queried subject outright: itself, or the wildcard of its namespace. */
  predicate GrantsOutright(stored: SubjectRef, subject: SubjectRef) {
    subject.Concrete? && stored.namespace == subject.namespace &&
    ((stored.Concrete? && stored.id == subject.id) || stored.Wildcard?)
  }

  ghost predicate DirectIn(w: World, I: iset<Node>, n: Node, s: SubjectRef) {
    RelationTuple(n.obj, n.relation, s) in w.tuples &&
    (GrantsOutright(s, w.subject) || (s.Userset? && UsersetNode(s) in I))
  }

  /** Expression `e` on `n` holds, when the questions of `I` are exactly the ones that hold. */
  ghost predicate SatIn(w: World, I: iset<Node>, n: Node, e: UsersetExpr)
    decreases e
  {
    match e
    case Direct => exists s :: DirectIn(w, I, n, s)
    case Computed(r) => Node(n.obj, r) in I
    case TupleToUserset(t, c) =>
      exists p: ObjectRef :: RelationTuple(n.obj, t, Concrete(p.namespace, p.id)) in w.tuples && Node(p, c) in I
    case Union(cs) => exists c | c in cs :: SatIn(w, I, n, c)
    case Intersection(cs) => forall c | c in cs :: SatIn(w, I, n, c)
    case Exclusion(base, subtract) => SatIn(w, I, n, base) && !SatIn(w, I, n, subtract)
  }

  /** One application of every rewrite rule at once. */
  ghost function Apply(w: World, I: iset<Node>): iset<Node> {
    iset n: Node | w.Rewrite(n).Some? && SatIn(w, I, n, w.Rewrite(n).value)
  }

  ghost function Stage(w: World, k: nat): iset<Node> {
    if k == 0 then iset{} else Apply(w, Stage(w, k - 1))
  }

  ghost predicate InSomeStage(w: World, n: Node) {
    exists k: nat :: n in Stage(w, k)
  }

  ghost function Lfp(w: World): iset<Node> {
    iset n: Node | InSomeStage(w, n)
  }

  // ----- fragments -----

  predicate ExclusionFree(e: UsersetExpr) {
    match e
    case Direct | Computed(_) | TupleToUserset(_, _) => true
    case Union(cs) => forall c | c in cs :: ExclusionFree(c)
    case Intersection(cs) => forall c | c in cs :: ExclusionFree(c)
    case Exclusion(_, _) => false
  }

  predicate UnionOnly(e: UsersetExpr) {
    match e
    case Direct | Computed(_) | TupleToUserset(_, _) => true
    case Union(cs) => forall c | c in cs :: UnionOnly(c)
    case Intersection(_) | Exclusion(_, _) => false
  }

  ghost predicate ExclusionFreeModel(w: World) {
    forall n: Node :: w.Rewrite(n).Some? ==> ExclusionFree(w.Rewrite(n).value)
  }

  ghost predicate UnionOnlyModel(w: World) {
    forall n: Node :: w.Rewrite(n).Some? ==> UnionOnly(w.Rewrite(n).value)
  }

  lemma UnionOnlyIsExclusionFree(e: UsersetExpr)
    requires UnionOnly(e)
    ensures ExclusionFree(e)
  {
  }

  // ----- the least fixpoint is what its name says -----

  lemma {:induction false} SatMonotone(w: World, I: iset<Node>, J: iset<Node>, n: Node, e: UsersetExpr)
    requires I <= J && ExclusionFree(e) && SatIn(w, I, n, e)
    ensures SatIn(w, J, n, e)
    decreases e
  {
    match e
    case Direct =>
      var s :| DirectIn(w, I, n, s);
      assert DirectIn(w, J, n, s);
    case Computed(_) =>
    case TupleToUserset(_, _) =>
    case Union(cs) =>
      var c :| c in cs && SatIn(w, I, n, c);
      SatMonotone(w, I, J, n, c);
    case Intersection(cs) =>
      forall c | c in cs ensures SatIn(w, J, n, c) {
        SatMonotone(w, I, J, n, c);
      }
    case Exclusion(_, _) =>
  }

  lemma {:induction false} StagesGrow(w: World, j: nat, k: nat)
    requires ExclusionFreeModel(w) && j <= k
    ensures Stage(w, j) <= Stage(w, k)
    decreases k
  {
    if 0 < j {
      StagesGrow(w, j - 1, k - 1);
      forall n | n in Stage(w, j) ensures n in Stage(w, k) {
        SatMonotone(w, Stage(w, j - 1), Stage(w, k - 1), n, w.Rewrite(n).value);
      }
    }
  }

  /** A finite expression looks at finitely many members of the fixpoint, so one stage already holds them. */
  lemma {:induction false} SatAtSomeStage(w: World, n: Node, e: UsersetExpr) returns (k: nat)
    requires ExclusionFreeModel(w) && ExclusionFree(e) && SatIn(w, Lfp(w), n, e)
    ensures SatIn(w, Stage(w, k), n, e)
    decreases e, 0
  {
    k := 0;
    match e
    case Direct =>
      var s :| DirectIn(w, Lfp(w), n, s);
      if !GrantsOutright(s, w.subject) {
        k :| UsersetNode(s) in Stage(w, k);
      }
      assert DirectIn(w, Stage(w, k), n, s);
    case Computed(r) =>
      k :| Node(n.obj, r) in Stage(w, k);
    case TupleToUserset(t, c) =>
      var p: ObjectRef :| RelationTuple(n.obj, t, Concrete(p.namespace, p.id)) in w.tuples && Node(p, c) in Lfp(w);
      k :| Node(p, c) in Stage(w, k);
    case Union(cs) =>
      var c :| c in cs && SatIn(w, Lfp(w), n, c);
      k := SatAtSomeStage(w, n, c);
    case Intersection(cs) =>
      k := AllAtSomeStage(w, n, e, cs);
    case Exclusion(_, _) =>
  }

  lemma {:induction false} AllAtSomeStage(w: World, n: Node, e: UsersetExpr, cs: seq<UsersetExpr>) returns (k: nat)
    requires ExclusionFreeModel(w)
    requires forall c | c in cs :: c < e && ExclusionFree(c) && SatIn(w, Lfp(w), n, c)
    ensures forall c | c in cs :: SatIn(w, Stage(w, k), n, c)
    decreases e, 0, |cs|
  {
    if cs == [] {
      k := 0;
    } else {
      assert cs[0] in cs;
      var j := SatAtSomeStage(w, n, cs[0]);
      var i := AllAtSomeStage(w, n, e, cs[1..]);
      k := if i < j then j else i;
      StagesGrow(w, i, k);
      StagesGrow(w, j, k);
      forall c | c in cs ensures SatIn(w, Stage(w, k), n, c) {
        if c in cs[1..] {
          SatMonotone(w, Stage(w, i), Stage(w, k), n, c);
        } else {
          SatMonotone(w, Stage(w, j), Stage(w, k), n, c);
        }
      }
    }
  }

  lemma StageBelowLfp(w: World, k: nat)
    ensures Stage(w, k) <= Lfp(w)
  {
  }

  /** Applying the rules to the fixpoint gives the fixpoint back. */
  lemma {:induction false} LfpIsFixpoint(w: World)
    requires ExclusionFreeModel(w)
    ensures Apply(w, Lfp(w)) == Lfp(w)
  {
    forall n | n in Lfp(w) ensures n in Apply(w, Lfp(w)) {
      var k: nat :| n in Stage(w, k);
      StageBelowLfp(w, k - 1);
      SatMonotone(w, Stage(w, k - 1), Lfp(w), n, w.Rewrite(n).value);
    }
    forall n | n in Apply(w, Lfp(w)) ensures n in Lfp(w) {
      var k := SatAtSomeStage(w, n, w.Rewrite(n).value);
      assert n in Stage(w, k + 1);
    }
  }

  /** Any set the rules do not lead out of contains the fixpoint. */
  lemma {:induction false} LfpIsLeast(w: World, P: iset<Node>)
    requires ExclusionFreeModel(w) && Apply(w, P) <= P
    ensures Lfp(w) <= P
  {
    forall n | n in Lfp(w) ensures n in P {
      var k: nat :| n in Stage(w, k);
      StageBelowClosed(w, P, k);
    }
  }

  lemma {:induction false} StageBelowClosed(w: World, P: iset<Node>, k: nat)
    requires ExclusionFreeModel(w) && Apply(w, P) <= P
    ensures Stage(w, k) <= P
  {
    if k > 0 {
      StageBelowClosed(w, P, k - 1);
      forall n | n in Stage(w, k) ensures n in P {
        SatMonotone(w, Stage(w, k - 1), P, n, w.Rewrite(n).value);
        assert n in Apply(w, P);
      }
    }
  }
}
