/** Which questions a question asks, and what acyclic data means for the stages of module `Rewrites`. */
module Acyclic {
  import opened Tuples
  import opened Rewrites

  /** Evaluating `e` on `n` may ask `m`. */
  ghost predicate Asks(w: World, n: Node, e: UsersetExpr, m: Node)
    decreases e
  {
    match e
    case Direct => exists s: SubjectRef ::
      s.Userset? && RelationTuple(n.obj, n.relation, s) in w.tuples && m == UsersetNode(s)
    case Computed(r) => m == Node(n.obj, r)
    case TupleToUserset(t, c) =>
      m.relation == c && RelationTuple(n.obj, t, Concrete(m.obj.namespace, m.obj.id)) in w.tuples
    case Union(cs) => exists c | c in cs :: Asks(w, n, c, m)
    case Intersection(cs) => exists c | c in cs :: Asks(w, n, c, m)
    case Exclusion(base, subtract) => Asks(w, n, base, m) || Asks(w, n, subtract, m)
  }

  ghost predicate DependsOn(w: World, n: Node, m: Node) {
    w.Rewrite(n).Some? && Asks(w, n, w.Rewrite(n).value, m)
  }

  /** Every chain of dependencies from `n` has at most `k` edges; so none of them is a cycle. */
  ghost predicate PathsWithin(w: World, n: Node, k: nat)
    decreases k
  {
    forall m: Node :: DependsOn(w, n, m) ==> k > 0 && PathsWithin(w, m, k - 1)
  }

  lemma {:induction false} PathsWithinMore(w: World, n: Node, j: nat, k: nat)
    requires j <= k && PathsWithin(w, n, j)
    ensures PathsWithin(w, n, k)
    decreases j
  {
    forall m: Node | DependsOn(w, n, m) ensures k > 0 && PathsWithin(w, m, k - 1) {
      PathsWithinMore(w, m, j - 1, k - 1);
    }
  }

  /** The length of the longest chain from `n`. */
  ghost function Height(w: World, n: Node, k: nat): (h: nat)
    requires PathsWithin(w, n, k)
    ensures h <= k && PathsWithin(w, n, h) && (h > 0 ==> !PathsWithin(w, n, h - 1))
  {
    if k > 0 && PathsWithin(w, n, k - 1) then Height(w, n, k - 1) else k
  }

  /** Interpretations that agree on what is asked agree on the answer. */
  lemma {:induction false} SatAgrees(w: World, I: iset<Node>, J: iset<Node>, n: Node, e: UsersetExpr)
    requires forall m: Node | Asks(w, n, e, m) :: m in I <==> m in J
    ensures SatIn(w, I, n, e) <==> SatIn(w, J, n, e)
    decreases e
  {
    match e
    case Direct =>
      forall s: SubjectRef ensures DirectIn(w, I, n, s) <==> DirectIn(w, J, n, s) {
        if s.Userset? && RelationTuple(n.obj, n.relation, s) in w.tuples {
          assert Asks(w, n, e, UsersetNode(s));
        }
      }
    case Computed(r) => assert Asks(w, n, e, Node(n.obj, r));
    case TupleToUserset(t, c) =>
      forall p: ObjectRef | RelationTuple(n.obj, t, Concrete(p.namespace, p.id)) in w.tuples
        ensures Node(p, c) in I <==> Node(p, c) in J
      {
        assert Asks(w, n, e, Node(p, c));
      }
    case Union(cs) =>
      forall c | c in cs ensures SatIn(w, I, n, c) <==> SatIn(w, J, n, c) {
        SatAgrees(w, I, J, n, c);
      }
    case Intersection(cs) =>
      forall c | c in cs ensures SatIn(w, I, n, c) <==> SatIn(w, J, n, c) {
        SatAgrees(w, I, J, n, c);
      }
    case Exclusion(base, subtract) =>
      SatAgrees(w, I, J, n, base);
      SatAgrees(w, I, J, n, subtract);
  }

  /** Below its height a question is settled: all later stages answer it alike, exclusions included. */
  lemma {:induction false} StagesSettle(w: World, n: Node, k: nat, i: nat, j: nat)
    requires PathsWithin(w, n, k) && k < i && k < j
    ensures n in Stage(w, i) <==> n in Stage(w, j)
    decreases k
  {
    if w.Rewrite(n).Some? {
      forall m: Node | Asks(w, n, w.Rewrite(n).value, m)
        ensures m in Stage(w, i - 1) <==> m in Stage(w, j - 1)
      {
        assert DependsOn(w, n, m);
        StagesSettle(w, m, k - 1, i - 1, j - 1);
      }
      SatAgrees(w, Stage(w, i - 1), Stage(w, j - 1), n, w.Rewrite(n).value);
    }
  }

  /** The plain recursive denotation: `n`'s rewrite, over the denotations of the questions it asks. */
  lemma {:induction false} DenotationUnfolds(w: World, n: Node, k: nat)
    requires PathsWithin(w, n, k)
    ensures n in Stage(w, k + 1) <==>
            w.Rewrite(n).Some? && SatIn(w, Stage(w, k + 1), n, w.Rewrite(n).value)
  {
    StagesSettle(w, n, k, k + 1, k + 2);
    assert Stage(w, k + 2) == Apply(w, Stage(w, k + 1));
  }
}
