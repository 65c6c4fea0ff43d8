/** All six expression forms over acyclic data: the verdict is the plain recursive one. */
module CheckAcyclic {
  import opened Tuples
  import opened Rewrites
  import opened Acyclic
  import opened CheckRuns
  import opened CheckSoundness

  /** The denotation of every question whose dependency chains have at most `MAX_DEPTH` edges. */
  ghost function Meaning(w: World): iset<Node> {
    Stage(w, MAX_DEPTH + 1)
  }

  ghost predicate MemoRight(w: World, st: State) {
    forall n: Node :: Keyable(n.obj) && Key(w, n) in st.memo ==> (st.memo[Key(w, n)] <==> n in Meaning(w))
  }

  /** Everything in progress has a longer chain ahead of it than `k`. */
  ghost predicate VisitingAbove(w: World, st: State, k: nat) {
    forall n: Node :: Keyable(n.obj) && Key(w, n) in st.visiting ==> !PathsWithin(w, n, k)
  }

  ghost predicate Asked(w: World, n: Node, e: UsersetExpr, k: nat) {
    forall m: Node :: Asks(w, n, e, m) ==> k > 0 && PathsWithin(w, m, k - 1)
  }

  /** A run that respects the denotation: right memo, no cut. */
  ghost predicate Faithful(w: World, st: State, run: Run) {
    MemoRight(w, run.state) && run.state.metrics.hitMaxDepth == st.metrics.hitMaxDepth
  }

  /** What the loops below need: one more step down is affordable and its guard is clear. */
  ghost predicate Ready(w: World, st: State, k: nat, depth: nat) {
    KeyableWorld(w) && MemoRight(w, st) && depth + k <= MAX_DEPTH && (k > 0 ==> VisitingAbove(w, st, k - 1))
  }

  lemma {:induction false} MeaningUnfolds(w: World, n: Node, k: nat)
    requires k <= MAX_DEPTH && PathsWithin(w, n, k)
    ensures n in Meaning(w) <==> w.Rewrite(n).Some? && SatIn(w, Meaning(w), n, w.Rewrite(n).value)
  {
    PathsWithinMore(w, n, k, MAX_DEPTH);
    DenotationUnfolds(w, n, MAX_DEPTH);
  }

  lemma EnteredAbove(w: World, st: State, n: Node, h: nat, k: nat)
    requires VisitingAbove(w, st, k) && 0 < h <= k && !PathsWithin(w, n, h - 1) && Keyable(n.obj)
    ensures VisitingAbove(w, Enter(st, Key(w, n)), h - 1)
  {
    forall m: Node | Keyable(m.obj) && Key(w, m) in Enter(st, Key(w, n)).visiting ensures !PathsWithin(w, m, h - 1) {
      if Key(w, m) == Key(w, n) {
        MemoKeyInjective(m.obj, m.relation, n.obj, n.relation, w.subject);
      } else if PathsWithin(w, m, h - 1) {
        PathsWithinMore(w, m, h - 1, k);
      }
    }
  }

  lemma RememberedRight(w: World, run: Run, n: Node)
    requires MemoRight(w, run.state) && Keyable(n.obj)
    requires run.verdict.Some? ==> (run.verdict.value <==> n in Meaning(w))
    ensures MemoRight(w, Remember(run, Key(w, n)).state)
  {
    var end := Remember(run, Key(w, n)).state;
    forall m: Node | Keyable(m.obj) && Key(w, m) in end.memo
      ensures end.memo[Key(w, m)] <==> m in Meaning(w)
    {
      if Key(w, m) == Key(w, n) {
        MemoKeyInjective(m.obj, m.relation, n.obj, n.relation, w.subject);
      }
    }
  }

  lemma RewriteAsked(w: World, n: Node, h: nat)
    requires PathsWithin(w, n, h) && w.Rewrite(n).Some?
    ensures Asked(w, n, w.Rewrite(n).value, h)
  {
    forall m: Node | Asks(w, n, w.Rewrite(n).value, m) ensures h > 0 && PathsWithin(w, m, h - 1) {
      assert DependsOn(w, n, m);
    }
  }

  lemma {:induction false} NodeFaithful(w: World, mode: Mode, st: State, n: Node, k: nat, depth: nat)
    requires KeyableWorld(w) && MemoRight(w, st) && VisitingAbove(w, st, k)
    requires PathsWithin(w, n, k) && depth + k <= MAX_DEPTH && Keyable(n.obj)
    ensures Faithful(w, st, CheckNode(w, mode, st, n, depth))
    ensures var v := CheckNode(w, mode, st, n, depth).verdict; v.Some? ==> (v.value <==> n in Meaning(w))
    decreases MAX_DEPTH + 1 - depth, 4
  {
    var key := Key(w, n);
    if key !in st.memo && w.Rewrite(n).Some? {
      var e := w.Rewrite(n).value;
      var h := Height(w, n, k);
      var st1 := Enter(ReachedBy(st, depth), key);
      RewriteAsked(w, n, h);
      if h > 0 {
        EnteredAbove(w, ReachedBy(st, depth), n, h, k);
      }
      ExprFaithful(w, mode, st1, n, e, h, depth);
      MeaningUnfolds(w, n, k);
      var run := Evaluate(w, mode, st1, n, e, depth);
      RememberedRight(w, Run(Leave(run.state, key), run.verdict), n);
    }
  }

  lemma {:induction false} ExprFaithful(w: World, mode: Mode, st: State, n: Node, e: UsersetExpr, k: nat, depth: nat)
    requires Ready(w, st, k, depth) && Asked(w, n, e, k) && Keyable(n.obj)
    ensures Faithful(w, st, Evaluate(w, mode, st, n, e, depth))
    ensures var v := Evaluate(w, mode, st, n, e, depth).verdict; v.Some? ==> (v.value <==> SatIn(w, Meaning(w), n, e))
    decreases MAX_DEPTH + 1 - depth, 3, e
  {
    match e
    case Direct => DirectFaithful(w, mode, st, n, k, depth);
    case Computed(r) =>
      assert Asks(w, n, Computed(r), Node(n.obj, r));
      NodeFaithful(w, mode, st, Node(n.obj, r), k - 1, depth + 1);
    case TupleToUserset(t, c) =>
      var parents := ListObjectsRelatedBy(w.tuples, n.obj, t);
      ParentsAsked(w, n, t, c, parents, k);
      ParentsFaithful(w, mode, CountParents(st), parents, c, k, depth);
    case Union(cs) =>
      ChildrenAsked(w, n, e, cs, k);
      ChildrenFaithful(w, mode, st, n, cs, true, k, depth);
    case Intersection(cs) =>
      ChildrenAsked(w, n, e, cs, k);
      ChildrenFaithful(w, mode, st, n, cs, false, k, depth);
    case Exclusion(base, subtract) =>
      OperandsAsked(w, n, base, subtract, k);
      ExprFaithful(w, mode, st, n, base, k, depth);
      ExprFaithful(w, mode, Evaluate(w, mode, st, n, base, depth).state, n, subtract, k, depth);
  }

  lemma {:induction false} DirectFaithful(w: World, mode: Mode, st: State, n: Node, k: nat, depth: nat)
    requires Ready(w, st, k, depth) && Asked(w, n, Direct, k) && Keyable(n.obj)
    ensures Faithful(w, st, Evaluate(w, mode, st, n, Direct, depth))
    ensures var v := Evaluate(w, mode, st, n, Direct, depth).verdict;
            v.Some? ==> (v.value <==> SatIn(w, Meaning(w), n, Direct))
    decreases MAX_DEPTH + 1 - depth, 2
  {
    var stored := ListByObjectRelation(w.tuples, n.obj, n.relation);
    var st1 := CountRead(st);
    UsersetsAsked(w, n, stored, k);
    TuplesFaithful(w, mode, st1, stored, k, depth);
    DirectMeansStored(w, n, stored);
  }

  lemma UsersetsAsked(w: World, n: Node, stored: seq<RelationTuple>, k: nat)
    requires KeyableWorld(w) && Asked(w, n, Direct, k)
    requires stored == ListByObjectRelation(w.tuples, n.obj, n.relation)
    ensures forall t | t in stored && t.subject.Userset? :: k > 0 && PathsWithin(w, UsersetNode(t.subject), k - 1)
  {
    forall t | t in stored && t.subject.Userset?
      ensures k > 0 && PathsWithin(w, UsersetNode(t.subject), k - 1)
    {
      assert t == RelationTuple(n.obj, n.relation, t.subject);
      assert Asks(w, n, Direct, UsersetNode(t.subject));
    }
  }

  lemma ParentsAsked(w: World, n: Node, t: string, c: string, parents: seq<ObjectRef>, k: nat)
    requires KeyableWorld(w) && Asked(w, n, TupleToUserset(t, c), k)
    requires parents == ListObjectsRelatedBy(w.tuples, n.obj, t)
    ensures forall p | p in parents :: Keyable(p) && k > 0 && PathsWithin(w, Node(p, c), k - 1)
  {
    forall p | p in parents ensures Keyable(p) && k > 0 && PathsWithin(w, Node(p, c), k - 1) {
      assert RelationTuple(n.obj, t, Concrete(p.namespace, p.id)) in w.tuples;
      assert p == ObjectRef(p.namespace, p.id);
      assert Asks(w, n, TupleToUserset(t, c), Node(p, c));
    }
  }

  lemma ChildrenAsked(w: World, n: Node, e: UsersetExpr, cs: seq<UsersetExpr>, k: nat)
    requires (e == Union(cs) || e == Intersection(cs)) && Asked(w, n, e, k)
    ensures forall c | c in cs :: Asked(w, n, c, k)
  {
    forall c, m: Node | c in cs && Asks(w, n, c, m) ensures k > 0 && PathsWithin(w, m, k - 1) {
      assert Asks(w, n, e, m);
    }
  }

  lemma OperandsAsked(w: World, n: Node, base: UsersetExpr, subtract: UsersetExpr, k: nat)
    requires Asked(w, n, Exclusion(base, subtract), k)
    ensures Asked(w, n, base, k) && Asked(w, n, subtract, k)
  {
    forall m: Node | Asks(w, n, base, m) || Asks(w, n, subtract, m) ensures k > 0 && PathsWithin(w, m, k - 1) {
      assert Asks(w, n, Exclusion(base, subtract), m);
    }
  }

  /** What the stored usersets and outright grants say is what a direct rewrite means. */
  lemma DirectMeansStored(w: World, n: Node, stored: seq<RelationTuple>)
    requires stored == ListByObjectRelation(w.tuples, n.obj, n.relation)
    ensures SatIn(w, Meaning(w), n, Direct) <==>
            exists t | t in stored :: GrantsOutright(t.subject, w.subject) ||
                                      (t.subject.Userset? && UsersetNode(t.subject) in Meaning(w))
  {
    forall t | t in stored ensures t == RelationTuple(n.obj, n.relation, t.subject) && t in w.tuples {}
    if s :| DirectIn(w, Meaning(w), n, s) {
      assert RelationTuple(n.obj, n.relation, s) in stored;
    }
    if t :| t in stored && (GrantsOutright(t.subject, w.subject) ||
                            (t.subject.Userset? && UsersetNode(t.subject) in Meaning(w))) {
      assert DirectIn(w, Meaning(w), n, t.subject);
    }
  }

  lemma {:induction false} ChildrenFaithful(
    w: World, mode: Mode, st: State, n: Node, cs: seq<UsersetExpr>, stop: bool, k: nat, depth: nat)
    requires Ready(w, st, k, depth) && Keyable(n.obj)
    requires forall c | c in cs :: Asked(w, n, c, k)
    ensures Faithful(w, st, EvaluateUntil(w, mode, st, n, cs, stop, depth))
    ensures var v := EvaluateUntil(w, mode, st, n, cs, stop, depth).verdict;
            v.Some? ==> (v.value == stop <==> exists c | c in cs :: SatIn(w, Meaning(w), n, c) == stop)
    decreases MAX_DEPTH + 1 - depth, 3, cs
  {
    if cs != [] {
      assert cs[0] in cs;
      ExprFaithful(w, mode, st, n, cs[0], k, depth);
      ChildrenFaithful(w, mode, Evaluate(w, mode, st, n, cs[0], depth).state, n, cs[1..], stop, k, depth);
      assert forall c :: c in cs <==> c == cs[0] || c in cs[1..];
    }
  }

  ghost predicate SomeMeant(w: World, parents: seq<ObjectRef>, c: string) {
    exists p | p in parents :: Node(p, c) in Meaning(w)
  }

  lemma SomeMeantSplits(w: World, parents: seq<ObjectRef>, c: string)
    requires parents != []
    ensures SomeMeant(w, parents, c) <==> Node(parents[0], c) in Meaning(w) || SomeMeant(w, parents[1..], c)
  {
    assert forall p :: p in parents <==> p == parents[0] || p in parents[1..];
  }

  lemma {:induction false} ParentsFaithful(
    w: World, mode: Mode, st: State, parents: seq<ObjectRef>, c: string, k: nat, depth: nat)
    requires Ready(w, st, k, depth)
    requires forall p | p in parents :: Keyable(p) && k > 0 && PathsWithin(w, Node(p, c), k - 1)
    ensures Faithful(w, st, AnyParent(w, mode, st, parents, c, depth))
    ensures var v := AnyParent(w, mode, st, parents, c, depth).verdict;
            v.Some? ==> (v.value <==> SomeMeant(w, parents, c))
    decreases MAX_DEPTH + 1 - depth, 1, |parents|
  {
    if parents != [] {
      assert parents[0] in parents;
      var first := CheckNode(w, mode, st, Node(parents[0], c), depth + 1);
      NodeFaithful(w, mode, st, Node(parents[0], c), k - 1, depth + 1);
      ParentsFaithful(w, mode, first.state, parents[1..], c, k, depth);
      SomeMeantSplits(w, parents, c);
    }
  }

  lemma {:induction false} TuplesFaithful(w: World, mode: Mode, st: State, stored: seq<RelationTuple>, k: nat, depth: nat)
    requires Ready(w, st, k, depth)
    requires forall t | t in stored :: t in w.tuples
    requires forall t | t in stored && t.subject.Userset? :: k > 0 && PathsWithin(w, UsersetNode(t.subject), k - 1)
    ensures Faithful(w, st, AnyTuple(w, mode, st, stored, depth))
    ensures var v := AnyTuple(w, mode, st, stored, depth).verdict;
            v.Some? ==> (v.value <==> exists t | t in stored :: GrantsOutright(t.subject, w.subject) ||
                                        (t.subject.Userset? && UsersetNode(t.subject) in Meaning(w)))
    decreases MAX_DEPTH + 1 - depth, 1, |stored|
  {
    if stored != [] {
      var s := stored[0].subject;
      assert stored[0] in stored;
      if s.Userset? {
        NodeFaithful(w, mode, st, UsersetNode(s), k - 1, depth + 1);
        TuplesFaithful(w, mode, CheckNode(w, mode, st, UsersetNode(s), depth + 1).state, stored[1..], k, depth);
      } else {
        TuplesFaithful(w, mode, st, stored[1..], k, depth);
      }
      assert forall t :: t in stored <==> t == stored[0] || t in stored[1..];
    }
  }

  /**
   * For every model, intersection and exclusion included: if every dependency chain from the question has at
   * most 32 edges, check never feels the cap, and the answer it returns is the plain recursive denotation.
   */
  lemma {:induction false} CheckIsDenotation(w: World, mode: Mode, n: Node)
    requires KeyableWorld(w) && Keyable(n.obj) && PathsWithin(w, n, 32)
    ensures !Request(w, mode, n).state.metrics.hitMaxDepth
    ensures Request(w, mode, n).verdict.Some? ==> (Request(w, mode, n).verdict.value <==> n in Stage(w, 33))
    ensures n in Stage(w, 33) <==> w.Rewrite(n).Some? && SatIn(w, Stage(w, 33), n, w.Rewrite(n).value)
  {
    NodeFaithful(w, mode, INITIAL, n, 32, 0);
    DenotationUnfolds(w, n, 32);
  }
}
