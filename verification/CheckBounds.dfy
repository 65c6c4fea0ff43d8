/** What holds of every request on every model and store: its counters, its single evaluation per key, and when it throws. */
module CheckBounds {
  import opened Options
  import opened Tuples
  import opened Rewrites
  import opened Acyclic
  import opened CheckRuns

  ghost predicate CountersSane(m: Metrics) {
    m.maxDepth <= MAX_DEPTH + 1 && (m.hitMaxDepth <==> m.maxDepth == MAX_DEPTH + 1)
  }

  ghost predicate Distinct(keys: seq<string>) {
    forall i, j | 0 <= i < j < |keys| :: keys[i] != keys[j]
  }

  ghost predicate Logged(st: State) {
    Distinct(st.evaluated) && forall k | k in st.evaluated :: k in st.memo || k in st.visiting
  }

  ghost predicate Sound(st: State) {
    CountersSane(st.metrics) && Logged(st)
  }

  ghost predicate SoundRun(run: Run) {
    CountersSane(run.state.metrics) && Distinct(run.state.evaluated) && (run.verdict.Some? ==> Logged(run.state))
  }

  /** A set of questions that all resolve and ask only each other. */
  ghost predicate Total(w: World, R: iset<Node>) {
    forall n: Node | n in R :: w.Rewrite(n).Some? && forall m: Node :: DependsOn(w, n, m) ==> m in R
  }

  lemma {:induction false} NodeBounds(w: World, mode: Mode, R: iset<Node>, st: State, n: Node, depth: nat)
    requires Sound(st) && Total(w, R) && depth <= MAX_DEPTH + 1
    ensures SoundRun(CheckNode(w, mode, st, n, depth))
    ensures n in R ==> CheckNode(w, mode, st, n, depth).verdict.Some?
    decreases MAX_DEPTH + 1 - depth, 4
  {
    var key := Key(w, n);
    if depth <= MAX_DEPTH && key !in st.memo && key !in st.visiting && w.Rewrite(n).Some? {
      var e := w.Rewrite(n).value;
      var st1 := Enter(ReachedBy(st, depth), key);
      ExprBounds(w, mode, R, st1, n, e, depth);
    }
  }

  ghost predicate AsksWithin(w: World, R: iset<Node>, n: Node, e: UsersetExpr) {
    forall m: Node :: Asks(w, n, e, m) ==> m in R
  }

  lemma {:induction false} ExprBounds(w: World, mode: Mode, R: iset<Node>, st: State, n: Node, e: UsersetExpr, depth: nat)
    requires Sound(st) && Total(w, R) && depth <= MAX_DEPTH
    ensures SoundRun(Evaluate(w, mode, st, n, e, depth))
    ensures AsksWithin(w, R, n, e) ==> Evaluate(w, mode, st, n, e, depth).verdict.Some?
    decreases MAX_DEPTH + 1 - depth, 3, e
  {
    match e
    case Direct =>
      var stored := ListByObjectRelation(w.tuples, n.obj, n.relation);
      TuplesBounds(w, mode, R, CountRead(st), stored, depth);
      forall t | t in stored && t.subject.Userset? ensures Asks(w, n, e, UsersetNode(t.subject)) {
        assert t == RelationTuple(n.obj, n.relation, t.subject);
      }
    case Computed(r) =>
      NodeBounds(w, mode, R, st, Node(n.obj, r), depth + 1);
      assert Asks(w, n, e, Node(n.obj, r));
    case TupleToUserset(t, c) =>
      var parents := ListObjectsRelatedBy(w.tuples, n.obj, t);
      ParentsBounds(w, mode, R, CountParents(st), parents, c, depth);
      forall p | p in parents ensures Asks(w, n, e, Node(p, c)) {
        assert RelationTuple(n.obj, t, Concrete(p.namespace, p.id)) in w.tuples;
        assert p == ObjectRef(p.namespace, p.id);
      }
    case Union(cs) =>
      ChildrenBounds(w, mode, R, st, n, cs, true, depth);
    case Intersection(cs) =>
      ChildrenBounds(w, mode, R, st, n, cs, false, depth);
    case Exclusion(base, subtract) =>
      forall m: Node ensures Asks(w, n, base, m) || Asks(w, n, subtract, m) ==> Asks(w, n, e, m) {}
      ExprBounds(w, mode, R, st, n, base, depth);
      if Evaluate(w, mode, st, n, base, depth).verdict.Some? {
        ExprBounds(w, mode, R, Evaluate(w, mode, st, n, base, depth).state, n, subtract, depth);
      }
  }

  lemma {:induction false} ChildrenBounds(
    w: World, mode: Mode, R: iset<Node>, st: State, n: Node, cs: seq<UsersetExpr>, stop: bool, depth: nat)
    requires Sound(st) && Total(w, R) && depth <= MAX_DEPTH
    ensures SoundRun(EvaluateUntil(w, mode, st, n, cs, stop, depth))
    ensures (forall c | c in cs :: AsksWithin(w, R, n, c)) ==> EvaluateUntil(w, mode, st, n, cs, stop, depth).verdict.Some?
    decreases MAX_DEPTH + 1 - depth, 3, cs
  {
    if cs != [] {
      assert cs[0] in cs;
      ExprBounds(w, mode, R, st, n, cs[0], depth);
      if Evaluate(w, mode, st, n, cs[0], depth).verdict.Some? {
        ChildrenBounds(w, mode, R, Evaluate(w, mode, st, n, cs[0], depth).state, n, cs[1..], stop, depth);
      }
    }
  }

  lemma {:induction false} ParentsBounds(
    w: World, mode: Mode, R: iset<Node>, st: State, parents: seq<ObjectRef>, c: string, depth: nat)
    requires Sound(st) && Total(w, R) && depth <= MAX_DEPTH
    ensures SoundRun(AnyParent(w, mode, st, parents, c, depth))
    ensures (forall p | p in parents :: Node(p, c) in R) ==> AnyParent(w, mode, st, parents, c, depth).verdict.Some?
    decreases MAX_DEPTH + 1 - depth, 1, |parents|
  {
    if parents != [] {
      assert parents[0] in parents;
      var first := CheckNode(w, mode, st, Node(parents[0], c), depth + 1);
      NodeBounds(w, mode, R, st, Node(parents[0], c), depth + 1);
      if first.verdict.Some? {
        ParentsBounds(w, mode, R, first.state, parents[1..], c, depth);
      }
    }
  }

  lemma {:induction false} TuplesBounds(w: World, mode: Mode, R: iset<Node>, st: State, stored: seq<RelationTuple>, depth: nat)
    requires Sound(st) && Total(w, R) && depth <= MAX_DEPTH
    ensures SoundRun(AnyTuple(w, mode, st, stored, depth))
    ensures (forall t | t in stored && t.subject.Userset? :: UsersetNode(t.subject) in R) ==>
              AnyTuple(w, mode, st, stored, depth).verdict.Some?
    decreases MAX_DEPTH + 1 - depth, 1, |stored|
  {
    if stored != [] {
      var s := stored[0].subject;
      assert stored[0] in stored;
      if s.Userset? {
        var first := CheckNode(w, mode, st, UsersetNode(s), depth + 1);
        NodeBounds(w, mode, R, st, UsersetNode(s), depth + 1);
        if first.verdict == Some(false) {
          TuplesBounds(w, mode, R, first.state, stored[1..], depth);
        }
      } else {
        TuplesBounds(w, mode, R, st, stored[1..], depth);
      }
    }
  }

  /**
   * On every model and store, whatever the answer: no key's rewrite is evaluated twice, the depth never passes
   * 33, and the cut is reported exactly when 33 was reached.
   */
  lemma {:induction false} CheckEvaluatesOnce(w: World, mode: Mode, n: Node)
    ensures Distinct(Request(w, mode, n).state.evaluated)
    ensures var m := Request(w, mode, n).state.metrics; m.maxDepth <= 33 && (m.hitMaxDepth <==> m.maxDepth == 33)
    ensures Request(w, mode, n).state.visiting == {}
  {
    NodeBounds(w, mode, iset{}, INITIAL, n, 0);
  }

  /** One parent lookup is counted for a walk, also one that finds nobody. */
  lemma {:induction false} WalkIsCounted(w: World, mode: Mode, n: Node, t: string, c: string)
    requires w.Rewrite(n) == Some(TupleToUserset(t, c)) && ListObjectsRelatedBy(w.tuples, n.obj, t) == []
    ensures Request(w, mode, n).verdict == Some(false) && Request(w, mode, n).state.metrics == Metrics(0, 1, 0, 0, false)
  {
    var st := Enter(ReachedBy(INITIAL, 0), Key(w, n));
    assert Evaluate(w, mode, st, n, TupleToUserset(t, c), 0) == Run(CountParents(st), Some(false));
  }

  /** Check throws only if some question it can reach names an unknown namespace, relation or permission. */
  lemma {:induction false} CheckAnswersIfAllResolve(w: World, mode: Mode, R: iset<Node>, n: Node)
    requires Total(w, R) && n in R
    ensures Request(w, mode, n).verdict.Some?
  {
    NodeBounds(w, mode, R, INITIAL, n, 0);
  }
}
