/** What a `true` from check is worth, on any data: cycles, depth cuts, memo hits and short-circuits included. */
module CheckSoundness {
  import opened Options
  import opened Tuples
  import opened Rewrites
  import opened CheckRuns

  // One induction over the run covers both results: a `true` answer is in every set that is closed under the rules read
  // without their subtractions.

  /** Stored subjects that become questions can be used as memo keys, as every subject that passed its schema can. */
  ghost predicate KeyableWorld(w: World) {
    forall t | t in w.tuples && !t.subject.Wildcard? :: Keyable(ObjectRef(t.subject.namespace, t.subject.id))
  }

  /** In particular a store of schema-valid tuples. */
  lemma ValidStoreIsKeyable(w: World)
    requires forall t | t in w.tuples :: ValidTuple(t)
    ensures KeyableWorld(w)
  {
    forall t | t in w.tuples && !t.subject.Wildcard?
      ensures Keyable(ObjectRef(t.subject.namespace, t.subject.id))
    {
      ValidIsKeyable(ObjectRef(t.subject.namespace, t.subject.id));
    }
  }

  /** `SatIn` with every subtraction ignored: what an expression may grant at most. */
  ghost predicate MaySat(w: World, U: iset<Node>, n: Node, e: UsersetExpr)
    decreases e
  {
    match e
    case Direct | Computed(_) | TupleToUserset(_, _) => SatIn(w, U, n, e)
    case Union(cs) => exists c | c in cs :: MaySat(w, U, n, c)
    case Intersection(cs) => forall c | c in cs :: MaySat(w, U, n, c)
    case Exclusion(base, _) => MaySat(w, U, n, base)
  }

  ghost predicate ClosedUpwards(w: World, U: iset<Node>) {
    forall n: Node :: w.Rewrite(n).Some? && MaySat(w, U, n, w.Rewrite(n).value) ==> n in U
  }

  ghost predicate TruesIn(w: World, st: State, U: iset<Node>) {
    forall n: Node :: Keyable(n.obj) && Key(w, n) in st.memo && st.memo[Key(w, n)] ==> n in U
  }

  lemma {:induction false} NodeTrueIsIn(w: World, mode: Mode, U: iset<Node>, st: State, n: Node, depth: Level)
    requires KeyableWorld(w) && ClosedUpwards(w, U) && TruesIn(w, st, U)
    requires Keyable(n.obj)
    ensures TruesIn(w, CheckNode(w, mode, st, n, depth).state, U)
    ensures CheckNode(w, mode, st, n, depth).verdict == Some(true) ==> n in U
    decreases MAX_DEPTH + 1 - depth, 4
  {
    var key := Key(w, n);
    if depth <= MAX_DEPTH && key !in st.memo && key !in st.visiting && w.Rewrite(n).Some? {
      var st1 := Enter(ReachedBy(st, depth), key);
      ExprTrueMaySat(w, mode, U, st1, n, w.Rewrite(n).value, depth);
      var run := CheckNode(w, mode, st, n, depth);
      forall m: Node | Keyable(m.obj) && Key(w, m) in run.state.memo && run.state.memo[Key(w, m)]
        ensures m in U
      {
        if Key(w, m) == key {
          MemoKeyInjective(m.obj, m.relation, n.obj, n.relation, w.subject);
        }
      }
    }
  }

  lemma {:induction false} ExprTrueMaySat(w: World, mode: Mode, U: iset<Node>, st: State, n: Node, e: UsersetExpr, depth: Depth)
    requires KeyableWorld(w) && ClosedUpwards(w, U) && TruesIn(w, st, U)
    requires Keyable(n.obj)
    ensures TruesIn(w, Evaluate(w, mode, st, n, e, depth).state, U)
    ensures Evaluate(w, mode, st, n, e, depth).verdict == Some(true) ==> MaySat(w, U, n, e)
    decreases MAX_DEPTH + 1 - depth, 3, e
  {
    match e
    case Direct =>
      var stored := ListByObjectRelation(w.tuples, n.obj, n.relation);
      var st1 := CountRead(st);
      TupleTrueIsDirect(w, mode, U, st1, n, stored, depth);
    case Computed(r) => NodeTrueIsIn(w, mode, U, st, Node(n.obj, r), depth + 1);
    case TupleToUserset(t, c) =>
      var parents := ListObjectsRelatedBy(w.tuples, n.obj, t);
      var st1 := CountParents(st);
      ParentTrueIsIn(w, mode, U, st1, n, t, parents, c, depth);
    case Union(cs) => ChildrenTrueMaySat(w, mode, U, st, n, cs, true, depth);
    case Intersection(cs) => ChildrenTrueMaySat(w, mode, U, st, n, cs, false, depth);
    case Exclusion(base, subtract) =>
      ExprTrueMaySat(w, mode, U, st, n, base, depth);
      ExprTrueMaySat(w, mode, U, Evaluate(w, mode, st, n, base, depth).state, n, subtract, depth);
  }

  lemma {:induction false} ChildrenTrueMaySat(
    w: World, mode: Mode, U: iset<Node>, st: State, n: Node, cs: seq<UsersetExpr>, stop: bool, depth: Depth)
    requires KeyableWorld(w) && ClosedUpwards(w, U) && TruesIn(w, st, U)
    requires Keyable(n.obj)
    ensures TruesIn(w, EvaluateUntil(w, mode, st, n, cs, stop, depth).state, U)
    ensures EvaluateUntil(w, mode, st, n, cs, stop, depth).verdict == Some(true) ==>
              if stop then exists c | c in cs :: MaySat(w, U, n, c) else forall c | c in cs :: MaySat(w, U, n, c)
    decreases MAX_DEPTH + 1 - depth, 3, cs
  {
    if cs != [] {
      ExprTrueMaySat(w, mode, U, st, n, cs[0], depth);
      ChildrenTrueMaySat(w, mode, U, Evaluate(w, mode, st, n, cs[0], depth).state, n, cs[1..], stop, depth);
      assert forall c :: c in cs <==> c == cs[0] || c in cs[1..];
    }
  }

  lemma {:induction false} ParentTrueIsIn(
    w: World, mode: Mode, U: iset<Node>, st: State, n: Node, t: string, parents: seq<ObjectRef>, c: string, depth: Depth)
    requires KeyableWorld(w) && ClosedUpwards(w, U) && TruesIn(w, st, U)
    requires Keyable(n.obj)
    requires forall p | p in parents :: RelationTuple(n.obj, t, Concrete(p.namespace, p.id)) in w.tuples
    ensures TruesIn(w, AnyParent(w, mode, st, parents, c, depth).state, U)
    ensures AnyParent(w, mode, st, parents, c, depth).verdict == Some(true) ==> MaySat(w, U, n, TupleToUserset(t, c))
    decreases MAX_DEPTH + 1 - depth, 1, |parents|
  {
    if parents != [] {
      var p := parents[0];
      assert RelationTuple(n.obj, t, Concrete(p.namespace, p.id)) in w.tuples;
      assert p == ObjectRef(p.namespace, p.id);
      NodeTrueIsIn(w, mode, U, st, Node(p, c), depth + 1);
      ParentTrueIsIn(w, mode, U, CheckNode(w, mode, st, Node(p, c), depth + 1).state, n, t, parents[1..], c, depth);
    }
  }

  lemma {:induction false} TupleTrueIsDirect(
    w: World, mode: Mode, U: iset<Node>, st: State, n: Node, stored: seq<RelationTuple>, depth: Depth)
    requires KeyableWorld(w) && ClosedUpwards(w, U) && TruesIn(w, st, U)
    requires Keyable(n.obj)
    requires forall t | t in stored :: t in w.tuples && t.obj == n.obj && t.relation == n.relation
    ensures TruesIn(w, AnyTuple(w, mode, st, stored, depth).state, U)
    ensures AnyTuple(w, mode, st, stored, depth).verdict == Some(true) ==> MaySat(w, U, n, Direct)
    decreases MAX_DEPTH + 1 - depth, 1, |stored|
  {
    if stored != [] {
      var t := stored[0];
      var s := t.subject;
      assert t in stored && t == RelationTuple(n.obj, n.relation, s);
      if GrantsOutright(s, w.subject) {
        assert DirectIn(w, U, n, s);
      } else if s.Userset? {
        NodeTrueIsIn(w, mode, U, st, UsersetNode(s), depth + 1);
        if CheckNode(w, mode, st, UsersetNode(s), depth + 1).verdict == Some(true) {
          assert DirectIn(w, U, n, s);
        }
        TupleTrueIsDirect(w, mode, U, CheckNode(w, mode, st, UsersetNode(s), depth + 1).state, n, stored[1..], depth);
      } else {
        TupleTrueIsDirect(w, mode, U, st, n, stored[1..], depth);
      }
    }
  }

  // ----- first use: the least fixpoint -----

  lemma {:induction false} MaySatIsSat(w: World, U: iset<Node>, n: Node, e: UsersetExpr)
    requires ExclusionFree(e)
    ensures MaySat(w, U, n, e) <==> SatIn(w, U, n, e)
    decreases e
  {
    match e
    case Direct | Computed(_) | TupleToUserset(_, _) =>
    case Union(cs) =>
      forall c | c in cs ensures MaySat(w, U, n, c) <==> SatIn(w, U, n, c) {
        MaySatIsSat(w, U, n, c);
      }
    case Intersection(cs) =>
      forall c | c in cs ensures MaySat(w, U, n, c) <==> SatIn(w, U, n, c) {
        MaySatIsSat(w, U, n, c);
      }
    case Exclusion(_, _) =>
  }

  /** Without exclusion, check never grants more than the rules derive. */
  lemma {:induction false} CheckTrueIsDerivable(w: World, mode: Mode, n: Node)
    requires KeyableWorld(w) && ExclusionFreeModel(w) && Keyable(n.obj)
    requires Request(w, mode, n).verdict == Some(true)
    ensures n in Lfp(w)
  {
    LfpIsFixpoint(w);
    forall m: Node | w.Rewrite(m).Some? && MaySat(w, Lfp(w), m, w.Rewrite(m).value)
      ensures m in Lfp(w)
    {
      MaySatIsSat(w, Lfp(w), m, w.Rewrite(m).value);
      assert m in Apply(w, Lfp(w));
    }
    NodeTrueIsIn(w, mode, Lfp(w), INITIAL, n, 0);
  }

  // ----- second use: every grant rests on a stored tuple -----

  predicate NoEmptyIntersection(e: UsersetExpr) {
    match e
    case Direct | Computed(_) | TupleToUserset(_, _) => true
    case Union(cs) => forall c | c in cs :: NoEmptyIntersection(c)
    case Intersection(cs) => cs != [] && forall c | c in cs :: NoEmptyIntersection(c)
    case Exclusion(base, subtract) => NoEmptyIntersection(base) && NoEmptyIntersection(subtract)
  }

  /** Some stored tuple names the subject, or the wildcard of its namespace. */
  ghost predicate GrantStored(w: World) {
    w.subject.Concrete? && exists t | t in w.tuples :: Names(t.subject, w.subject)
  }

  /** The stored subject is the queried one itself or the wildcard of its namespace. */
  predicate Names(stored: SubjectRef, subject: SubjectRef) {
    stored == subject || stored == Wildcard(subject.namespace)
  }

  lemma {:induction false} NothingWithoutGrant(w: World, n: Node, e: UsersetExpr)
    requires NoEmptyIntersection(e) && MaySat(w, iset{}, n, e)
    ensures GrantStored(w)
    decreases e
  {
    match e
    case Direct =>
      var s :| DirectIn(w, iset{}, n, s);
      assert RelationTuple(n.obj, n.relation, s) in w.tuples;
    case Computed(_) | TupleToUserset(_, _) =>
    case Union(cs) =>
      var c :| c in cs && MaySat(w, iset{}, n, c);
      NothingWithoutGrant(w, n, c);
    case Intersection(cs) =>
      assert cs[0] in cs;
      NothingWithoutGrant(w, n, cs[0]);
    case Exclusion(base, _) => NothingWithoutGrant(w, n, base);
  }

  /**
   * For every model whose intersections have children (all validated ones), exclusion included: a grant
   * needs a stored tuple for that concrete subject or for the wildcard of its namespace.
   */
  lemma {:induction false} CheckTrueNeedsStoredGrant(w: World, mode: Mode, n: Node)
    requires KeyableWorld(w) && Keyable(n.obj)
    requires forall m: Node :: w.Rewrite(m).Some? ==> NoEmptyIntersection(w.Rewrite(m).value)
    requires Request(w, mode, n).verdict == Some(true)
    ensures w.subject.Concrete? && exists t | t in w.tuples :: t.subject in {w.subject, Wildcard(w.subject.namespace)}
  {
    if !GrantStored(w) {
      forall m: Node | w.Rewrite(m).Some? ensures !MaySat(w, iset{}, m, w.Rewrite(m).value) {
        if MaySat(w, iset{}, m, w.Rewrite(m).value) {
          NothingWithoutGrant(w, m, w.Rewrite(m).value);
        }
      }
      NodeTrueIsIn(w, mode, iset{}, INITIAL, n, 0);
    }
  }

  lemma {:induction false} NamedIsFound(w: World, mode: Mode, st: State, stored: seq<RelationTuple>, depth: Depth)
    requires w.subject.Concrete? && exists t | t in stored :: Names(t.subject, w.subject)
    ensures var v := AnyTuple(w, mode, st, stored, depth).verdict; v.Some? ==> v.value
    decreases |stored|
  {
    var s := stored[0].subject;
    if !GrantsOutright(s, w.subject) {
      var t :| t in stored && Names(t.subject, w.subject);
      assert t in stored[1..];
      if s.Userset? {
        NamedIsFound(w, mode, CheckNode(w, mode, st, UsersetNode(s), depth + 1).state, stored[1..], depth);
      } else {
        NamedIsFound(w, mode, st, stored[1..], depth);
      }
    }
  }

  /** And the other way round: a stored tuple of a relation grants it to its subject, or to everyone of its wildcard. */
  lemma {:induction false} StoredGrantIsFound(w: World, mode: Mode, n: Node, t: RelationTuple)
    requires t in w.tuples && t.obj == n.obj && t.relation == n.relation && w.Rewrite(n) == Some(Direct)
    requires w.subject.Concrete? && t.subject in {w.subject, Wildcard(w.subject.namespace)}
    ensures Request(w, mode, n).verdict.Some? ==> Request(w, mode, n).verdict.value
  {
    var stored := ListByObjectRelation(w.tuples, n.obj, n.relation);
    assert t in stored && Names(t.subject, w.subject);
    NamedIsFound(w, mode, CountRead(Enter(ReachedBy(INITIAL, 0), Key(w, n))), stored, 0);
  }
}
