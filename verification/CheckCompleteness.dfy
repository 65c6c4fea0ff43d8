/** Union-only models, cyclic data allowed: a `false` that no depth cut touched is right. */
module CheckCompleteness {
  import opened Options
  import opened Tuples
  import opened Rewrites
  import opened CheckRuns
  import opened CheckSoundness

  // Every memoised `false` may be provisional, taken while an ancestor was still being evaluated; the argument is that when
  // the whole request answers `false`, the memo as a whole is a set of questions the rules cannot enter.

  /** The questions outside a set of memo keys. */
  ghost function Outside(w: World, keys: set<string>): iset<Node> {
    iset n: Node | !(Keyable(n.obj) && Key(w, n) in keys)
  }

  /** Even if every question outside `keys` held, `e` on `n` would not. */
  ghost predicate DeniedBy(w: World, keys: set<string>, n: Node, e: UsersetExpr) {
    !SatIn(w, Outside(w, keys), n, e)
  }

  ghost predicate AllFalse(st: State) {
    forall k | k in st.memo :: !st.memo[k]
  }

  /** Every question memoised between `st` and `st'` is denied by what is memoised or in progress at the end. */
  ghost predicate NewOnesDenied(w: World, st: State, st': State) {
    forall n: Node :: Keyable(n.obj) && Key(w, n) in st'.memo && Key(w, n) !in st.memo ==>
      w.Rewrite(n).Some? && DeniedBy(w, st'.memo.Keys + st'.visiting, n, w.Rewrite(n).value)
  }

  /** The outcome of a `false` run. */
  ghost predicate FalseRun(w: World, st: State, run: Run) {
    AllFalse(run.state) && NewOnesDenied(w, st, run.state)
  }

  ghost predicate Denied(run: Run) {
    run.verdict == Some(false) && !run.state.metrics.hitMaxDepth
  }

  lemma {:induction false} DeniedByMore(w: World, keys: set<string>, more: set<string>, n: Node, e: UsersetExpr)
    requires keys <= more && UnionOnly(e) && DeniedBy(w, keys, n, e)
    ensures DeniedBy(w, more, n, e)
  {
    UnionOnlyIsExclusionFree(e);
    if SatIn(w, Outside(w, more), n, e) {
      SatMonotone(w, Outside(w, more), Outside(w, keys), n, e);
    }
  }

  /** Two false runs in a row. */
  lemma {:induction false} FalseRunsCompose(w: World, st: State, first: Run, second: Run)
    requires UnionOnlyModel(w)
    requires Extends(st, first.state) && Extends(first.state, second.state)
    requires FalseRun(w, st, first) && FalseRun(w, first.state, second)
    ensures FalseRun(w, st, second)
  {
    forall n: Node | Keyable(n.obj) && Key(w, n) in second.state.memo && Key(w, n) !in st.memo
      ensures w.Rewrite(n).Some? &&
              DeniedBy(w, second.state.memo.Keys + second.state.visiting, n, w.Rewrite(n).value)
    {
      if Key(w, n) in first.state.memo {
        DeniedByMore(w, first.state.memo.Keys + first.state.visiting,
                     second.state.memo.Keys + second.state.visiting, n, w.Rewrite(n).value);
      }
    }
  }

  lemma {:induction false} NodeDenied(w: World, mode: Mode, st: State, n: Node, depth: Level)
    requires KeyableWorld(w) && UnionOnlyModel(w) && AllFalse(st)
    requires Keyable(n.obj)
    requires Denied(CheckNode(w, mode, st, n, depth))
    ensures FalseRun(w, st, CheckNode(w, mode, st, n, depth))
    ensures var end := CheckNode(w, mode, st, n, depth).state; Key(w, n) in end.memo || Key(w, n) in end.visiting
    decreases MAX_DEPTH + 1 - depth, 4
  {
    var key := Key(w, n);
    if depth <= MAX_DEPTH && key !in st.memo && key !in st.visiting {
      var e := w.Rewrite(n).value;
      var st1 := Enter(ReachedBy(st, depth), key);
      var inner := Evaluate(w, mode, st1, n, e, depth);
      ExprDenied(w, mode, st1, n, e, depth);
      var end := CheckNode(w, mode, st, n, depth).state;
      assert end.memo.Keys + end.visiting == inner.state.memo.Keys + inner.state.visiting;
      forall m: Node | Keyable(m.obj) && Key(w, m) in end.memo && Key(w, m) !in st.memo
        ensures w.Rewrite(m).Some? && DeniedBy(w, end.memo.Keys + end.visiting, m, w.Rewrite(m).value)
      {
        if Key(w, m) == key {
          MemoKeyInjective(m.obj, m.relation, n.obj, n.relation, w.subject);
        }
      }
    }
  }

  lemma {:induction false} ExprDenied(w: World, mode: Mode, st: State, n: Node, e: UsersetExpr, depth: Depth)
    requires KeyableWorld(w) && UnionOnlyModel(w) && AllFalse(st) && UnionOnly(e)
    requires Keyable(n.obj)
    requires Denied(Evaluate(w, mode, st, n, e, depth))
    ensures FalseRun(w, st, Evaluate(w, mode, st, n, e, depth))
    ensures var end := Evaluate(w, mode, st, n, e, depth).state; DeniedBy(w, end.memo.Keys + end.visiting, n, e)
    decreases MAX_DEPTH + 1 - depth, 3, e
  {
    match e
    case Direct =>
      var stored := ListByObjectRelation(w.tuples, n.obj, n.relation);
      var st1 := CountRead(st);
      TuplesDenied(w, mode, st1, stored, depth);
      var end := Evaluate(w, mode, st, n, e, depth).state;
      forall s ensures !DirectIn(w, Outside(w, end.memo.Keys + end.visiting), n, s) {
        if RelationTuple(n.obj, n.relation, s) in w.tuples {
          assert RelationTuple(n.obj, n.relation, s) in stored;
        }
      }
    case Computed(r) => NodeDenied(w, mode, st, Node(n.obj, r), depth + 1);
    case TupleToUserset(t, c) =>
      var parents := ListObjectsRelatedBy(w.tuples, n.obj, t);
      forall p | p in parents ensures Keyable(p) {
        assert RelationTuple(n.obj, t, Concrete(p.namespace, p.id)) in w.tuples;
        assert p == ObjectRef(p.namespace, p.id);
      }
      ParentsDenied(w, mode, CountParents(st), parents, c, depth);
    case Union(cs) => ChildrenDenied(w, mode, st, n, cs, depth);
  }

  lemma {:induction false} ChildrenDenied(w: World, mode: Mode, st: State, n: Node, cs: seq<UsersetExpr>, depth: Depth)
    requires KeyableWorld(w) && UnionOnlyModel(w) && AllFalse(st)
    requires forall c | c in cs :: UnionOnly(c)
    requires Keyable(n.obj)
    requires Denied(EvaluateUntil(w, mode, st, n, cs, true, depth))
    ensures FalseRun(w, st, EvaluateUntil(w, mode, st, n, cs, true, depth))
    ensures var end := EvaluateUntil(w, mode, st, n, cs, true, depth).state;
            forall c | c in cs :: DeniedBy(w, end.memo.Keys + end.visiting, n, c)
    decreases MAX_DEPTH + 1 - depth, 3, cs
  {
    if cs != [] {
      assert cs[0] in cs;
      var first := Evaluate(w, mode, st, n, cs[0], depth);
      ExprDenied(w, mode, st, n, cs[0], depth);
      ChildrenDenied(w, mode, first.state, n, cs[1..], depth);
      var all := EvaluateUntil(w, mode, st, n, cs, true, depth);
      FalseRunsCompose(w, st, first, all);
      DeniedByMore(w, first.state.memo.Keys + first.state.visiting, all.state.memo.Keys + all.state.visiting, n, cs[0]);
      assert forall c :: c in cs <==> c == cs[0] || c in cs[1..];
    }
  }

  lemma {:induction false} ParentsDenied(w: World, mode: Mode, st: State, parents: seq<ObjectRef>, c: string, depth: Depth)
    requires KeyableWorld(w) && UnionOnlyModel(w) && AllFalse(st)
    requires forall p | p in parents :: Keyable(p)
    requires Denied(AnyParent(w, mode, st, parents, c, depth))
    ensures FalseRun(w, st, AnyParent(w, mode, st, parents, c, depth))
    ensures var end := AnyParent(w, mode, st, parents, c, depth).state;
            forall p | p in parents :: Node(p, c) !in Outside(w, end.memo.Keys + end.visiting)
    decreases MAX_DEPTH + 1 - depth, 1, |parents|
  {
    if parents != [] {
      assert parents[0] in parents;
      var first := CheckNode(w, mode, st, Node(parents[0], c), depth + 1);
      NodeDenied(w, mode, st, Node(parents[0], c), depth + 1);
      ParentsDenied(w, mode, first.state, parents[1..], c, depth);
      FalseRunsCompose(w, st, first, AnyParent(w, mode, st, parents, c, depth));
    }
  }

  lemma {:induction false} TuplesDenied(w: World, mode: Mode, st: State, stored: seq<RelationTuple>, depth: Depth)
    requires KeyableWorld(w) && UnionOnlyModel(w) && AllFalse(st)
    requires forall t | t in stored :: t in w.tuples
    requires Denied(AnyTuple(w, mode, st, stored, depth))
    ensures FalseRun(w, st, AnyTuple(w, mode, st, stored, depth))
    ensures var end := AnyTuple(w, mode, st, stored, depth).state;
            forall t | t in stored :: !GrantsOutright(t.subject, w.subject) &&
              (t.subject.Userset? ==> UsersetNode(t.subject) !in Outside(w, end.memo.Keys + end.visiting))
    decreases MAX_DEPTH + 1 - depth, 1, |stored|
  {
    if stored != [] {
      var s := stored[0].subject;
      assert stored[0] in stored;
      if s.Userset? {
        var first := CheckNode(w, mode, st, UsersetNode(s), depth + 1);
        NodeDenied(w, mode, st, UsersetNode(s), depth + 1);
        TuplesDenied(w, mode, first.state, stored[1..], depth);
        FalseRunsCompose(w, st, first, AnyTuple(w, mode, st, stored, depth));
      } else {
        TuplesDenied(w, mode, st, stored[1..], depth);
      }
    }
  }

  /** A set of keys, each of whose questions is denied by the set, has no derivable question. */
  lemma {:induction false} DeniedSetMissesLfp(w: World, keys: set<string>, n: Node)
    requires UnionOnlyModel(w) && Keyable(n.obj) && Key(w, n) in keys
    requires forall m: Node :: Keyable(m.obj) && Key(w, m) in keys ==>
               w.Rewrite(m).Some? && DeniedBy(w, keys, m, w.Rewrite(m).value)
    ensures n !in Lfp(w)
  {
    forall m: Node | w.Rewrite(m).Some? ensures ExclusionFree(w.Rewrite(m).value) {
      UnionOnlyIsExclusionFree(w.Rewrite(m).value);
    }
    LfpIsLeast(w, Outside(w, keys));
  }

  /**
   * On models of direct, computed, tuple-to-userset and union, over any store, cyclic or not: a request that
   * answers without a depth cut answers `true` exactly when the rules derive the question.
   */
  lemma {:induction false} CheckIsLeastFixpoint(w: World, mode: Mode, n: Node)
    requires KeyableWorld(w) && UnionOnlyModel(w) && Keyable(n.obj)
    requires Request(w, mode, n).verdict.Some? && !Request(w, mode, n).state.metrics.hitMaxDepth
    ensures Request(w, mode, n).verdict.value <==> n in Lfp(w)
  {
    var run := Request(w, mode, n);
    if run.verdict.value {
      forall m: Node | w.Rewrite(m).Some? ensures ExclusionFree(w.Rewrite(m).value) {
        UnionOnlyIsExclusionFree(w.Rewrite(m).value);
      }
      CheckTrueIsDerivable(w, mode, n);
    } else {
      NodeDenied(w, mode, INITIAL, n, 0);
      assert run.state.memo.Keys + run.state.visiting == run.state.memo.Keys;
      DeniedSetMissesLfp(w, run.state.memo.Keys, n);
    }
  }
}
