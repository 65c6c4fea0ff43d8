/** On acyclic data, if a request that looks at every branch answers, so does check. */
module AcyclicAnswers {
  import opened Options
  import opened Tuples
  import opened Rewrites
  import opened Acyclic
  import opened CheckRuns
  import opened CheckSoundness
  import opened CheckAcyclic

  // ----- what a verdict needs to be known -----

  /** The usersets tried in order, up to the first grant, are among the keys. */
  ghost predicate Reads(w: World, keys: set<string>, stored: seq<RelationTuple>)
    decreases |stored|
  {
    stored == [] ||
    var s := stored[0].subject;
    GrantsOutright(s, w.subject) ||
    if s.Userset? then Key(w, UsersetNode(s)) in keys && (UsersetNode(s) in Meaning(w) || Reads(w, keys, stored[1..]))
    else Reads(w, keys, stored[1..])
  }

  /** All that evaluating `e` on `n` asks, every branch of it, is among the keys. */
  ghost predicate Needs(w: World, keys: set<string>, n: Node, e: UsersetExpr)
    decreases e
  {
    match e
    case Direct => Reads(w, keys, ListByObjectRelation(w.tuples, n.obj, n.relation))
    case Computed(r) => Key(w, Node(n.obj, r)) in keys
    case TupleToUserset(t, c) => forall p | p in ListObjectsRelatedBy(w.tuples, n.obj, t) :: Key(w, Node(p, c)) in keys
    case Union(cs) => forall c | c in cs :: Needs(w, keys, n, c)
    case Intersection(cs) => forall c | c in cs :: Needs(w, keys, n, c)
    case Exclusion(base, subtract) => Needs(w, keys, n, base) && Needs(w, keys, n, subtract)
  }

  lemma {:induction false} ReadsMore(w: World, keys: set<string>, more: set<string>, stored: seq<RelationTuple>)
    requires keys <= more && Reads(w, keys, stored)
    ensures Reads(w, more, stored)
    decreases |stored|
  {
    if stored != [] && !GrantsOutright(stored[0].subject, w.subject) {
      if !(stored[0].subject.Userset? && UsersetNode(stored[0].subject) in Meaning(w)) {
        ReadsMore(w, keys, more, stored[1..]);
      }
    }
  }

  lemma {:induction false} NeedsMore(w: World, keys: set<string>, more: set<string>, n: Node, e: UsersetExpr)
    requires keys <= more && Needs(w, keys, n, e)
    ensures Needs(w, more, n, e)
    decreases e
  {
    match e
    case Direct => ReadsMore(w, keys, more, ListByObjectRelation(w.tuples, n.obj, n.relation));
    case Computed(_) =>
    case TupleToUserset(_, _) =>
    case Union(cs) =>
      forall c | c in cs ensures Needs(w, more, n, c) {
        NeedsMore(w, keys, more, n, c);
      }
    case Intersection(cs) =>
      forall c | c in cs ensures Needs(w, more, n, c) {
        NeedsMore(w, keys, more, n, c);
      }
    case Exclusion(base, subtract) =>
      NeedsMore(w, keys, more, n, base);
      NeedsMore(w, keys, more, n, subtract);
  }

  /** A question of the keys is declared, and so are all it needs. */
  ghost predicate Known(w: World, keys: set<string>, n: Node) {
    w.Rewrite(n).Some? && Needs(w, keys, n, w.Rewrite(n).value)
  }

  ghost predicate Closed(w: World, keys: set<string>) {
    forall n: Node | Keyable(n.obj) && Key(w, n) in keys :: Known(w, keys, n)
  }

  lemma ClosedWithOne(w: World, keys: set<string>, n: Node)
    requires Closed(w, keys) && Keyable(n.obj) && Known(w, keys, n)
    ensures Closed(w, keys + {Key(w, n)})
  {
    var more := keys + {Key(w, n)};
    forall m: Node | Keyable(m.obj) && Key(w, m) in more ensures Known(w, more, m) {
      if Key(w, m) == Key(w, n) {
        MemoKeyInjective(m.obj, m.relation, n.obj, n.relation, w.subject);
      }
      NeedsMore(w, keys, more, m, w.Rewrite(m).value);
    }
  }

  // ----- looking at every branch -----

  lemma {:induction false} NodeAsksAll(w: World, st: State, n: Node, k: nat, depth: nat)
    requires KeyableWorld(w) && MemoRight(w, st) && VisitingAbove(w, st, k) && Closed(w, st.memo.Keys)
    requires PathsWithin(w, n, k) && depth + k <= MAX_DEPTH && Keyable(n.obj)
    ensures var run := CheckNode(w, Full, st, n, depth);
            Closed(w, run.state.memo.Keys) && (run.verdict.Some? ==> Key(w, n) in run.state.memo)
    decreases MAX_DEPTH + 1 - depth, 4
  {
    var key := Key(w, n);
    if key !in st.memo && w.Rewrite(n).Some? {
      var e := w.Rewrite(n).value;
      var h := Height(w, n, k);
      var st1 := Enter(ReachedBy(st, depth), key);
      RewriteAsked(w, n, h);
      if h > 0 {
        EnteredAbove(w, ReachedBy(st, depth), n, h, k);
      }
      ExprAsksAll(w, st1, n, e, h, depth);
      var run := Evaluate(w, Full, st1, n, e, depth);
      if run.verdict.Some? {
        ClosedWithOne(w, run.state.memo.Keys, n);
        assert CheckNode(w, Full, st, n, depth).state.memo.Keys == run.state.memo.Keys + {key};
      }
    }
  }

  lemma {:induction false} ExprAsksAll(w: World, st: State, n: Node, e: UsersetExpr, k: nat, depth: nat)
    requires Ready(w, st, k, depth) && Asked(w, n, e, k) && Keyable(n.obj) && Closed(w, st.memo.Keys)
    ensures var run := Evaluate(w, Full, st, n, e, depth);
            Closed(w, run.state.memo.Keys) && (run.verdict.Some? ==> Needs(w, run.state.memo.Keys, n, e))
    decreases MAX_DEPTH + 1 - depth, 3, e
  {
    match e
    case Direct =>
      var stored := ListByObjectRelation(w.tuples, n.obj, n.relation);
      UsersetsAsked(w, n, stored, k);
      TuplesAskAll(w, CountRead(st), stored, k, depth);
    case Computed(r) =>
      assert Asks(w, n, Computed(r), Node(n.obj, r));
      NodeAsksAll(w, st, Node(n.obj, r), k - 1, depth + 1);
    case TupleToUserset(t, c) =>
      var parents := ListObjectsRelatedBy(w.tuples, n.obj, t);
      ParentsAsked(w, n, t, c, parents, k);
      ParentsAskAll(w, CountParents(st), parents, c, k, depth);
    case Union(cs) =>
      ChildrenAsked(w, n, e, cs, k);
      ChildrenAskAll(w, st, n, cs, true, k, depth);
    case Intersection(cs) =>
      ChildrenAsked(w, n, e, cs, k);
      ChildrenAskAll(w, st, n, cs, false, k, depth);
    case Exclusion(base, subtract) =>
      OperandsAsked(w, n, base, subtract, k);
      var first := Evaluate(w, Full, st, n, base, depth);
      ExprFaithful(w, Full, st, n, base, k, depth);
      ExprAsksAll(w, st, n, base, k, depth);
      ExprAsksAll(w, first.state, n, subtract, k, depth);
      if Evaluate(w, Full, st, n, e, depth).verdict.Some? {
        var second := Evaluate(w, Full, first.state, n, subtract, depth);
        NeedsMore(w, first.state.memo.Keys, second.state.memo.Keys, n, base);
      }
  }

  lemma {:induction false} ChildrenAskAll(
    w: World, st: State, n: Node, cs: seq<UsersetExpr>, stop: bool, k: nat, depth: nat)
    requires Ready(w, st, k, depth) && Keyable(n.obj) && Closed(w, st.memo.Keys)
    requires forall c | c in cs :: Asked(w, n, c, k)
    ensures var run := EvaluateUntil(w, Full, st, n, cs, stop, depth);
            Closed(w, run.state.memo.Keys) &&
            (run.verdict.Some? ==> forall c | c in cs :: Needs(w, run.state.memo.Keys, n, c))
    decreases MAX_DEPTH + 1 - depth, 3, cs
  {
    if cs != [] {
      assert cs[0] in cs;
      var first := Evaluate(w, Full, st, n, cs[0], depth);
      ExprFaithful(w, Full, st, n, cs[0], k, depth);
      ExprAsksAll(w, st, n, cs[0], k, depth);
      ChildrenAskAll(w, first.state, n, cs[1..], stop, k, depth);
      var run := EvaluateUntil(w, Full, st, n, cs, stop, depth);
      if run.verdict.Some? {
        NeedsMore(w, first.state.memo.Keys, run.state.memo.Keys, n, cs[0]);
        assert forall c :: c in cs <==> c == cs[0] || c in cs[1..];
      }
    }
  }

  lemma {:induction false} ParentsAskAll(w: World, st: State, parents: seq<ObjectRef>, c: string, k: nat, depth: nat)
    requires Ready(w, st, k, depth) && Closed(w, st.memo.Keys)
    requires forall p | p in parents :: Keyable(p) && k > 0 && PathsWithin(w, Node(p, c), k - 1)
    ensures var run := AnyParent(w, Full, st, parents, c, depth);
            Closed(w, run.state.memo.Keys) &&
            (run.verdict.Some? ==> forall p | p in parents :: Key(w, Node(p, c)) in run.state.memo)
    decreases MAX_DEPTH + 1 - depth, 1, |parents|
  {
    if parents != [] {
      assert parents[0] in parents;
      var first := CheckNode(w, Full, st, Node(parents[0], c), depth + 1);
      NodeFaithful(w, Full, st, Node(parents[0], c), k - 1, depth + 1);
      NodeAsksAll(w, st, Node(parents[0], c), k - 1, depth + 1);
      ParentsAskAll(w, first.state, parents[1..], c, k, depth);
      assert forall p :: p in parents <==> p == parents[0] || p in parents[1..];
    }
  }

  lemma {:induction false} TuplesAskAll(w: World, st: State, stored: seq<RelationTuple>, k: nat, depth: nat)
    requires Ready(w, st, k, depth) && Closed(w, st.memo.Keys)
    requires forall t | t in stored :: t in w.tuples
    requires forall t | t in stored && t.subject.Userset? :: k > 0 && PathsWithin(w, UsersetNode(t.subject), k - 1)
    ensures var run := AnyTuple(w, Full, st, stored, depth);
            Closed(w, run.state.memo.Keys) && (run.verdict.Some? ==> Reads(w, run.state.memo.Keys, stored))
    decreases MAX_DEPTH + 1 - depth, 1, |stored|
  {
    if stored != [] {
      var s := stored[0].subject;
      assert stored[0] in stored;
      if s.Userset? {
        NodeFaithful(w, Full, st, UsersetNode(s), k - 1, depth + 1);
        NodeAsksAll(w, st, UsersetNode(s), k - 1, depth + 1);
        TuplesAskAll(w, CheckNode(w, Full, st, UsersetNode(s), depth + 1).state, stored[1..], k, depth);
      } else {
        TuplesAskAll(w, st, stored[1..], k, depth);
      }
    }
  }

  // ----- leaving loops early -----

  lemma {:induction false} NodeAnswers(w: World, keys: set<string>, st: State, n: Node, k: nat, depth: nat)
    requires KeyableWorld(w) && MemoRight(w, st) && VisitingAbove(w, st, k) && Closed(w, keys)
    requires PathsWithin(w, n, k) && depth + k <= MAX_DEPTH && Keyable(n.obj) && Key(w, n) in keys
    ensures CheckNode(w, ShortCircuit, st, n, depth).verdict.Some?
    decreases MAX_DEPTH + 1 - depth, 4
  {
    assert Known(w, keys, n);
    var key := Key(w, n);
    if key !in st.memo {
      var h := Height(w, n, k);
      RewriteAsked(w, n, h);
      if h > 0 {
        EnteredAbove(w, ReachedBy(st, depth), n, h, k);
      }
      ExprAnswers(w, keys, Enter(ReachedBy(st, depth), key), n, w.Rewrite(n).value, h, depth);
    }
  }

  lemma {:induction false} ExprAnswers(w: World, keys: set<string>, st: State, n: Node, e: UsersetExpr, k: nat, depth: nat)
    requires Ready(w, st, k, depth) && Asked(w, n, e, k) && Keyable(n.obj) && Closed(w, keys) && Needs(w, keys, n, e)
    ensures Evaluate(w, ShortCircuit, st, n, e, depth).verdict.Some?
    decreases MAX_DEPTH + 1 - depth, 3, e
  {
    match e
    case Direct =>
      var stored := ListByObjectRelation(w.tuples, n.obj, n.relation);
      UsersetsAsked(w, n, stored, k);
      TuplesAnswer(w, keys, CountRead(st), stored, k, depth);
    case Computed(r) =>
      assert Asks(w, n, Computed(r), Node(n.obj, r));
      NodeAnswers(w, keys, st, Node(n.obj, r), k - 1, depth + 1);
    case TupleToUserset(t, c) =>
      var parents := ListObjectsRelatedBy(w.tuples, n.obj, t);
      ParentsAsked(w, n, t, c, parents, k);
      ParentsAnswer(w, keys, CountParents(st), parents, c, k, depth);
    case Union(cs) =>
      ChildrenAsked(w, n, e, cs, k);
      ChildrenAnswer(w, keys, st, n, cs, true, k, depth);
    case Intersection(cs) =>
      ChildrenAsked(w, n, e, cs, k);
      ChildrenAnswer(w, keys, st, n, cs, false, k, depth);
    case Exclusion(base, subtract) =>
      OperandsAsked(w, n, base, subtract, k);
      ExprFaithful(w, ShortCircuit, st, n, base, k, depth);
      ExprAnswers(w, keys, st, n, base, k, depth);
      ExprAnswers(w, keys, Evaluate(w, ShortCircuit, st, n, base, depth).state, n, subtract, k, depth);
  }

  lemma {:induction false} ChildrenAnswer(
    w: World, keys: set<string>, st: State, n: Node, cs: seq<UsersetExpr>, stop: bool, k: nat, depth: nat)
    requires Ready(w, st, k, depth) && Keyable(n.obj) && Closed(w, keys)
    requires forall c | c in cs :: Asked(w, n, c, k) && Needs(w, keys, n, c)
    ensures EvaluateUntil(w, ShortCircuit, st, n, cs, stop, depth).verdict.Some?
    decreases MAX_DEPTH + 1 - depth, 3, cs
  {
    if cs != [] {
      assert cs[0] in cs;
      ExprFaithful(w, ShortCircuit, st, n, cs[0], k, depth);
      ExprAnswers(w, keys, st, n, cs[0], k, depth);
      ChildrenAnswer(w, keys, Evaluate(w, ShortCircuit, st, n, cs[0], depth).state, n, cs[1..], stop, k, depth);
    }
  }

  /** One question further down. */
  lemma {:induction false} NextAnswers(w: World, keys: set<string>, st: State, m: Node, k: nat, depth: nat)
    requires Ready(w, st, k, depth) && Closed(w, keys)
    requires Keyable(m.obj) && k > 0 && PathsWithin(w, m, k - 1) && Key(w, m) in keys
    ensures var run := CheckNode(w, ShortCircuit, st, m, depth + 1);
            Ready(w, run.state, k, depth) && run.verdict == Some(m in Meaning(w))
    decreases MAX_DEPTH + 1 - depth, 0
  {
    NodeFaithful(w, ShortCircuit, st, m, k - 1, depth + 1);
    NodeAnswers(w, keys, st, m, k - 1, depth + 1);
  }

  lemma {:induction false} ParentsAnswer(
    w: World, keys: set<string>, st: State, parents: seq<ObjectRef>, c: string, k: nat, depth: nat)
    requires Ready(w, st, k, depth) && Closed(w, keys)
    requires forall p | p in parents :: Keyable(p) && k > 0 && PathsWithin(w, Node(p, c), k - 1)
    requires forall p | p in parents :: Key(w, Node(p, c)) in keys
    ensures AnyParent(w, ShortCircuit, st, parents, c, depth).verdict.Some?
    decreases MAX_DEPTH + 1 - depth, 1, |parents|
  {
    if parents != [] {
      assert parents[0] in parents;
      var first := CheckNode(w, ShortCircuit, st, Node(parents[0], c), depth + 1);
      NextAnswers(w, keys, st, Node(parents[0], c), k, depth);
      ParentsAnswer(w, keys, first.state, parents[1..], c, k, depth);
    }
  }

  lemma {:induction false} TuplesAnswer(
    w: World, keys: set<string>, st: State, stored: seq<RelationTuple>, k: nat, depth: nat)
    requires Ready(w, st, k, depth) && Closed(w, keys) && Reads(w, keys, stored)
    requires forall t | t in stored :: t in w.tuples
    requires forall t | t in stored && t.subject.Userset? :: k > 0 && PathsWithin(w, UsersetNode(t.subject), k - 1)
    ensures AnyTuple(w, ShortCircuit, st, stored, depth).verdict.Some?
    decreases MAX_DEPTH + 1 - depth, 1, |stored|
  {
    if stored != [] && !GrantsOutright(stored[0].subject, w.subject) {
      var s := stored[0].subject;
      assert stored[0] in stored;
      if s.Userset? {
        var first := CheckNode(w, ShortCircuit, st, UsersetNode(s), depth + 1);
        NextAnswers(w, keys, st, UsersetNode(s), k, depth);
        if first.verdict == Some(false) {
          TuplesAnswer(w, keys, first.state, stored[1..], k, depth);
        }
      } else {
        TuplesAnswer(w, keys, st, stored[1..], k, depth);
      }
    }
  }

  /** Whatever the forms of expression: on acyclic data within the cap, a full request that answers leaves no reason to throw. */
  lemma {:induction false} FullAnswersImpliesCheckAnswers(w: World, n: Node)
    requires KeyableWorld(w) && Keyable(n.obj) && PathsWithin(w, n, 32)
    requires Request(w, Full, n).verdict.Some?
    ensures Request(w, ShortCircuit, n).verdict.Some?
  {
    NodeAsksAll(w, INITIAL, n, MAX_DEPTH, 0);
    NodeAnswers(w, Request(w, Full, n).state.memo.Keys, INITIAL, n, MAX_DEPTH, 0);
  }
}
