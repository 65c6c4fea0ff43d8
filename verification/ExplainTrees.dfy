/** What the tree of an explain request says: which node stands where, and how each verdict follows from what is below. */
module ExplainTrees {
  import opened Options
  import opened Tuples
  import opened Rewrites
  import opened CheckRuns
  import opened ExplainRuns

  type Answers = map<string, bool>

  /**
   * `t` is a full account of question `n`, asked while the questions of `above` are in progress, outermost first, and
   * those of `known` have been answered; afterwards those of `known'` have. Past 32 questions the request is cut; a
   * question in progress is a cycle; one that has been answered is recalled; and any other one is answered by a tree
   * that mirrors its rewrite branch by branch, none skipped.
   */
  ghost predicate Accounts(w: World, above: seq<string>, known: Answers, n: Node, t: Trace, known': Answers)
    decreases |known'|, 0
  {
    var key := Key(w, n);
    match t
    case MaxDepthTrace(depth) => depth == 33 == |above| && known' == known
    case CycleTrace(k) => |above| <= 32 && k == key && key in above && key !in known && known' == known
    case CachedTrace(k, allowed) =>
      |above| <= 32 && k == key && key !in above && key in known && known[key] == allowed && known' == known
    case _ =>
      |above| <= 32 && key !in above && key !in known && w.Rewrite(n).Some? &&
      exists mid: Answers :: |mid| < |known'| && known' == mid[key := t.Allows()] &&
                              Mirrors(w, above + [key], known, n, w.Rewrite(n).value, t, mid)
  }

  ghost predicate Mirrors(w: World, above: seq<string>, known: Answers, n: Node, e: UsersetExpr, t: Trace, known': Answers)
    decreases |known'|, 2, e
  {
    match e
    case Direct =>
      t.DirectTrace? && t.obj == n.obj && t.relation == n.relation && t.subject == w.subject
      && t.tuplesExamined == ListByObjectRelation(w.tuples, n.obj, n.relation)
      && (t.allowed <==> t.matched.Some?)
      && Tries(w, above, known, t.tuplesExamined, t.matched, t.usersetChild, known')
    case Computed(r) =>
      t.ComputedTrace? && t.relation == r && t.allowed == t.child.Allows()
      && Accounts(w, above, known, Node(n.obj, r), t.child, known')
    case TupleToUserset(tr, c) =>
      t.TupleToUsersetTrace? && t.tupleRelation == tr && t.computedRelation == c
      && t.parents == ListObjectsRelatedBy(w.tuples, n.obj, tr)
      && (t.allowed <==> SomeAllows(t.traces))
      && ParentsAccount(w, above, known, t.parents, c, t.traces, known')
    case Union(cs) =>
      t.UnionTrace? && (t.allowed <==> SomeAllows(t.children)) && ChildrenMirror(w, above, known, n, cs, t.children, known')
    case Intersection(cs) =>
      t.IntersectionTrace? && (t.allowed <==> AllAllow(t.children))
      && ChildrenMirror(w, above, known, n, cs, t.children, known')
    case Exclusion(base, subtract) =>
      t.ExclusionTrace? && (t.allowed <==> t.base.Allows() && !t.subtract.Allows())
      && exists mid: Answers :: |mid| <= |known'| && Mirrors(w, above, known, n, base, t.base, mid) &&
                                 Mirrors(w, above, mid, n, subtract, t.subtract, known')
  }

  ghost predicate ChildrenMirror(
    w: World, above: seq<string>, known: Answers, n: Node, cs: seq<UsersetExpr>, ts: seq<Trace>, known': Answers)
    decreases |known'|, 2, cs
  {
    |ts| == |cs| &&
    if cs == [] then known' == known
    else
      exists mid: Answers :: |mid| <= |known'| && Mirrors(w, above, known, n, cs[0], ts[0], mid) &&
                              ChildrenMirror(w, above, mid, n, cs[1..], ts[1..], known')
  }

  ghost predicate ParentsAccount(
    w: World, above: seq<string>, known: Answers, parents: seq<ObjectRef>, c: string, ts: seq<Trace>, known': Answers)
    decreases |known'|, 1, |parents|
  {
    |ts| == |parents| &&
    if parents == [] then known' == known
    else
      exists mid: Answers :: |mid| <= |known'| && Accounts(w, above, known, Node(parents[0], c), ts[0], mid) &&
                              ParentsAccount(w, above, mid, parents[1..], c, ts[1..], known')
  }

  /**
   * Stored tuples are tried in order up to the first that grants. A userset that is refused has an account of its own,
   * which the tree does not show.
   */
  ghost predicate Tries(
    w: World, above: seq<string>, known: Answers, stored: seq<RelationTuple>,
    matched: Option<RelationTuple>, child: Option<Trace>, known': Answers)
    decreases |known'|, 1, |stored|
  {
    if stored == [] then matched.None? && child.None? && known' == known
    else if GrantsOutright(stored[0].subject, w.subject) then matched == Some(stored[0]) && child.None? && known' == known
    else if !stored[0].subject.Userset? then Tries(w, above, known, stored[1..], matched, child, known')
    else
      exists asked: Trace, mid: Answers ::
        |mid| <= |known'| && Accounts(w, above, known, UsersetNode(stored[0].subject), asked, mid) &&
        if asked.Allows() then matched == Some(stored[0]) && child == Some(asked) && known' == mid
        else Tries(w, above, mid, stored[1..], matched, child, known')
  }

  // ----- the tracer's trees are such accounts -----

  /** The guard holds the questions in progress, and none of them has been answered. */
  ghost predicate Fits(st: State, above: seq<string>) {
    st.visiting == (set k | k in above) && forall k | k in above :: k !in st.memo
  }

  ghost predicate Grew(st: State, st': State, above: seq<string>) {
    Fits(st', above) && |st.memo| <= |st'.memo|
  }

  lemma {:induction false} NodeAccounts(w: World, st: State, n: Node, depth: Level, above: seq<string>)
    requires Fits(st, above) && |above| == depth
    ensures var run := TraceNode(w, st, n, depth);
            run.trace.Some? ==> Grew(st, run.state, above) && Accounts(w, above, st.memo, n, run.trace.value, run.state.memo)
    decreases MAX_DEPTH + 1 - depth, 4
  {
    var key := Key(w, n);
    if depth <= MAX_DEPTH && key !in st.memo && key !in st.visiting && w.Rewrite(n).Some? {
      var st1 := Enter(ReachedBy(st, depth), key);
      ExprMirrors(w, st1, n, w.Rewrite(n).value, depth, above + [key]);
      var run := TraceExpr(w, st1, n, w.Rewrite(n).value, depth);
      if run.trace.Some? {
        assert key in above + [key];
        assert run.state.visiting - {key} == set k | k in above;
      }
    }
  }

  lemma {:induction false} ExprMirrors(w: World, st: State, n: Node, e: UsersetExpr, depth: Depth, above: seq<string>)
    requires Fits(st, above) && |above| == depth + 1
    ensures var run := TraceExpr(w, st, n, e, depth);
            run.trace.Some? ==> Grew(st, run.state, above) && Mirrors(w, above, st.memo, n, e, run.trace.value, run.state.memo)
    decreases MAX_DEPTH + 1 - depth, 3, e, 1
  {
    match e
    case Direct => StoredMirror(w, st, n, depth, above);
    case Computed(r) => NodeAccounts(w, st, Node(n.obj, r), depth + 1, above);
    case TupleToUserset(t, c) => WalkMirrors(w, st, n, t, c, depth, above);
    case Union(cs) => AllChildrenMirror(w, st, n, cs, depth, above);
    case Intersection(cs) => AllChildrenMirror(w, st, n, cs, depth, above);
    case Exclusion(base, subtract) => DifferenceMirrors(w, st, n, base, subtract, depth, above);
  }

  lemma {:induction false} StoredMirror(w: World, st: State, n: Node, depth: Depth, above: seq<string>)
    requires Fits(st, above) && |above| == depth + 1
    ensures var run := TraceExpr(w, st, n, Direct, depth);
            run.trace.Some? ==>
              Grew(st, run.state, above) && Mirrors(w, above, st.memo, n, Direct, run.trace.value, run.state.memo)
    decreases MAX_DEPTH + 1 - depth, 2
  {
    var stored := ListByObjectRelation(w.tuples, n.obj, n.relation);
    var run := FindMatch(w, CountRead(st), stored, depth);
    StoredTries(w, CountRead(st), stored, depth, above);
    if run.found.Some? {
      MatchMirrors(w, above, st.memo, n, run.found.value, run.state.memo);
    }
  }

  lemma MatchMirrors(w: World, above: seq<string>, known: Answers, n: Node, found: Match, known': Answers)
    requires Tries(w, above, known, ListByObjectRelation(w.tuples, n.obj, n.relation), MatchedBy(found), ChildOf(found), known')
    ensures Mirrors(w, above, known, n, Direct,
                    MatchTrace(w, n, ListByObjectRelation(w.tuples, n.obj, n.relation), found), known')
  {
  }

  lemma {:induction false} WalkMirrors(
    w: World, st: State, n: Node, t: string, c: string, depth: Depth, above: seq<string>)
    requires Fits(st, above) && |above| == depth + 1
    ensures var run := TraceExpr(w, st, n, TupleToUserset(t, c), depth);
            run.trace.Some? ==>
              Grew(st, run.state, above) &&
              Mirrors(w, above, st.memo, n, TupleToUserset(t, c), run.trace.value, run.state.memo)
    decreases MAX_DEPTH + 1 - depth, 2
  {
    AllParentsAccount(w, CountParents(st), ListObjectsRelatedBy(w.tuples, n.obj, t), c, depth, above);
  }

  lemma {:induction false} DifferenceMirrors(
    w: World, st: State, n: Node, base: UsersetExpr, subtract: UsersetExpr, depth: Depth, above: seq<string>)
    requires Fits(st, above) && |above| == depth + 1
    ensures var run := TraceExpr(w, st, n, Exclusion(base, subtract), depth);
            run.trace.Some? ==>
              Grew(st, run.state, above) &&
              Mirrors(w, above, st.memo, n, Exclusion(base, subtract), run.trace.value, run.state.memo)
    decreases MAX_DEPTH + 1 - depth, 3, Exclusion(base, subtract), 0
  {
    ExprMirrors(w, st, n, base, depth, above);
    var first := TraceExpr(w, st, n, base, depth);
    if first.trace.Some? {
      ExprMirrors(w, first.state, n, subtract, depth, above);
    }
  }

  lemma {:induction false} AllChildrenMirror(
    w: World, st: State, n: Node, cs: seq<UsersetExpr>, depth: Depth, above: seq<string>)
    requires Fits(st, above) && |above| == depth + 1
    ensures var run := TraceChildren(w, st, n, cs, depth);
            run.traces.Some? ==>
              Grew(st, run.state, above) && ChildrenMirror(w, above, st.memo, n, cs, run.traces.value, run.state.memo)
    decreases MAX_DEPTH + 1 - depth, 3, cs
  {
    if cs != [] {
      var first := TraceExpr(w, st, n, cs[0], depth);
      ExprMirrors(w, st, n, cs[0], depth, above);
      if first.trace.Some? {
        AllChildrenMirror(w, first.state, n, cs[1..], depth, above);
      }
    }
  }

  lemma {:induction false} AllParentsAccount(
    w: World, st: State, parents: seq<ObjectRef>, c: string, depth: Depth, above: seq<string>)
    requires Fits(st, above) && |above| == depth + 1
    ensures var run := TraceParents(w, st, parents, c, depth);
            run.traces.Some? ==>
              Grew(st, run.state, above) && ParentsAccount(w, above, st.memo, parents, c, run.traces.value, run.state.memo)
    decreases MAX_DEPTH + 1 - depth, 1, |parents|
  {
    if parents != [] {
      var first := TraceNode(w, st, Node(parents[0], c), depth + 1);
      NodeAccounts(w, st, Node(parents[0], c), depth + 1, above);
      if first.trace.Some? {
        AllParentsAccount(w, first.state, parents[1..], c, depth, above);
      }
    }
  }

  function MatchedBy(m: Match): Option<RelationTuple> {
    match m
    case NoMatch => None
    case Outright(t) => Some(t)
    case Through(t, _) => Some(t)
  }

  function ChildOf(m: Match): Option<Trace> {
    if m.Through? then Some(m.child) else None
  }

  lemma {:induction false} StoredTries(w: World, st: State, stored: seq<RelationTuple>, depth: Depth, above: seq<string>)
    requires Fits(st, above) && |above| == depth + 1
    ensures var run := FindMatch(w, st, stored, depth);
            run.found.Some? ==>
              Grew(st, run.state, above) &&
              Tries(w, above, st.memo, stored, MatchedBy(run.found.value), ChildOf(run.found.value), run.state.memo)
    decreases MAX_DEPTH + 1 - depth, 1, |stored|
  {
    if stored != [] && !GrantsOutright(stored[0].subject, w.subject) {
      var s := stored[0].subject;
      if s.Userset? {
        var asked := TraceNode(w, st, UsersetNode(s), depth + 1);
        NodeAccounts(w, st, UsersetNode(s), depth + 1, above);
        if asked.trace.Some? && !asked.trace.value.Allows() {
          StoredTries(w, asked.state, stored[1..], depth, above);
        }
      } else {
        StoredTries(w, st, stored[1..], depth, above);
      }
    }
  }

  /** The tree explain returns is a full account of the question, from nothing known to all the request has answered. */
  lemma {:induction false} ExplainAccounts(w: World, n: Node)
    requires TraceNode(w, INITIAL, n, 0).trace.Some?
    ensures Accounts(w, [], map[], n, TraceNode(w, INITIAL, n, 0).trace.value, Request(w, Full, n).state.memo)
  {
    NodeAccounts(w, INITIAL, n, 0, []);
    ExplainVerdict(w, n);
  }

  // ----- what is recalled was shown, except behind a refused userset -----

  /** The questions answered in the tree: those of all nodes but the meta nodes. */
  function Shown(w: World, n: Node, t: Trace): set<string>
    decreases t, 1
  {
    if t.MaxDepthTrace? || t.CycleTrace? || t.CachedTrace? then {} else {Key(w, n)} + ShownBelow(w, n, t)
  }

  function ShownBelow(w: World, n: Node, t: Trace): set<string>
    decreases t, 0
  {
    match t
    case DirectTrace(_, _, _, _, Some(m), Some(child), _) =>
      if m.subject.Userset? then Shown(w, UsersetNode(m.subject), child) else {}
    case ComputedTrace(r, child, _) => Shown(w, Node(n.obj, r), child)
    case TupleToUsersetTrace(_, c, parents, traces, _) => ShownOfParents(w, parents, c, traces)
    case UnionTrace(children, _) => ShownOfChildren(w, n, children)
    case IntersectionTrace(children, _) => ShownOfChildren(w, n, children)
    case ExclusionTrace(base, subtract, _) => ShownBelow(w, n, base) + ShownBelow(w, n, subtract)
    case _ => {}
  }

  function ShownOfChildren(w: World, n: Node, ts: seq<Trace>): set<string>
    decreases ts
  {
    if ts == [] then {} else ShownBelow(w, n, ts[0]) + ShownOfChildren(w, n, ts[1..])
  }

  function ShownOfParents(w: World, parents: seq<ObjectRef>, c: string, ts: seq<Trace>): set<string>
    decreases ts
  {
    if ts == [] || parents == [] then {}
    else Shown(w, Node(parents[0], c), ts[0]) + ShownOfParents(w, parents[1..], c, ts[1..])
  }

  predicate NoUsersets(tuples: seq<RelationTuple>) {
    forall t | t in tuples :: !t.subject.Userset?
  }

  /** Whatever is shown has been answered; and where no subject is a userset, nothing else has. */
  ghost predicate Tells(w: World, known: Answers, shown: set<string>, known': Answers) {
    known.Keys + shown <= known'.Keys && (NoUsersets(w.tuples) ==> known'.Keys == known.Keys + shown)
  }

  lemma TellsBoth(w: World, known: Answers, a: set<string>, mid: Answers, b: set<string>, known': Answers)
    requires Tells(w, known, a, mid) && Tells(w, mid, b, known')
    ensures Tells(w, known, a + b, known')
  {
  }

  lemma TellsOneMore(w: World, known: Answers, shown: set<string>, mid: Answers, key: string, v: bool)
    requires Tells(w, known, shown, mid)
    ensures Tells(w, known, {key} + shown, mid[key := v])
  {
  }

  lemma {:induction false} AccountTells(w: World, above: seq<string>, known: Answers, n: Node, t: Trace, known': Answers)
    requires Accounts(w, above, known, n, t, known')
    ensures Tells(w, known, Shown(w, n, t), known')
    decreases |known'|, 0
  {
    if !t.MaxDepthTrace? && !t.CycleTrace? && !t.CachedTrace? {
      var mid: Answers :| |mid| < |known'| && known' == mid[Key(w, n) := t.Allows()] &&
                          Mirrors(w, above + [Key(w, n)], known, n, w.Rewrite(n).value, t, mid);
      MirrorTells(w, above + [Key(w, n)], known, n, w.Rewrite(n).value, t, mid);
      TellsOneMore(w, known, ShownBelow(w, n, t), mid, Key(w, n), t.Allows());
    }
  }

  lemma {:induction false} MirrorTells(
    w: World, above: seq<string>, known: Answers, n: Node, e: UsersetExpr, t: Trace, known': Answers)
    requires Mirrors(w, above, known, n, e, t, known')
    ensures Tells(w, known, ShownBelow(w, n, t), known')
    decreases |known'|, 2, e, 1
  {
    match e
    case Direct =>
      TriesTell(w, above, known, t.tuplesExamined, t.matched, t.usersetChild, known');
      ShownByMatch(w, n, t);
    case Computed(r) => AccountTells(w, above, known, Node(n.obj, r), t.child, known');
    case TupleToUserset(_, c) => ParentsTell(w, above, known, t.parents, c, t.traces, known');
    case Union(cs) => ChildrenTell(w, above, known, n, cs, t.children, known');
    case Intersection(cs) => ChildrenTell(w, above, known, n, cs, t.children, known');
    case Exclusion(base, subtract) => DifferenceTells(w, above, known, n, base, subtract, t, known');
  }

  lemma ShownByMatch(w: World, n: Node, t: Trace)
    requires t.DirectTrace?
    ensures ShownBelow(w, n, t) == ShownMatch(w, t.matched, t.usersetChild)
  {
  }

  lemma {:induction false} DifferenceTells(
    w: World, above: seq<string>, known: Answers, n: Node, base: UsersetExpr, subtract: UsersetExpr, t: Trace, known': Answers)
    requires Mirrors(w, above, known, n, Exclusion(base, subtract), t, known')
    ensures Tells(w, known, ShownBelow(w, n, t), known')
    decreases |known'|, 2, Exclusion(base, subtract), 0
  {
    var mid: Answers :| |mid| <= |known'| && Mirrors(w, above, known, n, base, t.base, mid) &&
                        Mirrors(w, above, mid, n, subtract, t.subtract, known');
    MirrorTells(w, above, known, n, base, t.base, mid);
    MirrorTells(w, above, mid, n, subtract, t.subtract, known');
    TellsBoth(w, known, ShownBelow(w, n, t.base), mid, ShownBelow(w, n, t.subtract), known');
  }

  lemma {:induction false} ChildrenTell(
    w: World, above: seq<string>, known: Answers, n: Node, cs: seq<UsersetExpr>, ts: seq<Trace>, known': Answers)
    requires ChildrenMirror(w, above, known, n, cs, ts, known')
    ensures Tells(w, known, ShownOfChildren(w, n, ts), known')
    decreases |known'|, 2, cs
  {
    if cs != [] {
      var mid: Answers :| |mid| <= |known'| && Mirrors(w, above, known, n, cs[0], ts[0], mid) &&
                          ChildrenMirror(w, above, mid, n, cs[1..], ts[1..], known');
      MirrorTells(w, above, known, n, cs[0], ts[0], mid);
      ChildrenTell(w, above, mid, n, cs[1..], ts[1..], known');
      TellsBoth(w, known, ShownBelow(w, n, ts[0]), mid, ShownOfChildren(w, n, ts[1..]), known');
    }
  }

  lemma {:induction false} FirstTells(
    w: World, above: seq<string>, known: Answers, parents: seq<ObjectRef>, c: string, ts: seq<Trace>, known': Answers)
    returns (mid: Answers)
    requires ParentsAccount(w, above, known, parents, c, ts, known') && parents != []
    ensures |ts| == |parents| && |mid| <= |known'| && Tells(w, known, Shown(w, Node(parents[0], c), ts[0]), mid)
    ensures ParentsAccount(w, above, mid, parents[1..], c, ts[1..], known')
    decreases |known'|, 1, |parents|, 0
  {
    mid :| |mid| <= |known'| && Accounts(w, above, known, Node(parents[0], c), ts[0], mid) &&
           ParentsAccount(w, above, mid, parents[1..], c, ts[1..], known');
    AccountTells(w, above, known, Node(parents[0], c), ts[0], mid);
  }

  lemma {:induction false} ParentsTell(
    w: World, above: seq<string>, known: Answers, parents: seq<ObjectRef>, c: string, ts: seq<Trace>, known': Answers)
    requires ParentsAccount(w, above, known, parents, c, ts, known')
    ensures Tells(w, known, ShownOfParents(w, parents, c, ts), known')
    decreases |known'|, 1, |parents|, 1
  {
    if parents != [] {
      var mid := FirstTells(w, above, known, parents, c, ts, known');
      ParentsTell(w, above, mid, parents[1..], c, ts[1..], known');
      TellsBoth(w, known, Shown(w, Node(parents[0], c), ts[0]), mid, ShownOfParents(w, parents[1..], c, ts[1..]), known');
    }
  }

  function ShownMatch(w: World, matched: Option<RelationTuple>, child: Option<Trace>): set<string> {
    if matched.Some? && child.Some? && matched.value.subject.Userset?
    then Shown(w, UsersetNode(matched.value.subject), child.value) else {}
  }

  lemma {:induction false} TriesTell(
    w: World, above: seq<string>, known: Answers, stored: seq<RelationTuple>,
    matched: Option<RelationTuple>, child: Option<Trace>, known': Answers)
    requires Tries(w, above, known, stored, matched, child, known') && forall t | t in stored :: t in w.tuples
    ensures Tells(w, known, ShownMatch(w, matched, child), known')
    decreases |known'|, 1, |stored|
  {
    if stored != [] && !GrantsOutright(stored[0].subject, w.subject) {
      if stored[0].subject.Userset? {
        assert stored[0] in w.tuples;
        var asked: Trace, mid: Answers :|
          |mid| <= |known'| && Accounts(w, above, known, UsersetNode(stored[0].subject), asked, mid) &&
          if asked.Allows() then matched == Some(stored[0]) && child == Some(asked) && known' == mid
          else Tries(w, above, mid, stored[1..], matched, child, known');
        AccountTells(w, above, known, UsersetNode(stored[0].subject), asked, mid);
        if !asked.Allows() {
          TriesTell(w, above, mid, stored[1..], matched, child, known');
        }
      } else {
        TriesTell(w, above, known, stored[1..], matched, child, known');
      }
    }
  }

  /** On a store without userset subjects the tree shows everything the request has answered. */
  lemma {:induction false} EverythingIsShown(w: World, n: Node)
    requires TraceNode(w, INITIAL, n, 0).trace.Some?
    ensures Shown(w, n, TraceNode(w, INITIAL, n, 0).trace.value) <= Request(w, Full, n).state.memo.Keys
    ensures NoUsersets(w.tuples) ==>
              Shown(w, n, TraceNode(w, INITIAL, n, 0).trace.value) == Request(w, Full, n).state.memo.Keys
  {
    ExplainAccounts(w, n);
    AccountTells(w, [], map[], n, TraceNode(w, INITIAL, n, 0).trace.value, Request(w, Full, n).state.memo);
  }
}
