/** The full-trace evaluator as a function: same threading as `CheckRuns`, with the decision tree it builds. */
module ExplainRuns {
  import opened Options
  import opened Tuples
  import opened Rewrites
  import opened CheckRuns

  datatype Trace =
    | DirectTrace(obj: ObjectRef, relation: string, subject: SubjectRef, tuplesExamined: seq<RelationTuple>,
                  matched: Option<RelationTuple>, usersetChild: Option<Trace>, allowed: bool)
    | ComputedTrace(relation: string, child: Trace, allowed: bool)
    | TupleToUsersetTrace(tupleRelation: string, computedRelation: string, parents: seq<ObjectRef>,
                          traces: seq<Trace>, allowed: bool)
    | UnionTrace(children: seq<Trace>, allowed: bool)
    | IntersectionTrace(children: seq<Trace>, allowed: bool)
    | ExclusionTrace(base: Trace, subtract: Trace, allowed: bool)
    | CycleTrace(key: string)
    | MaxDepthTrace(depth: nat)
    | CachedTrace(key: string, allowed: bool)
  {
    predicate Allows() {
      match this
      case CycleTrace(_) | MaxDepthTrace(_) => false
      case _ => allowed
    }
  }

  /** `None` stands for the exception of an unknown namespace, relation or permission. */
  datatype TraceRun = TraceRun(state: State, trace: Option<Trace>)
  datatype TracesRun = TracesRun(state: State, traces: Option<seq<Trace>>)

  /** The loop over stored tuples: the tuple that granted, with the trace of the userset it went through. */
  datatype Match = NoMatch | Outright(t: RelationTuple) | Through(t: RelationTuple, child: Trace)
  datatype MatchRun = MatchRun(state: State, found: Option<Match>)

  predicate SomeAllows(ts: seq<Trace>) { exists t | t in ts :: t.Allows() }

  predicate AllAllow(ts: seq<Trace>) { forall t | t in ts :: t.Allows() }

  function TraceNode(w: World, st: State, n: Node, depth: Level): (run: TraceRun)
    decreases MAX_DEPTH + 1 - depth, 4
  {
    var st1 := ReachedBy(st, depth);
    if depth > MAX_DEPTH then
      TraceRun(st1.(metrics := st1.metrics.(hitMaxDepth := true)), Some(MaxDepthTrace(depth)))
    else
      var key := Key(w, n);
      if key in st1.memo then
        TraceRun(st1.(metrics := st1.metrics.(cacheHits := st1.metrics.cacheHits + 1)), Some(CachedTrace(key, st1.memo[key])))
      else if key in st1.visiting then
        TraceRun(st1, Some(CycleTrace(key)))
      else
        match w.Rewrite(n)
        case None => TraceRun(st1, None)
        case Some(e) =>
          var run := TraceExpr(w, Enter(st1, key), n, e, depth);
          var left := Leave(run.state, key);
          if run.trace.None? then TraceRun(left, None)
          else TraceRun(left.(memo := left.memo[key := run.trace.value.Allows()]), run.trace)
  }

  function TraceExpr(w: World, st: State, n: Node, e: UsersetExpr, depth: Depth): (run: TraceRun)
    decreases MAX_DEPTH + 1 - depth, 3, e
  {
    match e
    case Direct => TraceDirect(w, st, n, depth)
    case Computed(r) =>
      var run := TraceNode(w, st, Node(n.obj, r), depth + 1);
      if run.trace.None? then run
      else TraceRun(run.state, Some(ComputedTrace(r, run.trace.value, run.trace.value.Allows())))
    case TupleToUserset(t, c) =>
      var parents := ListObjectsRelatedBy(w.tuples, n.obj, t);
      var run := TraceParents(w, CountParents(st), parents, c, depth);
      if run.traces.None? then TraceRun(run.state, None)
      else TraceRun(run.state, Some(TupleToUsersetTrace(t, c, parents, run.traces.value, SomeAllows(run.traces.value))))
    case Union(cs) =>
      var run := TraceChildren(w, st, n, cs, depth);
      if run.traces.None? then TraceRun(run.state, None)
      else TraceRun(run.state, Some(UnionTrace(run.traces.value, SomeAllows(run.traces.value))))
    case Intersection(cs) =>
      var run := TraceChildren(w, st, n, cs, depth);
      if run.traces.None? then TraceRun(run.state, None)
      else TraceRun(run.state, Some(IntersectionTrace(run.traces.value, AllAllow(run.traces.value))))
    case Exclusion(base, subtract) =>
      var first := TraceExpr(w, st, n, base, depth);
      if first.trace.None? then first
      else
        var second := TraceExpr(w, first.state, n, subtract, depth);
        if second.trace.None? then second
        else
          var allowed := first.trace.value.Allows() && !second.trace.value.Allows();
          TraceRun(second.state, Some(ExclusionTrace(first.trace.value, second.trace.value, allowed)))
  }

  function TraceChildren(w: World, st: State, n: Node, cs: seq<UsersetExpr>, depth: Depth): (run: TracesRun)
    decreases MAX_DEPTH + 1 - depth, 3, cs
  {
    if cs == [] then TracesRun(st, Some([]))
    else
      var first := TraceExpr(w, st, n, cs[0], depth);
      if first.trace.None? then TracesRun(first.state, None)
      else
        var rest := TraceChildren(w, first.state, n, cs[1..], depth);
        if rest.traces.None? then rest else TracesRun(rest.state, Some([first.trace.value] + rest.traces.value))
  }

  function TraceParents(w: World, st: State, parents: seq<ObjectRef>, relation: string, depth: Depth): (run: TracesRun)
    decreases MAX_DEPTH + 1 - depth, 1, |parents|
  {
    if parents == [] then TracesRun(st, Some([]))
    else
      var first := TraceNode(w, st, Node(parents[0], relation), depth + 1);
      if first.trace.None? then TracesRun(first.state, None)
      else
        var rest := TraceParents(w, first.state, parents[1..], relation, depth);
        if rest.traces.None? then rest else TracesRun(rest.state, Some([first.trace.value] + rest.traces.value))
  }

  function TraceDirect(w: World, st: State, n: Node, depth: Depth): (run: TraceRun)
    decreases MAX_DEPTH + 1 - depth, 2
  {
    var stored := ListByObjectRelation(w.tuples, n.obj, n.relation);
    var run := FindMatch(w, CountRead(st), stored, depth);
    if run.found.None? then TraceRun(run.state, None)
    else TraceRun(run.state, Some(MatchTrace(w, n, stored, run.found.value)))
  }

  function MatchTrace(w: World, n: Node, stored: seq<RelationTuple>, found: Match): Trace {
    match found
    case NoMatch => DirectTrace(n.obj, n.relation, w.subject, stored, None, None, false)
    case Outright(t) => DirectTrace(n.obj, n.relation, w.subject, stored, Some(t), None, true)
    case Through(t, child) => DirectTrace(n.obj, n.relation, w.subject, stored, Some(t), Some(child), true)
  }

  function FindMatch(w: World, st: State, stored: seq<RelationTuple>, depth: Depth): (run: MatchRun)
    decreases MAX_DEPTH + 1 - depth, 1, |stored|
  {
    if stored == [] then MatchRun(st, Some(NoMatch))
    else
      var s := stored[0].subject;
      if GrantsOutright(s, w.subject) then MatchRun(st, Some(Outright(stored[0])))
      else if s.Userset? then
        var child := TraceNode(w, st, UsersetNode(s), depth + 1);
        if child.trace.None? then MatchRun(child.state, None)
        else if child.trace.value.Allows() then MatchRun(child.state, Some(Through(stored[0], child.trace.value)))
        else FindMatch(w, child.state, stored[1..], depth)
      else FindMatch(w, st, stored[1..], depth)
  }

  // ----- the tree carries the verdict of the full-mode run -----

  function Verdict(run: TraceRun): Run {
    Run(run.state, if run.trace.None? then None else Some(run.trace.value.Allows()))
  }

  function Verdicts(run: TracesRun, stop: bool): Run {
    Run(run.state, if run.traces.None? then None
                   else Some(if stop then SomeAllows(run.traces.value) else AllAllow(run.traces.value)))
  }

  function FoundVerdict(run: MatchRun): Run {
    Run(run.state, if run.found.None? then None else Some(!run.found.value.NoMatch?))
  }

  lemma {:induction false} NodeVerdict(w: World, st: State, n: Node, depth: Level)
    ensures Verdict(TraceNode(w, st, n, depth)) == CheckNode(w, Full, st, n, depth)
    decreases MAX_DEPTH + 1 - depth, 4
  {
    if depth <= MAX_DEPTH && w.Rewrite(n).Some? {
      ExprVerdict(w, Enter(ReachedBy(st, depth), Key(w, n)), n, w.Rewrite(n).value, depth);
    }
  }

  lemma {:induction false} ExprVerdict(w: World, st: State, n: Node, e: UsersetExpr, depth: Depth)
    ensures Verdict(TraceExpr(w, st, n, e, depth)) == Evaluate(w, Full, st, n, e, depth)
    decreases MAX_DEPTH + 1 - depth, 3, e
  {
    match e
    case Direct =>
      MatchVerdict(w, CountRead(st), ListByObjectRelation(w.tuples, n.obj, n.relation), depth);
    case Computed(r) =>
      NodeVerdict(w, st, Node(n.obj, r), depth + 1);
    case TupleToUserset(t, c) =>
      ParentsVerdict(w, CountParents(st), ListObjectsRelatedBy(w.tuples, n.obj, t), c, depth);
    case Union(cs) =>
      ChildrenVerdict(w, st, n, cs, true, depth);
    case Intersection(cs) =>
      ChildrenVerdict(w, st, n, cs, false, depth);
    case Exclusion(base, subtract) =>
      ExprVerdict(w, st, n, base, depth);
      ExprVerdict(w, TraceExpr(w, st, n, base, depth).state, n, subtract, depth);
  }

  /** One more traced branch in front: how its verdict joins the verdict of the others. */
  lemma PrependVerdict(t: Trace, rest: TracesRun, stop: bool)
    requires rest.traces.Some?
    ensures Verdicts(TracesRun(rest.state, Some([t] + rest.traces.value)), stop) ==
            if t.Allows() == stop then Run(rest.state, Some(stop)) else Verdicts(rest, stop)
  {
    assert forall u :: u in [t] + rest.traces.value <==> u == t || u in rest.traces.value;
  }

  lemma {:induction false} ChildrenVerdict(w: World, st: State, n: Node, cs: seq<UsersetExpr>, stop: bool, depth: Depth)
    ensures Verdicts(TraceChildren(w, st, n, cs, depth), stop) == EvaluateUntil(w, Full, st, n, cs, stop, depth)
    decreases MAX_DEPTH + 1 - depth, 3, cs
  {
    if cs != [] {
      var first := TraceExpr(w, st, n, cs[0], depth);
      ExprVerdict(w, st, n, cs[0], depth);
      ChildrenVerdict(w, first.state, n, cs[1..], stop, depth);
      var rest := TraceChildren(w, first.state, n, cs[1..], depth);
      if first.trace.Some? && rest.traces.Some? {
        PrependVerdict(first.trace.value, rest, stop);
      }
    }
  }

  lemma {:induction false} ParentsVerdict(w: World, st: State, parents: seq<ObjectRef>, c: string, depth: Depth)
    ensures Verdicts(TraceParents(w, st, parents, c, depth), true) == AnyParent(w, Full, st, parents, c, depth)
    decreases MAX_DEPTH + 1 - depth, 1, |parents|
  {
    if parents != [] {
      var n := Node(parents[0], c);
      var first := TraceNode(w, st, n, depth + 1);
      NodeVerdict(w, st, n, depth + 1);
      if first.trace.Some? {
        ParentsVerdict(w, first.state, parents[1..], c, depth);
        var rest := TraceParents(w, first.state, parents[1..], c, depth);
        if rest.traces.Some? {
          PrependVerdict(first.trace.value, rest, true);
        }
      }
    }
  }

  lemma {:induction false} MatchVerdict(w: World, st: State, stored: seq<RelationTuple>, depth: Depth)
    ensures FoundVerdict(FindMatch(w, st, stored, depth)) == AnyTuple(w, Full, st, stored, depth)
    decreases MAX_DEPTH + 1 - depth, 1, |stored|
  {
    if stored != [] {
      var s := stored[0].subject;
      if s.Userset? {
        NodeVerdict(w, st, UsersetNode(s), depth + 1);
        MatchVerdict(w, TraceNode(w, st, UsersetNode(s), depth + 1).state, stored[1..], depth);
      } else {
        MatchVerdict(w, st, stored[1..], depth);
      }
    }
  }

  /** Explain's answer is the answer of the full-mode request. */
  lemma {:induction false} ExplainVerdict(w: World, n: Node)
    ensures Verdict(TraceNode(w, INITIAL, n, 0)) == Request(w, Full, n)
  {
    NodeVerdict(w, INITIAL, n, 0);
  }
}
