/** The evaluator as a function from one request state to the next: memo, cycle guard, counters, short-circuits, cap. */
module CheckRuns {
  import opened Options
  import opened Tuples
  import opened Rewrites

  // The class of module `Check` is proved to compute the short-circuiting mode, the one of module `Explain` the full mode;
  // the theorems are about both.

  const MAX_DEPTH: nat := 32

  /** A depth a call can reach: one below the cap is where it is cut. */
  type Level = d: nat | d <= MAX_DEPTH + 1

  /** A depth at which a rewrite is evaluated. */
  type Depth = d: nat | d <= MAX_DEPTH

  /** `check` leaves a loop as soon as its answer is known; `explain` looks at every branch. */
  datatype Mode = ShortCircuit | Full

  datatype Metrics = Metrics(tupleReads: nat, parentLookups: nat, cacheHits: nat, maxDepth: nat, hitMaxDepth: bool)

  /** `evaluated` is bookkeeping of the model only: the keys whose rewrite has been evaluated, in order. */
  datatype State = State(memo: map<string, bool>, visiting: set<string>, metrics: Metrics, evaluated: seq<string>)

  const INITIAL := State(map[], {}, Metrics(0, 0, 0, 0, false), [])

  /** `verdict == None` stands for the exception of an unknown namespace, relation or permission. */
  datatype Run = Run(state: State, verdict: Option<bool>)

  function Key(w: World, n: Node): string {
    MemoKey(n.obj, n.relation, w.subject)
  }

  function ReachedBy(st: State, depth: nat): State {
    if depth > st.metrics.maxDepth then st.(metrics := st.metrics.(maxDepth := depth)) else st
  }

  function Enter(st: State, key: string): State {
    st.(visiting := st.visiting + {key}, evaluated := st.evaluated + [key])
  }

  function Leave(st: State, key: string): State {
    st.(visiting := st.visiting - {key})
  }

  function Remember(run: Run, key: string): Run {
    if run.verdict.None? then run
    else run.(state := run.state.(memo := run.state.memo[key := run.verdict.value]))
  }

  function CountRead(st: State): State {
    st.(metrics := st.metrics.(tupleReads := st.metrics.tupleReads + 1))
  }

  function CountParents(st: State): State {
    st.(metrics := st.metrics.(parentLookups := st.metrics.parentLookups + 1))
  }

  /** What every run keeps: the cycle guard is restored, no memo entry is dropped, a reported cut stays reported. */
  ghost predicate Extends(st: State, st': State) {
    && st'.visiting == st.visiting
    && st.memo.Keys <= st'.memo.Keys
    && (st.metrics.hitMaxDepth ==> st'.metrics.hitMaxDepth)
  }

  function CheckNode(w: World, mode: Mode, st: State, n: Node, depth: Level): (run: Run)
    ensures Extends(st, run.state)
    decreases MAX_DEPTH + 1 - depth, 4
  {
    var st1 := ReachedBy(st, depth);
    if depth > MAX_DEPTH then
      Run(st1.(metrics := st1.metrics.(hitMaxDepth := true)), Some(false))
    else
      var key := Key(w, n);
      if key in st1.memo then
        Run(st1.(metrics := st1.metrics.(cacheHits := st1.metrics.cacheHits + 1)), Some(st1.memo[key]))
      else if key in st1.visiting then
        Run(st1, Some(false))
      else
        match w.Rewrite(n)
        case None => Run(st1, None)
        case Some(e) =>
          var run := Evaluate(w, mode, Enter(st1, key), n, e, depth);
          Remember(Run(Leave(run.state, key), run.verdict), key)
  }

  function Evaluate(w: World, mode: Mode, st: State, n: Node, e: UsersetExpr, depth: Depth): (run: Run)
    ensures Extends(st, run.state)
    decreases MAX_DEPTH + 1 - depth, 3, e
  {
    match e
    case Direct =>
      AnyTuple(w, mode, CountRead(st),
               ListByObjectRelation(w.tuples, n.obj, n.relation), depth)
    case Computed(r) => CheckNode(w, mode, st, Node(n.obj, r), depth + 1)
    case TupleToUserset(t, c) =>
      AnyParent(w, mode, CountParents(st),
                ListObjectsRelatedBy(w.tuples, n.obj, t), c, depth)
    case Union(cs) => EvaluateUntil(w, mode, st, n, cs, true, depth)
    case Intersection(cs) => EvaluateUntil(w, mode, st, n, cs, false, depth)
    case Exclusion(base, subtract) =>
      var first := Evaluate(w, mode, st, n, base, depth);
      if first.verdict.None? || (mode == ShortCircuit && !first.verdict.value) then first
      else
        var second := Evaluate(w, mode, first.state, n, subtract, depth);
        if second.verdict.None? then second
        else Run(second.state, Some(first.verdict.value && !second.verdict.value))
  }

  /** The loop over children: some child answering `stop` makes it `stop`; all of them answering the other way is `!stop`. */
  function EvaluateUntil(w: World, mode: Mode, st: State, n: Node, cs: seq<UsersetExpr>, stop: bool, depth: Depth): (run: Run)
    ensures Extends(st, run.state)
    decreases MAX_DEPTH + 1 - depth, 3, cs
  {
    if cs == [] then Run(st, Some(!stop))
    else
      var first := Evaluate(w, mode, st, n, cs[0], depth);
      if first.verdict.None? || (mode == ShortCircuit && first.verdict.value == stop) then first
      else
        var rest := EvaluateUntil(w, mode, first.state, n, cs[1..], stop, depth);
        if rest.verdict.Some? && first.verdict.value == stop then Run(rest.state, Some(stop)) else rest
  }

  function AnyParent(w: World, mode: Mode, st: State, parents: seq<ObjectRef>, relation: string, depth: Depth): (run: Run)
    ensures Extends(st, run.state)
    decreases MAX_DEPTH + 1 - depth, 1, |parents|
  {
    if parents == [] then Run(st, Some(false))
    else
      var first := CheckNode(w, mode, st, Node(parents[0], relation), depth + 1);
      if first.verdict.None? || (mode == ShortCircuit && first.verdict.value) then first
      else
        var rest := AnyParent(w, mode, first.state, parents[1..], relation, depth);
        if rest.verdict.Some? && first.verdict.value then Run(rest.state, Some(true)) else rest
  }

  /** Stored tuples are tried in order and the first grant ends the loop, in both modes. */
  function AnyTuple(w: World, mode: Mode, st: State, stored: seq<RelationTuple>, depth: Depth): (run: Run)
    ensures Extends(st, run.state)
    decreases MAX_DEPTH + 1 - depth, 1, |stored|
  {
    if stored == [] then Run(st, Some(false))
    else
      var s := stored[0].subject;
      if GrantsOutright(s, w.subject) then Run(st, Some(true))
      else if s.Userset? then
        var first := CheckNode(w, mode, st, UsersetNode(s), depth + 1);
        if first.verdict == Some(false) then AnyTuple(w, mode, first.state, stored[1..], depth) else first
      else AnyTuple(w, mode, st, stored[1..], depth)
  }

  /** One request. */
  function Request(w: World, mode: Mode, n: Node): Run {
    CheckNode(w, mode, INITIAL, n, 0)
  }
}
