/**
 * The check evaluator in the form it has: one context object per request whose memo, cycle guard and counters
 * every call updates, and loops that leave early. Each method is proved to do what module `CheckRuns` says.
 */
module Check {
  import opened Options
  import opened Tuples
  import opened Rewrites
  import opened CheckRuns

  class CheckContext {
    const world: World
    var memo: map<string, bool>
    var visiting: set<string>
    var metrics: Metrics
    ghost var evaluated: seq<string>

    constructor (w: World)
      ensures world == w && View() == INITIAL
    {
      world := w;
      memo, visiting, metrics := map[], {}, Metrics(0, 0, 0, 0, false);
      evaluated := [];
    }

    ghost function View(): State
      reads this
    {
      State(memo, visiting, metrics, evaluated)
    }

    /** The guard holds exactly one key per level above this one, on every call. */
    method CheckInner(n: Node, depth: Level) returns (verdict: Option<bool>)
      requires |visiting| == depth
      modifies this
      ensures Run(View(), verdict) == CheckNode(world, ShortCircuit, old(View()), n, depth)
      decreases MAX_DEPTH + 1 - depth, 4
    {
      if depth > metrics.maxDepth {
        metrics := metrics.(maxDepth := depth);
      }
      if depth > MAX_DEPTH {
        metrics := metrics.(hitMaxDepth := true);
        return Some(false);
      }
      var key := MemoKey(n.obj, n.relation, world.subject);
      if key in memo {
        metrics := metrics.(cacheHits := metrics.cacheHits + 1);
        return Some(memo[key]);
      }
      if key in visiting {
        return Some(false);
      }
      visiting := visiting + {key};
      var expr := Resolve(world.model, n.obj.namespace, n.relation);
      if expr.None? {
        visiting := visiting - {key};
        assert visiting == old(visiting);
        return None;
      }
      evaluated := evaluated + [key];
      assert View() == Enter(ReachedBy(old(View()), depth), key);
      verdict := EvaluateExpr(n, expr.value, depth);
      visiting := visiting - {key};
      if verdict.Some? {
        memo := memo[key := verdict.value];
      }
    }

    method EvaluateExpr(n: Node, e: UsersetExpr, depth: Depth) returns (verdict: Option<bool>)
      requires |visiting| == depth + 1
      modifies this
      ensures Run(View(), verdict) == Evaluate(world, ShortCircuit, old(View()), n, e, depth)
      decreases MAX_DEPTH + 1 - depth, 3, e
    {
      match e
      case Direct =>
        verdict := HasDirectTuple(n, depth);
      case Computed(r) =>
        verdict := CheckInner(Node(n.obj, r), depth + 1);
      case TupleToUserset(t, c) =>
        metrics := metrics.(parentLookups := metrics.parentLookups + 1);
        verdict := SomeParentAllows(ListObjectsRelatedBy(world.tuples, n.obj, t), c, depth);
      case Union(cs) =>
        verdict := SomeChildAllows(n, cs, depth);
      case Intersection(cs) =>
        verdict := EveryChildAllows(n, cs, depth);
      case Exclusion(base, subtract) =>
        verdict := EvaluateExpr(n, base, depth);
        if verdict == Some(true) {
          verdict := EvaluateExpr(n, subtract, depth);
          if verdict.Some? {
            verdict := Some(!verdict.value);
          }
        }
    }

    method SomeParentAllows(parents: seq<ObjectRef>, relation: string, depth: Depth) returns (verdict: Option<bool>)
      requires |visiting| == depth + 1
      modifies this
      ensures Run(View(), verdict) == AnyParent(world, ShortCircuit, old(View()), parents, relation, depth)
      decreases MAX_DEPTH + 1 - depth, 2
    {
      for i := 0 to |parents|
        invariant |visiting| == depth + 1
        invariant AnyParent(world, ShortCircuit, View(), parents[i..], relation, depth) ==
                  AnyParent(world, ShortCircuit, old(View()), parents, relation, depth)
      {
        assert parents[i..][1..] == parents[i + 1..];
        verdict := CheckInner(Node(parents[i], relation), depth + 1);
        if verdict != Some(false) {
          return;
        }
      }
      verdict := Some(false);
    }

    method SomeChildAllows(n: Node, cs: seq<UsersetExpr>, depth: Depth) returns (verdict: Option<bool>)
      requires |visiting| == depth + 1
      modifies this
      ensures Run(View(), verdict) == EvaluateUntil(world, ShortCircuit, old(View()), n, cs, true, depth)
      decreases MAX_DEPTH + 1 - depth, 3, cs
    {
      for i := 0 to |cs|
        invariant |visiting| == depth + 1
        invariant EvaluateUntil(world, ShortCircuit, View(), n, cs[i..], true, depth) ==
                  EvaluateUntil(world, ShortCircuit, old(View()), n, cs, true, depth)
      {
        assert cs[i..][1..] == cs[i + 1..];
        verdict := EvaluateExpr(n, cs[i], depth);
        if verdict != Some(false) {
          return;
        }
      }
      verdict := Some(false);
    }

    method EveryChildAllows(n: Node, cs: seq<UsersetExpr>, depth: Depth) returns (verdict: Option<bool>)
      requires |visiting| == depth + 1
      modifies this
      ensures Run(View(), verdict) == EvaluateUntil(world, ShortCircuit, old(View()), n, cs, false, depth)
      decreases MAX_DEPTH + 1 - depth, 3, cs
    {
      for i := 0 to |cs|
        invariant |visiting| == depth + 1
        invariant EvaluateUntil(world, ShortCircuit, View(), n, cs[i..], false, depth) ==
                  EvaluateUntil(world, ShortCircuit, old(View()), n, cs, false, depth)
      {
        assert cs[i..][1..] == cs[i + 1..];
        verdict := EvaluateExpr(n, cs[i], depth);
        if verdict != Some(true) {
          return;
        }
      }
      verdict := Some(true);
    }

    method HasDirectTuple(n: Node, depth: Depth) returns (verdict: Option<bool>)
      requires |visiting| == depth + 1
      modifies this
      ensures Run(View(), verdict) ==
              AnyTuple(world, ShortCircuit, CountRead(old(View())),
                       ListByObjectRelation(world.tuples, n.obj, n.relation), depth)
      decreases MAX_DEPTH + 1 - depth, 2
    {
      metrics := metrics.(tupleReads := metrics.tupleReads + 1);
      var stored := ListByObjectRelation(world.tuples, n.obj, n.relation);
      ghost var whole := AnyTuple(world, ShortCircuit, View(), stored, depth);
      assert View() == CountRead(old(View()));
      for i := 0 to |stored|
        invariant |visiting| == depth + 1
        invariant AnyTuple(world, ShortCircuit, View(), stored[i..], depth) == whole
      {
        var s := stored[i].subject;
        if world.subject.Concrete? && s.Concrete? && s.namespace == world.subject.namespace && s.id == world.subject.id {
          return Some(true);
        }
        if s.Wildcard? && world.subject.Concrete? && s.namespace == world.subject.namespace {
          return Some(true);
        }
        if s.Userset? {
          verdict := CheckInner(UsersetNode(s), depth + 1);
          if verdict != Some(false) {
            return;
          }
        }
      }
      verdict := Some(false);
    }
  }

  /** The public entry point: the verdict and the counters handed to the sink are those of the modelled request. */
  method CheckRequest(w: World, n: Node) returns (verdict: Option<bool>, metrics: Metrics)
    ensures verdict == Request(w, ShortCircuit, n).verdict
    ensures metrics == Request(w, ShortCircuit, n).state.metrics
  {
    var ctx := new CheckContext(w);
    verdict := ctx.CheckInner(n, 0);
    metrics := ctx.metrics;
  }
}
