/** The full-trace evaluator in the form it has, and the ways in which its verdict is check's verdict. */
module Explain {
  import opened Options
  import opened Tuples
  import opened Rewrites
  import opened Acyclic
  import opened CheckRuns
  import opened CheckSoundness
  import opened CheckCompleteness
  import opened CheckAcyclic
  import opened AcyclicAnswers
  import opened ExplainRuns

  // It builds the trees of `ExplainRuns`; it looks at every branch and so remembers different things than check.

  /** Memo and cycle guard are the request's state; the counters exist for the specification only. */
  class ExplainContext {
    const world: World
    var memo: map<string, bool>
    var visiting: set<string>
    ghost var metrics: Metrics
    ghost var evaluated: seq<string>

    constructor (w: World)
      ensures world == w && View() == INITIAL
    {
      world := w;
      memo, visiting := map[], {};
      metrics, evaluated := Metrics(0, 0, 0, 0, false), [];
    }

    ghost function View(): State
      reads this
    {
      State(memo, visiting, metrics, evaluated)
    }

    method TraceCheck(n: Node, depth: Level) returns (trace: Option<Trace>)
      modifies this
      ensures TraceRun(View(), trace) == TraceNode(world, old(View()), n, depth)
      decreases MAX_DEPTH + 1 - depth, 4
    {
      metrics := ReachedBy(View(), depth).metrics;
      if depth > MAX_DEPTH {
        metrics := metrics.(hitMaxDepth := true);
        return Some(MaxDepthTrace(depth));
      }
      var key := MemoKey(n.obj, n.relation, world.subject);
      if key in memo {
        metrics := metrics.(cacheHits := metrics.cacheHits + 1);
        return Some(CachedTrace(key, memo[key]));
      }
      if key in visiting {
        return Some(CycleTrace(key));
      }
      visiting := visiting + {key};
      var expr := Resolve(world.model, n.obj.namespace, n.relation);
      if expr.None? {
        visiting := visiting - {key};
        assert visiting == old(visiting);
        return None;
      }
      evaluated := evaluated + [key];
      assert View() == Enter(ReachedBy(old(View()), depth), key);
      trace := TraceRewrite(n, expr.value, depth);
      visiting := visiting - {key};
      if trace.Some? {
        memo := memo[key := trace.value.Allows()];
      }
    }

    method TraceRewrite(n: Node, e: UsersetExpr, depth: Depth) returns (trace: Option<Trace>)
      modifies this
      ensures TraceRun(View(), trace) == TraceExpr(world, old(View()), n, e, depth)
      decreases MAX_DEPTH + 1 - depth, 3, e
    {
      match e
      case Direct =>
        trace := TraceStored(n, depth);
      case Computed(r) =>
        trace := TraceCheck(Node(n.obj, r), depth + 1);
        if trace.Some? {
          trace := Some(ComputedTrace(r, trace.value, trace.value.Allows()));
        }
      case TupleToUserset(t, c) =>
        var parents := ListObjectsRelatedBy(world.tuples, n.obj, t);
        metrics := CountParents(View()).metrics;
        var results := TraceEachParent(parents, c, depth);
        trace := if results.None? then None
                 else Some(TupleToUsersetTrace(t, c, parents, results.value, SomeAllows(results.value)));
      case Union(cs) =>
        var children := TraceEachChild(n, cs, depth);
        trace := if children.None? then None else Some(UnionTrace(children.value, SomeAllows(children.value)));
      case Intersection(cs) =>
        var children := TraceEachChild(n, cs, depth);
        trace := if children.None? then None else Some(IntersectionTrace(children.value, AllAllow(children.value)));
      case Exclusion(base, subtract) =>
        var first := TraceRewrite(n, base, depth);
        if first.None? {
          return None;
        }
        var second := TraceRewrite(n, subtract, depth);
        trace := if second.None? then None
                 else Some(ExclusionTrace(first.value, second.value, first.value.Allows() && !second.value.Allows()));
    }

    /** The traces of all children, pushed one by one; none is skipped. */
    method TraceEachChild(n: Node, cs: seq<UsersetExpr>, depth: Depth) returns (traces: Option<seq<Trace>>)
      modifies this
      ensures TracesRun(View(), traces) == TraceChildren(world, old(View()), n, cs, depth)
      decreases MAX_DEPTH + 1 - depth, 3, cs
    {
      var out: seq<Trace> := [];
      assert cs[0..] == cs;
      PushNone(TraceChildren(world, View(), n, cs, depth));
      for i := 0 to |cs|
        invariant Prepended(out, TraceChildren(world, View(), n, cs[i..], depth)) ==
                  TraceChildren(world, old(View()), n, cs, depth)
      {
        assert cs[i..][1..] == cs[i + 1..];
        var t := TraceRewrite(n, cs[i], depth);
        if t.None? {
          return None;
        }
        PushOne(out, t.value, TraceChildren(world, View(), n, cs[i + 1..], depth));
        out := out + [t.value];
      }
      assert out + [] == out;
      traces := Some(out);
    }

    method TraceEachParent(parents: seq<ObjectRef>, relation: string, depth: Depth) returns (traces: Option<seq<Trace>>)
      modifies this
      ensures TracesRun(View(), traces) == TraceParents(world, old(View()), parents, relation, depth)
      decreases MAX_DEPTH + 1 - depth, 2
    {
      var out: seq<Trace> := [];
      assert parents[0..] == parents;
      PushNone(TraceParents(world, View(), parents, relation, depth));
      for i := 0 to |parents|
        invariant Prepended(out, TraceParents(world, View(), parents[i..], relation, depth)) ==
                  TraceParents(world, old(View()), parents, relation, depth)
      {
        assert parents[i..][1..] == parents[i + 1..];
        var t := TraceCheck(Node(parents[i], relation), depth + 1);
        if t.None? {
          return None;
        }
        PushOne(out, t.value, TraceParents(world, View(), parents[i + 1..], relation, depth));
        out := out + [t.value];
      }
      assert out + [] == out;
      traces := Some(out);
    }

    method TraceStored(n: Node, depth: Depth) returns (trace: Option<Trace>)
      modifies this
      ensures TraceRun(View(), trace) == TraceDirect(world, old(View()), n, depth)
      decreases MAX_DEPTH + 1 - depth, 2
    {
      var stored := ListByObjectRelation(world.tuples, n.obj, n.relation);
      metrics := CountRead(View()).metrics;
      assert View() == CountRead(old(View()));
      var found := FirstMatch(stored, depth);
      trace := if found.None? then None else Some(MatchTrace(world, n, stored, found.value));
    }

    /** The loop over stored tuples, left at the first one that grants. */
    method FirstMatch(stored: seq<RelationTuple>, depth: Depth) returns (found: Option<Match>)
      modifies this
      ensures MatchRun(View(), found) == FindMatch(world, old(View()), stored, depth)
      decreases MAX_DEPTH + 1 - depth, 1
    {
      for i := 0 to |stored|
        invariant FindMatch(world, View(), stored[i..], depth) == FindMatch(world, old(View()), stored, depth)
      {
        assert stored[i..][1..] == stored[i + 1..];
        var s := stored[i].subject;
        if world.subject.Concrete? && s.Concrete? && s.namespace == world.subject.namespace && s.id == world.subject.id {
          return Some(Outright(stored[i]));
        }
        if s.Wildcard? && world.subject.Concrete? && s.namespace == world.subject.namespace {
          return Some(Outright(stored[i]));
        }
        if s.Userset? {
          var child := TraceCheck(UsersetNode(s), depth + 1);
          if child.None? {
            return None;
          }
          if child.value.Allows() {
            return Some(Through(stored[i], child.value));
          }
        }
      }
      found := Some(NoMatch);
    }
  }

  ghost function Prepended(out: seq<Trace>, rest: TracesRun): TracesRun {
    TracesRun(rest.state, if rest.traces.None? then None else Some(out + rest.traces.value))
  }

  lemma PushNone(rest: TracesRun)
    ensures Prepended([], rest) == rest
  {
    if rest.traces.Some? {
      assert [] + rest.traces.value == rest.traces.value;
    }
  }

  lemma PushOne(out: seq<Trace>, t: Trace, rest: TracesRun)
    ensures Prepended(out + [t], rest) == Prepended(out, Prepended([t], rest))
  {
    if rest.traces.Some? {
      assert out + [t] + rest.traces.value == out + ([t] + rest.traces.value);
    }
  }

  /** The public entry point. */
  method ExplainRequest(w: World, n: Node) returns (trace: Option<Trace>)
    ensures trace == TraceNode(w, INITIAL, n, 0).trace
  {
    var ctx := new ExplainContext(w);
    trace := ctx.TraceCheck(n, 0);
  }

  /** Explain reached the depth cap somewhere. */
  ghost predicate ExplainCut(w: World, n: Node) {
    TraceNode(w, INITIAL, n, 0).state.metrics.hitMaxDepth
  }

  /** On acyclic data within the cap, every expression form: whenever explain answers, check does, and alike. */
  lemma {:induction false} ExplainAgreesOnAcyclicData(w: World, n: Node)
    requires KeyableWorld(w) && Keyable(n.obj) && PathsWithin(w, n, 32)
    requires TraceNode(w, INITIAL, n, 0).trace.Some?
    ensures Request(w, ShortCircuit, n).verdict == Some(TraceNode(w, INITIAL, n, 0).trace.value.Allows())
  {
    ExplainVerdict(w, n);
    FullAnswersImpliesCheckAnswers(w, n);
    CheckIsDenotation(w, Full, n);
    CheckIsDenotation(w, ShortCircuit, n);
  }

  /** On cyclic data, union-only models: whenever both answer and neither reaches the cap, they answer alike. */
  lemma {:induction false} ExplainAgreesOnUnions(w: World, n: Node)
    requires KeyableWorld(w) && Keyable(n.obj) && UnionOnlyModel(w)
    requires TraceNode(w, INITIAL, n, 0).trace.Some? && Request(w, ShortCircuit, n).verdict.Some?
    requires !ExplainCut(w, n) && !Request(w, ShortCircuit, n).state.metrics.hitMaxDepth
    ensures TraceNode(w, INITIAL, n, 0).trace.value.Allows() == Request(w, ShortCircuit, n).verdict.value
  {
    ExplainVerdict(w, n);
    CheckIsLeastFixpoint(w, Full, n);
    CheckIsLeastFixpoint(w, ShortCircuit, n);
  }
}
