/**
 * Why the fixpoint theorem stops at union-only models.
 *
 * One intersection over a cyclic rewrite is enough for a provisional `false` to be remembered and used after its
 * reason is gone. The model is `perm = grant & loop; grant = loop | owner; loop = grant`, with one tuple making alice
 * an owner.
 */
module CheckCounterexample {
  import opened Options
  import opened Text
  import opened Tuples
  import opened Rewrites
  import opened Models
  import opened SmallModels
  import opened CheckRuns
  import ValidatedModels

  const DOC := ObjectRef("doc", "1")
  const ALICE := Concrete("user", "alice")

  const PERMISSIONS: map<string, UsersetExpr> := map[
    "perm" := Intersection([Computed("grant"), Computed("loop")]),
    "grant" := Union([Computed("loop"), Computed("owner")]),
    "loop" := Computed("grant")
  ]

  const USERS := NamespaceDef("user", map[], map[])
  const DOCS := NamespaceDef("doc", map["owner" := ["user"]], PERMISSIONS)

  const WORLD := World(map["user" := USERS, "doc" := DOCS], [RelationTuple(DOC, "owner", ALICE)], ALICE)

  // ----- the model is one the constructor accepts, the store one it allows -----

  lemma PermissionNames()
    ensures IsName("perm") && IsName("grant") && IsName("loop") && IsName("owner")
    ensures "perm" != "owner" && "grant" != "owner" && "loop" != "owner"
  {
    assert "perm"[0] != "owner"[0] && "grant"[0] != "owner"[0] && "loop"[0] != "owner"[0];
  }

  lemma DocsExprsOk(model: Model, d: NamespaceDef)
    requires Declares(d, "grant") && Declares(d, "loop") && Declares(d, "owner")
    ensures ExprOk(model, d, Intersection([Computed("grant"), Computed("loop")]))
    ensures ExprOk(model, d, Union([Computed("loop"), Computed("owner")]))
    ensures ExprOk(model, d, Computed("grant"))
  {
  }

  lemma DocsPermissionsOk(model: Model, d: NamespaceDef)
    requires d.permissions == PERMISSIONS && d.relations.Keys == {"owner"}
    ensures PermissionsOk(model, d)
  {
    PermissionNames();
    DocsExprsOk(model, d);
    forall p | p in d.permissions ensures IsName(p) && p !in d.relations && ExprOk(model, d, d.permissions[p]) {
      assert p == "perm" || p == "grant" || p == "loop";
    }
  }

  lemma WorldIsValid()
    ensures WORLD.model == ByName([USERS, DOCS]) && ModelOk([USERS, DOCS])
    ensures ValidatedModels.ConformingStore(WORLD)
  {
    UserAndDoc();
    PermissionNames();
    ByNameOfTwo(USERS, DOCS);
    SubjectsOnlyOk(WORLD.model, USERS);
    OneRelationOk(WORLD.model, DOCS, "owner", ["user"]);
    DocsPermissionsOk(WORLD.model, DOCS);
    TwoDefsOk(USERS, DOCS);
    PlainSubject("user");
    assert "user" in DOCS.relations["owner"];
    assert ValidatedModels.Allows(ParseSubjectType("user"), ALICE);
  }

  // ----- the request -----

  function K(name: string): string { Key(WORLD, Node(DOC, name)) }

  lemma KeysDiffer(a: string, b: string)
    requires a != b
    ensures K(a) != K(b)
  {
    if K(a) == K(b) {
      MemoKeyInjective(DOC, a, DOC, b, ALICE);
    }
  }

  lemma AllKeysDiffer()
    ensures K("perm") != K("grant") && K("perm") != K("loop") && K("perm") != K("owner")
    ensures K("grant") != K("loop") && K("grant") != K("owner") && K("loop") != K("owner")
  {
    assert "perm"[0] != "grant"[0] && "perm"[0] != "loop"[0] && "perm"[0] != "owner"[0];
    assert "grant"[0] != "loop"[0] && "grant"[0] != "owner"[0] && "loop"[0] != "owner"[0];
    KeysDiffer("perm", "grant");
    KeysDiffer("perm", "loop");
    KeysDiffer("perm", "owner");
    KeysDiffer("grant", "loop");
    KeysDiffer("grant", "owner");
    KeysDiffer("loop", "owner");
  }

  lemma Rewriting()
    ensures WORLD.Rewrite(Node(DOC, "perm")) == Some(Intersection([Computed("grant"), Computed("loop")]))
    ensures WORLD.Rewrite(Node(DOC, "grant")) == Some(Union([Computed("loop"), Computed("owner")]))
    ensures WORLD.Rewrite(Node(DOC, "loop")) == Some(Computed("grant"))
    ensures WORLD.Rewrite(Node(DOC, "owner")) == Some(Direct)
  {
    assert "perm"[0] != "grant"[0] && "perm"[0] != "loop"[0] && "perm"[0] != "owner"[0];
    assert "grant"[0] != "loop"[0] && "grant"[0] != "owner"[0] && "loop"[0] != "owner"[0];
  }

  ghost predicate Fresh(st: State, name: string) {
    K(name) !in st.memo && K(name) !in st.visiting
  }

  function Entered(st: State, name: string, depth: nat): State {
    Enter(ReachedBy(st, depth), K(name))
  }

  /** A fresh question is its rewrite, evaluated with the question in progress, and then remembered. */
  lemma AskFresh(st: State, name: string, e: UsersetExpr, depth: Depth) returns (inner: Run, run: Run)
    requires Fresh(st, name) && WORLD.Rewrite(Node(DOC, name)) == Some(e)
    ensures inner == Evaluate(WORLD, ShortCircuit, Entered(st, name, depth), Node(DOC, name), e, depth)
    ensures run == CheckNode(WORLD, ShortCircuit, st, Node(DOC, name), depth)
    ensures run.verdict == inner.verdict
    ensures run.verdict.Some? ==> run.state.memo == inner.state.memo[K(name) := run.verdict.value]
  {
    inner := Evaluate(WORLD, ShortCircuit, Entered(st, name, depth), Node(DOC, name), e, depth);
    run := CheckNode(WORLD, ShortCircuit, st, Node(DOC, name), depth);
  }

  /** Alice owns the document, so asking for `owner` afresh answers `true` and remembers only that. */
  lemma OwnerAnswers(st: State, depth: Depth)
    requires Fresh(st, "owner")
    ensures var run := CheckNode(WORLD, ShortCircuit, st, Node(DOC, "owner"), depth);
            run.verdict == Some(true) && run.state.memo == st.memo[K("owner") := true]
  {
    Rewriting();
    var t := RelationTuple(DOC, "owner", ALICE);
    assert WORLD.tuples[1..] == [];
    assert ListByObjectRelation([], DOC, "owner") == [];
    assert ListByObjectRelation(WORLD.tuples, DOC, "owner") == [t];
    var inner, run := AskFresh(st, "owner", Direct, depth);
  }

  /** `loop` asked while `grant` is in progress: the cycle guard answers `false`, and that is remembered. */
  lemma LoopProvisional(st: State, depth: nat)
    requires depth < MAX_DEPTH && Fresh(st, "loop")
    requires K("grant") !in st.memo && K("grant") in st.visiting
    ensures var run := CheckNode(WORLD, ShortCircuit, st, Node(DOC, "loop"), depth);
            run.verdict == Some(false) && run.state.memo == st.memo[K("loop") := false]
  {
    Rewriting();
    var st1 := Entered(st, "loop", depth);
    assert CheckNode(WORLD, ShortCircuit, st1, Node(DOC, "grant"), depth + 1).verdict == Some(false);
    assert CheckNode(WORLD, ShortCircuit, st1, Node(DOC, "grant"), depth + 1).state.memo == st.memo;
    var inner, run := AskFresh(st, "loop", Computed("grant"), depth);
  }

  /** The loop over two children, when the first does not stop it and the second does. */
  lemma FirstOrSecond(st: State, n: Node, a: UsersetExpr, b: UsersetExpr, stop: bool, depth: Depth)
    requires Evaluate(WORLD, ShortCircuit, st, n, a, depth).verdict == Some(!stop)
    requires Evaluate(WORLD, ShortCircuit, Evaluate(WORLD, ShortCircuit, st, n, a, depth).state, n, b, depth).verdict == Some(stop)
    ensures EvaluateUntil(WORLD, ShortCircuit, st, n, [a, b], stop, depth) ==
            Evaluate(WORLD, ShortCircuit, Evaluate(WORLD, ShortCircuit, st, n, a, depth).state, n, b, depth)
  {
    assert [a, b][1..] == [b];
  }

  /** `grant` asked with nothing remembered: `true` by the owner, with `loop` left remembered as `false`. */
  lemma GrantOperands(st: State, depth: nat)
    requires depth + 2 <= MAX_DEPTH
    requires K("grant") !in st.memo && K("grant") in st.visiting
    requires Fresh(st, "loop") && Fresh(st, "owner") && K("loop") != K("owner")
    ensures var run := EvaluateUntil(WORLD, ShortCircuit, st, Node(DOC, "grant"), [Computed("loop"), Computed("owner")], true, depth);
            run.verdict == Some(true) && K("loop") in run.state.memo && !run.state.memo[K("loop")]
  {
    var n, loop, owner := Node(DOC, "grant"), Computed("loop"), Computed("owner");
    LoopProvisional(st, depth + 1);
    var first := Evaluate(WORLD, ShortCircuit, st, n, loop, depth);
    assert first == CheckNode(WORLD, ShortCircuit, st, Node(DOC, "loop"), depth + 1);
    OwnerAnswers(first.state, depth + 1);
    var second := Evaluate(WORLD, ShortCircuit, first.state, n, owner, depth);
    assert second == CheckNode(WORLD, ShortCircuit, first.state, Node(DOC, "owner"), depth + 1);
    FirstOrSecond(st, n, loop, owner, true, depth);
  }

  lemma GrantAnswers(st: State, depth: nat)
    requires depth + 2 <= MAX_DEPTH
    requires Fresh(st, "grant") && Fresh(st, "loop") && Fresh(st, "owner")
    ensures var run := CheckNode(WORLD, ShortCircuit, st, Node(DOC, "grant"), depth);
            run.verdict == Some(true) && K("loop") in run.state.memo && !run.state.memo[K("loop")]
  {
    AllKeysDiffer();
    GrantOperands(Entered(st, "grant", depth), depth);
    Rewriting();
    var inner, run := AskFresh(st, "grant", Union([Computed("loop"), Computed("owner")]), depth);
  }

  /** The rules derive `perm` for alice ... */
  lemma PermDerivable()
    ensures Node(DOC, "perm") in Lfp(WORLD) && Node(DOC, "loop") in Lfp(WORLD)
  {
    Rewriting();
    var owner, grant, loop := Node(DOC, "owner"), Node(DOC, "grant"), Node(DOC, "loop");
    assert DirectIn(WORLD, Stage(WORLD, 0), owner, ALICE);
    assert owner in Stage(WORLD, 1);
    var children := [Computed("loop"), Computed("owner")];
    assert children[1] in children && SatIn(WORLD, Stage(WORLD, 1), grant, children[1]);
    assert grant in Stage(WORLD, 2);
    assert loop in Stage(WORLD, 3);
    assert owner in Stage(WORLD, 2) by { assert DirectIn(WORLD, Stage(WORLD, 1), owner, ALICE); }
    assert grant in Stage(WORLD, 3) by { assert children[1] in children && SatIn(WORLD, Stage(WORLD, 2), grant, children[1]); }
    assert Node(DOC, "perm") in Stage(WORLD, 4);
  }

  lemma RememberedLoop(st: State, n: Node)
    requires K("loop") in st.memo && !st.memo[K("loop")] && n.obj == DOC
    ensures Evaluate(WORLD, ShortCircuit, st, n, Computed("loop"), 0).verdict == Some(false)
  {
    assert CheckNode(WORLD, ShortCircuit, st, Node(DOC, "loop"), 1).verdict == Some(false);
  }

  lemma PermOperands(st: State)
    requires Fresh(st, "grant") && Fresh(st, "loop") && Fresh(st, "owner")
    ensures EvaluateUntil(WORLD, ShortCircuit, st, Node(DOC, "perm"), [Computed("grant"), Computed("loop")], false, 0).verdict == Some(false)
  {
    var n, grant, loop := Node(DOC, "perm"), Computed("grant"), Computed("loop");
    GrantAnswers(st, 1);
    var first := Evaluate(WORLD, ShortCircuit, st, n, grant, 0);
    assert first == CheckNode(WORLD, ShortCircuit, st, Node(DOC, "grant"), 1);
    RememberedLoop(first.state, n);
    FirstOrSecond(st, n, grant, loop, false, 0);
  }

  lemma OnlyPermEntered()
    ensures var st := Entered(INITIAL, "perm", 0);
            Fresh(st, "grant") && Fresh(st, "loop") && Fresh(st, "owner")
  {
    AllKeysDiffer();
  }

  lemma PermRefused()
    ensures Request(WORLD, ShortCircuit, Node(DOC, "perm")).verdict == Some(false)
  {
    OnlyPermEntered();
    PermOperands(Entered(INITIAL, "perm", 0));
    Rewriting();
    var inner, run := AskFresh(INITIAL, "perm", Intersection([Computed("grant"), Computed("loop")]), 0);
  }

  /**
   * ... but check refuses it. The model is validated and free of exclusions, the store conforms to it, and the cycle is in
   * the rewrites alone.
   */
  lemma CyclicIntersectionIsUnderapproximated()
    ensures WORLD.model == ByName([USERS, DOCS]) && ModelOk([USERS, DOCS]) && ExclusionFreeModel(WORLD)
    ensures ValidatedModels.ConformingStore(WORLD)
    ensures Node(DOC, "perm") in Lfp(WORLD)
    ensures Request(WORLD, ShortCircuit, Node(DOC, "perm")).verdict == Some(false)
  {
    WorldIsValid();
    PermDerivable();
    PermRefused();
  }
}
