/** What validation of a model buys its evaluator: grants need stored tuples, and when no request can throw. */
module ValidatedModels {
  import opened Options
  import opened Tuples
  import opened Rewrites
  import opened Models
  import opened Acyclic
  import opened CheckRuns
  import opened CheckSoundness
  import opened CheckBounds

  // ----- grants -----

  lemma {:induction false} ValidHasNoEmptyIntersection(model: Model, d: NamespaceDef, e: UsersetExpr)
    requires ExprOk(model, d, e)
    ensures NoEmptyIntersection(e)
    decreases e
  {
    match e
    case Direct | Computed(_) | TupleToUserset(_, _) =>
    case Union(cs) =>
      forall c | c in cs ensures NoEmptyIntersection(c) { ValidHasNoEmptyIntersection(model, d, c); }
    case Intersection(cs) =>
      forall c | c in cs ensures NoEmptyIntersection(c) { ValidHasNoEmptyIntersection(model, d, c); }
    case Exclusion(base, subtract) =>
      ValidHasNoEmptyIntersection(model, d, base);
      ValidHasNoEmptyIntersection(model, d, subtract);
  }

  lemma DefinedIsOk(defs: seq<NamespaceDef>, namespace: string)
    requires ModelOk(defs) && namespace in ByName(defs)
    ensures var d := ByName(defs)[namespace]; d.name == namespace && d in defs && DefOk(ByName(defs), d)
  {
    ByNameHolds(defs);
  }

  lemma RewriteIsOk(defs: seq<NamespaceDef>, namespace: string, name: string)
    requires ModelOk(defs) && Resolve(ByName(defs), namespace, name).Some?
    ensures ExprOk(ByName(defs), ByName(defs)[namespace], Resolve(ByName(defs), namespace, name).value)
  {
    DefinedIsOk(defs, namespace);
  }

  /**
   * On a validated model, whatever its expressions, every grant rests on a stored tuple that names the subject itself or
   * the wildcard of its namespace; wildcard and userset subjects are never granted anything.
   */
  lemma {:induction false} ValidatedGrantNeedsTuple(defs: seq<NamespaceDef>, w: World, mode: Mode, n: Node)
    requires ModelOk(defs) && w.model == ByName(defs) && KeyableWorld(w) && Keyable(n.obj)
    requires Request(w, mode, n).verdict == Some(true)
    ensures w.subject.Concrete? && exists t | t in w.tuples :: t.subject in {w.subject, Wildcard(w.subject.namespace)}
  {
    forall m: Node | w.Rewrite(m).Some? ensures NoEmptyIntersection(w.Rewrite(m).value) {
      RewriteIsOk(defs, m.obj.namespace, m.relation);
      ValidHasNoEmptyIntersection(w.model, w.model[m.obj.namespace], w.Rewrite(m).value);
    }
    CheckTrueNeedsStoredGrant(w, mode, n);
  }

  // ----- exceptions -----

  predicate Allows(t: SubjectType, s: SubjectRef) {
    match s
    case Concrete(ns, _) => t == SubjectType(ns, None, false)
    case Wildcard(ns) => t == SubjectType(ns, None, true)
    case Userset(ns, _, rel) => t == SubjectType(ns, Some(rel), false)
  }

  /** What is enforced when tuples are written: the relation is declared and allows the subject. */
  predicate Conforms(model: Model, t: RelationTuple) {
    t.obj.namespace in model && t.relation in model[t.obj.namespace].relations &&
    exists s | s in model[t.obj.namespace].relations[t.relation] :: Allows(ParseSubjectType(s), t.subject)
  }

  predicate ConformingStore(w: World) {
    forall t | t in w.tuples :: Conforms(w.model, t)
  }

  /** Objects of subject type `s` may be walked to, and their namespace declares `c`. */
  predicate Lands(model: Model, s: string, c: string) {
    var parsed := ParseSubjectType(s);
    parsed.relation.None? && !parsed.wildcard ==> parsed.namespace in model && Declares(model[parsed.namespace], c)
  }

  /** Every walk of `e` finds its relation on every namespace it can lead to; validation asks this of one namespace only. */
  predicate WalksLand(model: Model, d: NamespaceDef, e: UsersetExpr)
    decreases e
  {
    match e
    case Direct | Computed(_) => true
    case TupleToUserset(t, c) => t in d.relations ==> forall s | s in d.relations[t] :: Lands(model, s, c)
    case Union(cs) => forall c | c in cs :: WalksLand(model, d, c)
    case Intersection(cs) => forall c | c in cs :: WalksLand(model, d, c)
    case Exclusion(base, subtract) => WalksLand(model, d, base) && WalksLand(model, d, subtract)
  }

  predicate AllWalksLand(model: Model) {
    forall ns | ns in model :: forall p | p in model[ns].permissions :: WalksLand(model, model[ns], model[ns].permissions[p])
  }

  /** The questions that name something declared. */
  ghost function Declared(w: World): iset<Node> {
    iset n: Node | w.Rewrite(n).Some?
  }

  lemma {:induction false} AskedIsDeclared(defs: seq<NamespaceDef>, w: World, n: Node, e: UsersetExpr, m: Node)
    requires ModelOk(defs) && w.model == ByName(defs) && ConformingStore(w) && n.obj.namespace in w.model
    requires ExprOk(w.model, w.model[n.obj.namespace], e) && WalksLand(w.model, w.model[n.obj.namespace], e)
    requires Asks(w, n, e, m)
    ensures w.Rewrite(m).Some?
    decreases e
  {
    var d := w.model[n.obj.namespace];
    DefinedIsOk(defs, n.obj.namespace);
    match e
    case Direct =>
      var s: SubjectRef :| s.Userset? && RelationTuple(n.obj, n.relation, s) in w.tuples && m == UsersetNode(s);
      assert Conforms(w.model, RelationTuple(n.obj, n.relation, s));
      var t :| t in d.relations[n.relation] && Allows(ParseSubjectType(t), s);
      assert SubjectTypeOk(w.model, t);
    case Computed(_) =>
    case TupleToUserset(t, c) =>
      var stored := RelationTuple(n.obj, t, Concrete(m.obj.namespace, m.obj.id));
      assert Conforms(w.model, stored);
      var s :| s in d.relations[t] && Allows(ParseSubjectType(s), stored.subject);
      assert Lands(w.model, s, c);
    case Union(cs) =>
      var c :| c in cs && Asks(w, n, c, m);
      AskedIsDeclared(defs, w, n, c, m);
    case Intersection(cs) =>
      var c :| c in cs && Asks(w, n, c, m);
      AskedIsDeclared(defs, w, n, c, m);
    case Exclusion(base, subtract) =>
      AskedIsDeclared(defs, w, n, if Asks(w, n, base, m) then base else subtract, m);
  }

  lemma {:induction false} LandingIsTotal(defs: seq<NamespaceDef>, w: World)
    requires ModelOk(defs) && w.model == ByName(defs) && ConformingStore(w) && AllWalksLand(w.model)
    ensures Total(w, Declared(w))
  {
    forall n: Node, m: Node | n in Declared(w) && DependsOn(w, n, m) ensures m in Declared(w) {
      RewriteIsOk(defs, n.obj.namespace, n.relation);
      AskedIsDeclared(defs, w, n, w.Rewrite(n).value, m);
    }
  }

  /** Where all walks land, no request about something declared throws, in either mode. */
  lemma {:induction false} CheckNeverThrows(defs: seq<NamespaceDef>, w: World, mode: Mode, n: Node)
    requires ModelOk(defs) && w.model == ByName(defs) && ConformingStore(w) && AllWalksLand(w.model)
    requires w.Rewrite(n).Some?
    ensures Request(w, mode, n).verdict.Some?
  {
    LandingIsTotal(defs, w);
    CheckAnswersIfAllResolve(w, mode, Declared(w), n);
  }
}
