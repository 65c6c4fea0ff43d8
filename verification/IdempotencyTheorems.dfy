/** What the idempotency protocol promises over every interleaving of any number of calls. */
module IdempotencyTheorems {
  import opened Idempotency

  // ----- one holder -----

  /** Whoever is between claim and settle is alone there, and its marker is the one in the cache. */
  ghost predicate HoldInv(s: Sys, k: string) {
    (forall i: nat, j: nat | Holds(s, i, k) && Holds(s, j, k) :: i == j) &&
    (forall i: nat | Holds(s, i, k) :: StateOf(k) in s.cache && s.cache[StateOf(k)] == InFlight)
  }

  /** What an action leaves of a caller: only the one that acts moves. */
  lemma OthersStay(s: Sys, a: Action, i: nat)
    requires Enabled(s, a) && !(a.Arrive? && a.id == i)
    ensures i in Next(s, a).callers <==> i in s.callers
    ensures i in s.callers ==> Next(s, a).callers[i].key == s.callers[i].key && Next(s, a).callers[i].max == s.callers[i].max
    ensures i in s.callers && (a.Expire? || a.id != i) ==> Next(s, a).callers[i] == s.callers[i]
  {
    if a.Call? {
      match s.callers[a.id].pc
      case Start =>
      case _ =>
    }
  }

  /** The action is not about the key. */
  predicate Elsewhere(s: Sys, a: Action, k: string)
    requires Enabled(s, a)
  {
    match a
    case Arrive(_, _, _) => true
    case Expire(entry) => entry.key != k
    case Call(id) => s.callers[id].key != k
    case WorkSucceeds(id) => s.callers[id].key != k
    case WorkFails(id) => s.callers[id].key != k
  }

  predicate Claimed(s: Sys, id: nat, k: string) {
    On(s, id, k) && !s.callers[id].pc.Start? && !s.callers[id].pc.Returned?
  }

  /** A key looks the same in two systems: its entries and the callers that have claimed it. */
  ghost predicate SameFor(s: Sys, s': Sys, k: string) {
    (StateOf(k) in s.cache <==> StateOf(k) in s'.cache) &&
    (StateOf(k) in s.cache ==> s.cache[StateOf(k)] == s'.cache[StateOf(k)]) &&
    Recorded(s.cache, k) == Recorded(s'.cache, k) &&
    forall i: nat :: (Claimed(s, i, k) <==> Claimed(s', i, k)) && (Claimed(s, i, k) ==> s.callers[i].pc == s'.callers[i].pc)
  }

  lemma ElsewhereSame(s: Sys, a: Action, k: string)
    requires Enabled(s, a) && Elsewhere(s, a, k)
    ensures SameFor(s, Next(s, a), k)
  {
    forall i: nat ensures var s' := Next(s, a);
                          (Claimed(s, i, k) <==> Claimed(s', i, k)) &&
                          (Claimed(s, i, k) ==> s.callers[i].pc == s'.callers[i].pc) {
      if !(a.Arrive? && a.id == i) {
        OthersStay(s, a, i);
      }
    }
  }

  /** The caller that acts, if the action is about `k` and not an expiry. */
  predicate ActsOn(s: Sys, a: Action, k: string) {
    !a.Arrive? && !a.Expire? && On(s, a.id, k)
  }

  lemma OthersOfKeyStay(s: Sys, a: Action, k: string)
    requires Enabled(s, a) && !a.Arrive?
    ensures forall i: nat | a.Expire? || i != a.id ::
              (Claimed(s, i, k) <==> Claimed(Next(s, a), i, k)) &&
              (Claimed(s, i, k) ==> s.callers[i].pc == Next(s, a).callers[i].pc)
  {
    forall i: nat | a.Expire? || i != a.id
      ensures (Claimed(s, i, k) <==> Claimed(Next(s, a), i, k)) &&
              (Claimed(s, i, k) ==> s.callers[i].pc == Next(s, a).callers[i].pc) {
      OthersStay(s, a, i);
    }
  }

  lemma HoldStep(s: Sys, a: Action, k: string)
    requires HoldInv(s, k) && Enabled(s, a)
    ensures HoldInv(Next(s, a), k)
  {
    var s' := Next(s, a);
    if Elsewhere(s, a, k) {
      ElsewhereSame(s, a, k);
      assert forall i: nat | Holds(s', i, k) :: Claimed(s', i, k) && Claimed(s, i, k) && Holds(s, i, k);
    } else {
      OthersOfKeyStay(s, a, k);
      assert forall i: nat | Holds(s', i, k) && (a.Expire? || i != a.id) :: Claimed(s', i, k) && Holds(s, i, k);
      if a.Expire? {
        assert a.entry.StateOf? ==> forall i: nat :: !Holds(s, i, k);
      } else if !Holds(s, a.id, k) {
        assert s.callers[a.id].pc.Start? && StateOf(k) !in s.cache ==> forall i: nat :: !Holds(s, i, k);
      }
    }
  }

  lemma {:induction false} RunsKeepHold(s: Sys, actions: seq<Action>, k: string)
    requires HoldInv(s, k) && LegalRun(s, actions)
    ensures HoldInv(After(s, actions), k)
    decreases |actions|
  {
    if actions != [] {
      HoldStep(s, actions[0], k);
      RunsKeepHold(Next(s, actions[0]), actions[1..], k);
    }
  }

  /** At most one caller of a key is between claim and settle. */
  lemma {:induction false} OneHolder(actions: seq<Action>, i: nat, j: nat)
    requires LegalRun(EMPTY, actions)
    requires var s := After(EMPTY, actions);
             i in s.callers && j in s.callers && s.callers[i].key == s.callers[j].key &&
             Holding(s.callers[i].pc) && Holding(s.callers[j].pc)
    ensures i == j
  {
    var s := After(EMPTY, actions);
    RunsKeepHold(EMPTY, actions, s.callers[i].key);
    assert Holds(s, i, s.callers[i].key) && Holds(s, j, s.callers[i].key);
  }

  /** Why the state may not expire between claim and settle: the next delivery claims the key as well. */
  lemma EarlyExpiryAdmitsSecond(k: string, max: int)
    ensures var first := CallStep(Next(EMPTY, Arrive(0, k, max)), 0);
            var s := CallStep(Forget(Next(first, Arrive(1, k, max)), StateOf(k)), 1);
            s.callers == map[0 := Caller(k, max, Working), 1 := Caller(k, max, Working)]
  {
    var first := CallStep(Next(EMPTY, Arrive(0, k, max)), 0);
    assert first.callers == map[0 := Caller(k, max, Working)];
    var s := Forget(Next(first, Arrive(1, k, max)), StateOf(k));
    assert s.callers[1] == Caller(k, max, Start) && StateOf(k) !in s.cache;
  }

  // ----- settled for good -----

  /** The key carries a completed or dead marker. */
  predicate Settled(s: Sys, k: string) {
    StateOf(k) in s.cache && (s.cache[StateOf(k)].Completed? || s.cache[StateOf(k)].Dead?)
  }

  lemma SettledStep(s: Sys, a: Action, k: string)
    requires HoldInv(s, k) && Settled(s, k) && Enabled(s, a) && a != Expire(StateOf(k))
    ensures Settled(Next(s, a), k) && Next(s, a).cache[StateOf(k)] == s.cache[StateOf(k)]
  {
    if a.Call? {
      assert !Holds(s, a.id, k);
    }
  }

  /**
   * Once completed or dead, a key keeps its marker and `work` never runs for it again, until the marker expires.
   * (A prefix of a legal run is a legal run, so this is about every moment of the run.)
   */
  lemma {:induction false} SettledStays(s: Sys, actions: seq<Action>, k: string)
    requires HoldInv(s, k) && Settled(s, k) && LegalRun(s, actions) && Expire(StateOf(k)) !in actions
    ensures var s' := After(s, actions);
            Settled(s', k) && s'.cache[StateOf(k)] == s.cache[StateOf(k)] && !Held(s', k)
    decreases |actions|
  {
    if actions != [] {
      assert actions[0] in actions;
      SettledStep(s, actions[0], k);
      HoldStep(s, actions[0], k);
      SettledStays(Next(s, actions[0]), actions[1..], k);
    }
  }

  // ----- how often work fails -----

  predicate Fails(s: Sys, a: Action, k: string) {
    a.WorkFails? && On(s, a.id, k)
  }

  /** How often `work` fails for `k` in a run. */
  function FailuresIn(s: Sys, actions: seq<Action>, k: string): nat
    requires LegalRun(s, actions)
    decreases |actions|
  {
    if actions == [] then 0
    else (if Fails(s, actions[0], k) then 1 else 0) + FailuresIn(Next(s, actions[0]), actions[1..], k)
  }

  predicate IsDead(s: Sys, k: string) {
    StateOf(k) in s.cache && s.cache[StateOf(k)].Dead?
  }

  predicate Clears(s: Sys, a: Action, k: string) {
    a.Call? && On(s, a.id, k) && s.callers[a.id].pc.ClearAttempts?
  }

  /** The action forgets failures of `k`: its counter expires or is cleared after a success, or its dead marker expires. */
  predicate Forgets(s: Sys, a: Action, k: string) {
    a == Expire(AttemptsOf(k)) || (a == Expire(StateOf(k)) && IsDead(s, k)) || Clears(s, a, k)
  }

  predicate NeverForgets(s: Sys, actions: seq<Action>, k: string)
    requires LegalRun(s, actions)
    decreases |actions|
  {
    actions == [] || (!Forgets(s, actions[0], k) && NeverForgets(Next(s, actions[0]), actions[1..], k))
  }

  /** No call for `k` comes with a larger maximum. */
  predicate AtMost(max: int, actions: seq<Action>, k: string) {
    forall a | a in actions && a.Arrive? && a.key == k :: a.max <= max
  }

  predicate CallersAtMost(max: int, s: Sys, k: string) {
    forall i | i in s.callers && s.callers[i].key == k :: s.callers[i].max <= max
  }

  lemma CallersStep(max: int, s: Sys, a: Action, k: string)
    requires CallersAtMost(max, s, k) && Enabled(s, a) && (a.Arrive? && a.key == k ==> a.max <= max)
    ensures CallersAtMost(max, Next(s, a), k)
  {
    var s' := Next(s, a);
    forall i | i in s'.callers && s'.callers[i].key == k ensures s'.callers[i].max <= max {
      assert i in s.callers ==> s'.callers[i].key == s.callers[i].key && s'.callers[i].max == s.callers[i].max;
    }
  }

  lemma {:induction false} RunsKeepCallers(max: int, s: Sys, actions: seq<Action>, k: string)
    requires CallersAtMost(max, s, k) && LegalRun(s, actions) && AtMost(max, actions, k)
    ensures CallersAtMost(max, After(s, actions), k)
    decreases |actions|
  {
    if actions != [] {
      assert actions[0] in actions;
      CallersStep(max, s, actions[0], k);
      RunsKeepCallers(max, Next(s, actions[0]), actions[1..], k);
    }
  }

  /** `work` failed and the failure is not settled yet. */
  predicate Failing(pc: Pc) {
    pc.ReadAttempts? || pc.WriteAttempts? || pc.Settle?
  }

  function Bound(max: int): nat { if max > 1 then max else 1 }

  /** What the holder's place says about the `f` failures since nothing is forgotten. */
  predicate CountedAt(s: Sys, k: string, pc: Pc, f: nat) {
    match pc
    case ReadAttempts => Recorded(s.cache, k) + 1 >= f
    case WriteAttempts(n) => n >= f
    case Settle(n) => n >= f && Recorded(s.cache, k) >= f
    case _ => Recorded(s.cache, k) >= f
  }

  /** Below the maximum another run may fail; at it the key is dead. */
  predicate Below(max: int, s: Sys, k: string, f: nat) {
    Recorded(s.cache, k) >= f && (IsDead(s, k) || f == 0 || f < max)
  }

  ghost predicate FailInv(max: int, s: Sys, k: string, f: nat) {
    f <= Bound(max) &&
    (forall i: nat | Holds(s, i, k) :: CountedAt(s, k, s.callers[i].pc, f)) &&
    ((forall i: nat | Holds(s, i, k) :: !Failing(s.callers[i].pc)) ==> Below(max, s, k, f))
  }

  lemma FailStep(max: int, s: Sys, a: Action, k: string, f: nat)
    requires HoldInv(s, k) && CallersAtMost(max, s, k) && FailInv(max, s, k, f)
    requires Enabled(s, a) && !Forgets(s, a, k)
    ensures FailInv(max, Next(s, a), k, f + if Fails(s, a, k) then 1 else 0)
  {
    var s' := Next(s, a);
    if Elsewhere(s, a, k) {
      ElsewhereSame(s, a, k);
      assert forall i: nat | Holds(s', i, k) :: Claimed(s', i, k) && Claimed(s, i, k) && Holds(s, i, k);
      assert forall i: nat | Holds(s, i, k) :: Claimed(s, i, k) && Claimed(s', i, k) && Holds(s', i, k);
    } else {
      OthersOfKeyStay(s, a, k);
      assert forall i: nat | Holds(s', i, k) && (a.Expire? || i != a.id) :: Claimed(s', i, k) && Holds(s, i, k);
      assert forall i: nat | Holds(s, i, k) && (a.Expire? || i != a.id) :: Claimed(s, i, k) && Holds(s', i, k);
      if !a.Expire? {
        FailActs(max, s, a, k, f);
      }
    }
  }

  lemma FailActs(max: int, s: Sys, a: Action, k: string, f: nat)
    requires HoldInv(s, k) && CallersAtMost(max, s, k) && FailInv(max, s, k, f)
    requires Enabled(s, a) && !Forgets(s, a, k) && ActsOn(s, a, k)
    requires forall i: nat | i != a.id :: Holds(Next(s, a), i, k) <==> Holds(s, i, k)
    ensures FailInv(max, Next(s, a), k, f + if Fails(s, a, k) then 1 else 0)
  {
    var s' := Next(s, a);
    if Holds(s, a.id, k) {
      assert forall i: nat | Holds(s', i, k) :: i == a.id;
      HolderActs(max, s, a, k, f);
    } else if StateOf(k) !in s.cache {
      assert forall i: nat :: !Holds(s, i, k);
      assert forall i: nat | Holds(s', i, k) :: i == a.id && s'.callers[i].pc == Working;
    } else {
      assert s'.cache == s.cache && forall i: nat :: Holds(s', i, k) <==> Holds(s, i, k);
    }
  }

  lemma HolderActs(max: int, s: Sys, a: Action, k: string, f: nat)
    requires HoldInv(s, k) && CallersAtMost(max, s, k) && FailInv(max, s, k, f)
    requires Enabled(s, a) && ActsOn(s, a, k) && Holds(s, a.id, k)
    requires forall i: nat | Holds(Next(s, a), i, k) :: i == a.id
    ensures FailInv(max, Next(s, a), k, f + if Fails(s, a, k) then 1 else 0)
  {
    assert forall i: nat | Holds(s, i, k) :: i == a.id;
    if !a.Call? {
      assert Holds(Next(s, a), a.id, k);
    } else if s.callers[a.id].pc.Settle? {
      assert s.callers[a.id].max <= max;
    } else {
      assert Holds(Next(s, a), a.id, k) || s.callers[a.id].pc.MarkCompleted?;
    }
  }

  lemma {:induction false} RunsKeepFail(max: int, s: Sys, actions: seq<Action>, k: string, f: nat)
    requires HoldInv(s, k) && CallersAtMost(max, s, k) && FailInv(max, s, k, f)
    requires LegalRun(s, actions) && NeverForgets(s, actions, k) && AtMost(max, actions, k)
    ensures FailInv(max, After(s, actions), k, f + FailuresIn(s, actions, k))
    decreases |actions|
  {
    if actions != [] {
      var a := actions[0];
      assert a in actions;
      HoldStep(s, a, k);
      CallersStep(max, s, a, k);
      FailStep(max, s, a, k, f);
      RunsKeepFail(max, Next(s, a), actions[1..], k, f + if Fails(s, a, k) then 1 else 0);
    }
  }

  /**
   * `work` fails at most max(1, maxAttempts) times for a key while nothing is forgotten, whatever came before; with calls
   * that bring their own maxima, the largest one counts.
   */
  lemma {:induction false} FailuresBounded(max: int, before: seq<Action>, actions: seq<Action>, k: string)
    requires LegalRun(EMPTY, before) && AtMost(max, before, k) && AtMost(max, actions, k)
    requires var s := After(EMPTY, before); LegalRun(s, actions) && NeverForgets(s, actions, k)
    ensures FailuresIn(After(EMPTY, before), actions, k) <= Bound(max)
  {
    RunsKeepHold(EMPTY, before, k);
    RunsKeepCallers(max, EMPTY, before, k);
    RunsKeepFail(max, After(EMPTY, before), actions, k, 0);
  }

  // ----- what the counter shows -----

  /** Failing runs since the last success or the last expiry of the counter, one action further. */
  function TallyStep(s: Sys, a: Action, k: string, tally: nat): nat {
    if Fails(s, a, k) then tally + 1
    else if a == Expire(AttemptsOf(k)) || (a.WorkSucceeds? && On(s, a.id, k)) then 0
    else tally
  }

  function Tally(s: Sys, actions: seq<Action>, k: string, tally: nat): nat
    requires LegalRun(s, actions)
    decreases |actions|
  {
    if actions == [] then tally else Tally(Next(s, actions[0]), actions[1..], k, TallyStep(s, actions[0], k, tally))
  }

  predicate Recording(pc: Pc) {
    pc.ReadAttempts? || pc.WriteAttempts?
  }

  predicate Clearing(pc: Pc) {
    pc.MarkCompleted? || pc.ClearAttempts?
  }

  /** Neither the marker of a success expires before it has cleared the counter, nor the counter while it is written. */
  predicate CarefulStep(s: Sys, a: Action, k: string) {
    forall i | i in s.callers && s.callers[i].key == k ::
      !(a == Expire(StateOf(k)) && s.callers[i].pc.ClearAttempts?) &&
      !(a == Expire(AttemptsOf(k)) && Recording(s.callers[i].pc))
  }

  predicate Careful(s: Sys, actions: seq<Action>, k: string)
    requires LegalRun(s, actions)
    decreases |actions|
  {
    actions == [] || (CarefulStep(s, actions[0], k) && Careful(Next(s, actions[0]), actions[1..], k))
  }

  /** At most one caller is between claim and return, and its marker is in the cache. */
  ghost predicate ClaimInv(s: Sys, k: string) {
    (forall i: nat, j: nat | Claimed(s, i, k) && Claimed(s, j, k) :: i == j) &&
    (forall i: nat | Claimed(s, i, k) ::
       StateOf(k) in s.cache && s.cache[StateOf(k)] == if Holding(s.callers[i].pc) then InFlight else Completed)
  }

  predicate TalliedAt(s: Sys, k: string, pc: Pc, tally: nat) {
    match pc
    case ReadAttempts => Recorded(s.cache, k) + 1 == tally
    case WriteAttempts(n) => Recorded(s.cache, k) + 1 == n == tally
    case Settle(n) => Recorded(s.cache, k) == tally && (AttemptsOf(k) in s.cache ==> n == tally)
    case MarkCompleted | ClearAttempts => tally == 0
    case _ => Recorded(s.cache, k) == tally
  }

  ghost predicate TallyInv(s: Sys, k: string, tally: nat) {
    (forall i: nat | Claimed(s, i, k) :: TalliedAt(s, k, s.callers[i].pc, tally)) &&
    ((forall i: nat :: !Claimed(s, i, k)) ==> Recorded(s.cache, k) == tally)
  }

  lemma ClaimStep(s: Sys, a: Action, k: string)
    requires ClaimInv(s, k) && Enabled(s, a) && CarefulStep(s, a, k)
    ensures ClaimInv(Next(s, a), k)
  {
    if Elsewhere(s, a, k) {
      ElsewhereSame(s, a, k);
    } else {
      OthersOfKeyStay(s, a, k);
      if a.Expire? {
        assert a.entry.StateOf? ==> forall i: nat | Claimed(s, i, k) :: Holds(s, i, k);
        assert a.entry.StateOf? ==> forall i: nat :: !Claimed(s, i, k);
      } else if !Claimed(s, a.id, k) {
        assert s.callers[a.id].pc.Start? && StateOf(k) !in s.cache ==> forall i: nat :: !Claimed(s, i, k);
      }
    }
  }

  lemma TallyKeeps(s: Sys, a: Action, k: string, tally: nat)
    requires ClaimInv(s, k) && TallyInv(s, k, tally) && Enabled(s, a) && CarefulStep(s, a, k)
    ensures TallyInv(Next(s, a), k, TallyStep(s, a, k, tally))
  {
    if Elsewhere(s, a, k) {
      ElsewhereSame(s, a, k);
    } else {
      OthersOfKeyStay(s, a, k);
      if !a.Expire? {
        TallyActs(s, a, k, tally);
      }
    }
  }

  lemma TallyActs(s: Sys, a: Action, k: string, tally: nat)
    requires ClaimInv(s, k) && TallyInv(s, k, tally) && Enabled(s, a) && ActsOn(s, a, k)
    requires forall i: nat | i != a.id :: Claimed(Next(s, a), i, k) <==> Claimed(s, i, k)
    ensures TallyInv(Next(s, a), k, TallyStep(s, a, k, tally))
  {
    var s' := Next(s, a);
    if Claimed(s, a.id, k) {
      assert forall i: nat | Claimed(s', i, k) :: i == a.id;
      assert Claimed(s', a.id, k) || s.callers[a.id].pc.ClearAttempts? || s.callers[a.id].pc.Settle?;
    } else if StateOf(k) !in s.cache {
      assert forall i: nat :: !Claimed(s, i, k);
    }
  }

  lemma {:induction false} RunsKeepTally(s: Sys, actions: seq<Action>, k: string, tally: nat)
    requires ClaimInv(s, k) && TallyInv(s, k, tally) && LegalRun(s, actions) && Careful(s, actions, k)
    ensures ClaimInv(After(s, actions), k) && TallyInv(After(s, actions), k, Tally(s, actions, k, tally))
    decreases |actions|
  {
    if actions != [] {
      ClaimStep(s, actions[0], k);
      TallyKeeps(s, actions[0], k, tally);
      RunsKeepTally(Next(s, actions[0]), actions[1..], k, TallyStep(s, actions[0], k, tally));
    }
  }

  /** Nobody is about to write or clear the counter of `k`. */
  predicate CounterAtRest(s: Sys, k: string) {
    forall i | i in s.callers && s.callers[i].key == k :: !Recording(s.callers[i].pc) && !Clearing(s.callers[i].pc)
  }

  /** The counter loses no update: at rest it shows every failing run since the last success or its last expiry. */
  lemma {:induction false} CounterLosesNothing(actions: seq<Action>, k: string)
    requires LegalRun(EMPTY, actions) && Careful(EMPTY, actions, k) && CounterAtRest(After(EMPTY, actions), k)
    ensures Recorded(After(EMPTY, actions).cache, k) == Tally(EMPTY, actions, k, 0)
  {
    RunsKeepTally(EMPTY, actions, k, 0);
    var s := After(EMPTY, actions);
    if i: nat :| Claimed(s, i, k) {
      assert TalliedAt(s, k, s.callers[i].pc, Tally(EMPTY, actions, k, 0));
    }
  }

  /** A run, with the system and the tally it ends in. */
  predicate Leads(s: Sys, tally: nat, actions: seq<Action>, k: string, s': Sys, tally': nat) {
    LegalRun(s, actions) && After(s, actions) == s' && Tally(s, actions, k, tally) == tally'
  }

  lemma {:induction false} OneMore(s: Sys, tally: nat, actions: seq<Action>, k: string, s': Sys, tally': nat, a: Action)
    requires Leads(s, tally, actions, k, s', tally') && Enabled(s', a)
    ensures Leads(s, tally, actions + [a], k, Next(s', a), TallyStep(s', a, k, tally'))
    decreases |actions|
  {
    if actions == [] {
      assert actions + [a] == [a];
    } else {
      assert (actions + [a])[1..] == actions[1..] + [a];
      OneMore(Next(s, actions[0]), TallyStep(s, actions[0], k, tally), actions[1..], k, s', tally', a);
    }
  }

  /** A success that is about to clear the counter. */
  function Succeeded(k: string, max: int): Sys {
    Sys(map[StateOf(k) := Completed], map[0 := Caller(k, max, ClearAttempts)])
  }

  function Succeeds(k: string, max: int): seq<Action> {
    [Arrive(0, k, max), Call(0), WorkSucceeds(0), Call(0)]
  }

  /** Its marker has expired, and the next delivery has run and failed. */
  function FailedAgain(k: string, max: int): Sys {
    Sys(map[StateOf(k) := InFlight], map[0 := Caller(k, max, ClearAttempts), 1 := Caller(k, max, ReadAttempts)])
  }

  function FailsAgain(k: string, max: int): seq<Action> {
    Succeeds(k, max) + [Expire(StateOf(k)), Arrive(1, k, max), Call(1), WorkFails(1)]
  }

  /** That failure is counted, and then comes the late delete. */
  function LateClear(k: string, max: int): seq<Action> {
    FailsAgain(k, max) + [Call(1), Call(1)] + [Call(0)]
  }

  lemma ToSucceeded(k: string, max: int)
    ensures Leads(EMPTY, 0, Succeeds(k, max), k, Succeeded(k, max), 0)
  {
    var arrive := Arrive(0, k, max);
    var s1 := Next(EMPTY, arrive);
    var s2 := Next(s1, Call(0));
    var s3 := Next(s2, WorkSucceeds(0));
    OneMore(EMPTY, 0, [], k, EMPTY, 0, arrive);
    OneMore(EMPTY, 0, [] + [arrive], k, s1, 0, Call(0));
    OneMore(EMPTY, 0, [] + [arrive] + [Call(0)], k, s2, 0, WorkSucceeds(0));
    OneMore(EMPTY, 0, [] + [arrive] + [Call(0)] + [WorkSucceeds(0)], k, s3, 0, Call(0));
    assert [] + [arrive] + [Call(0)] + [WorkSucceeds(0)] + [Call(0)] == Succeeds(k, max);
    assert Next(s3, Call(0)) == Succeeded(k, max);
  }

  lemma ToFailedAgain(k: string, max: int)
    ensures Leads(EMPTY, 0, FailsAgain(k, max), k, FailedAgain(k, max), 1)
  {
    ToSucceeded(k, max);
    var run, s, expire, arrive := Succeeds(k, max), Succeeded(k, max), Expire(StateOf(k)), Arrive(1, k, max);
    var s1 := Next(s, expire);
    var s2 := Next(s1, arrive);
    var s3 := Next(s2, Call(1));
    assert s3.callers[1] == Caller(k, max, Working);
    OneMore(EMPTY, 0, run, k, s, 0, expire);
    OneMore(EMPTY, 0, run + [expire], k, s1, 0, arrive);
    OneMore(EMPTY, 0, run + [expire] + [arrive], k, s2, 0, Call(1));
    OneMore(EMPTY, 0, run + [expire] + [arrive] + [Call(1)], k, s3, 0, WorkFails(1));
    assert run + [expire] + [arrive] + [Call(1)] + [WorkFails(1)] == FailsAgain(k, max);
    assert Next(s3, WorkFails(1)) == FailedAgain(k, max);
  }

  lemma ToCounted(k: string, max: int) returns (counted: Sys)
    ensures Leads(EMPTY, 0, FailsAgain(k, max) + [Call(1), Call(1)], k, counted, 1)
    ensures counted.callers == map[0 := Caller(k, max, ClearAttempts), 1 := Caller(k, max, Settle(1))]
  {
    ToFailedAgain(k, max);
    var run, s := FailsAgain(k, max), FailedAgain(k, max);
    var s1 := Next(s, Call(1));
    assert s1.callers[1] == Caller(k, max, WriteAttempts(1)) && s1.callers[0] == s.callers[0];
    counted := Next(s1, Call(1));
    OneMore(EMPTY, 0, run, k, s, 1, Call(1));
    OneMore(EMPTY, 0, run + [Call(1)], k, s1, 1, Call(1));
    assert run + [Call(1)] + [Call(1)] == run + [Call(1), Call(1)];
  }

  /**
   * Why the marker of a success may not expire before the counter is cleared: a legal run at whose end the counter is at
   * rest and shows nothing, although the last run failed after the last success.
   */
  lemma LateClearErasesFailure(k: string, max: int)
    ensures LegalRun(EMPTY, LateClear(k, max)) && CounterAtRest(After(EMPTY, LateClear(k, max)), k)
    ensures Tally(EMPTY, LateClear(k, max), k, 0) == 1 && Recorded(After(EMPTY, LateClear(k, max)).cache, k) == 0
  {
    var s := ToCounted(k, max);
    OneMore(EMPTY, 0, FailsAgain(k, max) + [Call(1), Call(1)], k, s, 1, Call(0));
  }
}
