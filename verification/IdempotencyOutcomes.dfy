/** When a failing call is told to give up: in every run exactly when the failures it counted have reached its own maximum. */
module IdempotencyOutcomes {
  import opened Options
  import opened Idempotency
  import opened IdempotencyTheorems

  // ----- what a call counted, and what it was told -----

  function CountStep(s: Sys, a: Action, id: nat, counted: Option<nat>): Option<nat> {
    if a == Call(id) && id in s.callers && s.callers[id].pc.WriteAttempts? then Some(s.callers[id].pc.next) else counted
  }

  /** The number a call stored in the counter, if it has. */
  function Counted(s: Sys, actions: seq<Action>, id: nat, counted: Option<nat>): Option<nat>
    requires LegalRun(s, actions)
    decreases |actions|
  {
    if actions == [] then counted
    else Counted(Next(s, actions[0]), actions[1..], id, CountStep(s, actions[0], id, counted))
  }

  predicate ToldBy(c: Caller, counted: Option<nat>) {
    match c.pc
    case Settle(n) => counted == Some(n)
    case Returned(Dropped(n)) => counted == Some(n) && n >= c.max
    case Returned(Rethrown) => counted.Some? && counted.value < c.max
    case _ => true
  }

  lemma ToldStep(s: Sys, a: Action, id: nat, counted: Option<nat>)
    requires (id in s.callers ==> ToldBy(s.callers[id], counted)) && Enabled(s, a)
    ensures id in Next(s, a).callers ==> ToldBy(Next(s, a).callers[id], CountStep(s, a, id, counted))
  {
    if a.Arrive? || a.Expire? || a.id != id {
      if !(a.Arrive? && a.id == id) {
        OthersStay(s, a, id);
      }
    }
  }

  lemma {:induction false} RunsTell(s: Sys, actions: seq<Action>, id: nat, counted: Option<nat>)
    requires (id in s.callers ==> ToldBy(s.callers[id], counted)) && LegalRun(s, actions)
    ensures var s' := After(s, actions);
            id in s'.callers ==> ToldBy(s'.callers[id], Counted(s, actions, id, counted))
    decreases |actions|
  {
    if actions != [] {
      ToldStep(s, actions[0], id, counted);
      RunsTell(Next(s, actions[0]), actions[1..], id, CountStep(s, actions[0], id, counted));
    }
  }

  /** A call that is dropped counted its maximum or more and reports what it counted; one that rethrows counted less. */
  lemma {:induction false} ToldByCount(actions: seq<Action>, id: nat)
    requires LegalRun(EMPTY, actions) && id in After(EMPTY, actions).callers
    ensures var c, counted := After(EMPTY, actions).callers[id], Counted(EMPTY, actions, id, None);
            (c.pc.Returned? && c.pc.outcome.Dropped? ==>
               counted == Some(c.pc.outcome.attempts) && c.pc.outcome.attempts >= c.max) &&
            (c.pc == Returned(Rethrown) ==> counted.Some? && counted.value < c.max)
  {
    RunsTell(EMPTY, actions, id, None);
  }

  // ----- dead keys -----

  predicate WasDropped(s: Sys, id: nat, k: string) {
    On(s, id, k) && s.callers[id].pc.Returned? && s.callers[id].pc.outcome.Dropped? &&
    s.callers[id].pc.outcome.attempts >= s.callers[id].max
  }

  ghost predicate DeadIsDropped(s: Sys, k: string) {
    IsDead(s, k) ==> exists id: nat :: WasDropped(s, id, k)
  }

  lemma DroppedStays(s: Sys, a: Action, id: nat, k: string)
    requires WasDropped(s, id, k) && Enabled(s, a)
    ensures WasDropped(Next(s, a), id, k)
  {
    OthersStay(s, a, id);
  }

  lemma DeadStep(s: Sys, a: Action, k: string)
    requires DeadIsDropped(s, k) && Enabled(s, a)
    ensures DeadIsDropped(Next(s, a), k)
  {
    if IsDead(s, k) {
      var id: nat :| WasDropped(s, id, k);
      DroppedStays(s, a, id, k);
    } else if IsDead(Next(s, a), k) {
      assert a.Call? && s.callers[a.id].pc.Settle?;
      assert WasDropped(Next(s, a), a.id, k);
    }
  }

  lemma {:induction false} RunsKeepDead(s: Sys, actions: seq<Action>, k: string)
    requires DeadIsDropped(s, k) && LegalRun(s, actions)
    ensures DeadIsDropped(After(s, actions), k)
    decreases |actions|
  {
    if actions != [] {
      DeadStep(s, actions[0], k);
      RunsKeepDead(Next(s, actions[0]), actions[1..], k);
    }
  }

  /** A key is dead only if some call for it was told to give up, with as many attempts as its maximum or more. */
  lemma {:induction false} DeadWasDropped(actions: seq<Action>, k: string)
    requires LegalRun(EMPTY, actions) && IsDead(After(EMPTY, actions), k)
    ensures exists id: nat :: WasDropped(After(EMPTY, actions), id, k)
  {
    RunsKeepDead(EMPTY, actions, k);
  }

  // ----- and by the number of failing runs -----

  /**
   * In every careful run: a call whose counter has not expired meanwhile makes its key dead if and only if the failing
   * runs since the last success or expiry have reached its maximum; otherwise it frees the key for the next delivery.
   */
  lemma {:induction false} SettlesByTally(actions: seq<Action>, k: string, id: nat)
    requires LegalRun(EMPTY, actions) && Careful(EMPTY, actions, k)
    requires var s := After(EMPTY, actions);
             On(s, id, k) && s.callers[id].pc.Settle? && AttemptsOf(k) in s.cache
    ensures var s, tally := After(EMPTY, actions), Tally(EMPTY, actions, k, 0);
            Enabled(s, Call(id)) &&
            var s' := Next(s, Call(id));
            if tally >= s.callers[id].max then IsDead(s', k) && s'.callers[id].pc == Returned(Dropped(tally))
            else StateOf(k) !in s'.cache && s'.callers[id].pc == Returned(Rethrown)
  {
    RunsKeepTally(EMPTY, actions, k, 0);
    assert Claimed(After(EMPTY, actions), id, k);
  }
}
