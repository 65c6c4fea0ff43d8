/**
 * The idempotency store as a protocol: any number of callers, each a little program whose every cache call is one
 * atomic step, interleaved in any way. A run of `work` is the stretch between a claim and its outcome.
 */
module Idempotency {
  import opened Text

  /** The two cache entries of a key; their names are `EntryName`. */
  datatype Entry = StateOf(key: string) | AttemptsOf(key: string)

  datatype Value = InFlight | Completed | Dead | Attempts(count: nat)

  datatype Outcome = Processed | Duplicate | Dropped(attempts: nat) | Rethrown

  /** Where a caller is: each constructor but the last names the call it makes next. */
  datatype Pc =
    | Start
    | Working
    | MarkCompleted
    | ClearAttempts
    | ReadAttempts
    | WriteAttempts(next: nat)
    | Settle(attempts: nat)
    | Returned(outcome: Outcome)

  /** One call of `deduplicate`, with the maximum it was given. */
  datatype Caller = Caller(key: string, max: int, pc: Pc)

  datatype Sys = Sys(cache: map<Entry, Value>, callers: map<nat, Caller>)

  const EMPTY := Sys(map[], map[])

  /** The failures the counter shows; no entry, or a text that is no number, stands for none. */
  function Recorded(cache: map<Entry, Value>, key: string): nat {
    if AttemptsOf(key) in cache && cache[AttemptsOf(key)].Attempts? then cache[AttemptsOf(key)].count else 0
  }

  // ----- steps -----

  datatype Action =
    | Arrive(id: nat, key: string, max: int)
    | Call(id: nat)
    | WorkSucceeds(id: nat)
    | WorkFails(id: nat)
    | Expire(entry: Entry)

  function Move(s: Sys, id: nat, pc: Pc): Sys
    requires id in s.callers
  {
    s.(callers := s.callers[id := s.callers[id].(pc := pc)])
  }

  /** One cache call of one caller. */
  function CallStep(s: Sys, id: nat): Sys
    requires id in s.callers
  {
    var k := s.callers[id].key;
    match s.callers[id].pc
    case Start =>
      if StateOf(k) in s.cache then Move(s, id, Returned(Duplicate))
      else Move(s.(cache := s.cache[StateOf(k) := InFlight]), id, Working)
    case Working => s
    case MarkCompleted => Move(s.(cache := s.cache[StateOf(k) := Completed]), id, ClearAttempts)
    case ClearAttempts => Move(s.(cache := s.cache - {AttemptsOf(k)}), id, Returned(Processed))
    case ReadAttempts => Move(s, id, WriteAttempts(Recorded(s.cache, k) + 1))
    case WriteAttempts(next) => Move(s.(cache := s.cache[AttemptsOf(k) := Attempts(next)]), id, Settle(next))
    case Settle(attempts) =>
      if attempts >= s.callers[id].max
      then Move(s.(cache := s.cache[StateOf(k) := Dead]), id, Returned(Dropped(attempts)))
      else Move(s.(cache := s.cache - {StateOf(k)}), id, Returned(Rethrown))
    case Returned(_) => s
  }

  function Forget(s: Sys, entry: Entry): Sys {
    s.(cache := s.cache - {entry})
  }

  function Next(s: Sys, a: Action): Sys
    requires Enabled(s, a)
  {
    match a
    case Arrive(id, key, max) => s.(callers := s.callers[id := Caller(key, max, Start)])
    case Call(id) => CallStep(s, id)
    case WorkSucceeds(id) => Move(s, id, MarkCompleted)
    case WorkFails(id) => Move(s, id, ReadAttempts)
    case Expire(entry) => Forget(s, entry)
  }

  /** Between claim and settle. */
  predicate Holding(pc: Pc) {
    !pc.Start? && !pc.ClearAttempts? && !pc.Returned?
  }

  predicate On(s: Sys, id: nat, k: string) {
    id in s.callers && s.callers[id].key == k
  }

  predicate Holds(s: Sys, id: nat, k: string) {
    On(s, id, k) && Holding(s.callers[id].pc)
  }

  predicate Held(s: Sys, k: string) {
    exists id | id in s.callers :: Holds(s, id, k)
  }

  /** The state of a key does not expire between claim and settle; everything else may expire at any time. */
  predicate Enabled(s: Sys, a: Action) {
    match a
    case Arrive(id, _, _) => id !in s.callers
    case Call(id) => id in s.callers && !s.callers[id].pc.Working? && !s.callers[id].pc.Returned?
    case WorkSucceeds(id) => id in s.callers && s.callers[id].pc.Working?
    case WorkFails(id) => id in s.callers && s.callers[id].pc.Working?
    case Expire(entry) => entry.StateOf? ==> !Held(s, entry.key)
  }

  predicate LegalRun(s: Sys, actions: seq<Action>)
    decreases |actions|
  {
    actions == [] || (Enabled(s, actions[0]) && LegalRun(Next(s, actions[0]), actions[1..]))
  }

  function After(s: Sys, actions: seq<Action>): Sys
    requires LegalRun(s, actions)
    decreases |actions|
  {
    if actions == [] then s else After(Next(s, actions[0]), actions[1..])
  }

  // ----- entry names -----

  function EntryName(e: Entry): string {
    match e
    case StateOf(key) => "idempotency:" + key
    case AttemptsOf(key) => "idempotency:" + (key + ":attempts")
  }

  /** The names in the cache. */
  lemma EntryNames(key: string)
    ensures EntryName(StateOf(key)) == "idempotency:" + key
    ensures EntryName(AttemptsOf(key)) == "idempotency:" + key + ":attempts"
  {
    assert "idempotency:" + (key + ":attempts") == "idempotency:" + key + ":attempts";
  }

  /** No key is another one followed by `:attempts`. */
  predicate NoClash(keys: set<string>) {
    forall a, b | a in keys && b in keys :: a != b + ":attempts"
  }

  lemma NameTail(e: Entry)
    ensures EntryName(e)[|"idempotency:"|..] == if e.StateOf? then e.key else e.key + ":attempts"
  {
  }

  /** Entries may be told apart by their names, as the cache does, exactly for keys that do not clash. */
  lemma {:induction false} NamesIdentifyEntries(keys: set<string>)
    ensures NoClash(keys) <==>
            forall e: Entry, f: Entry | e.key in keys && f.key in keys && EntryName(e) == EntryName(f) :: e == f
  {
    if NoClash(keys) {
      forall e: Entry, f: Entry | e.key in keys && f.key in keys && EntryName(e) == EntryName(f) ensures e == f {
        NameTail(e);
        NameTail(f);
        if e.AttemptsOf? && f.AttemptsOf? {
          SuffixCancels(e.key, f.key, ":attempts");
        }
      }
    } else {
      var a, b :| a in keys && b in keys && a == b + ":attempts";
      assert EntryName(StateOf(a)) == EntryName(AttemptsOf(b));
      assert StateOf(a).key in keys && AttemptsOf(b).key in keys;
    }
  }

  // ----- one undisturbed call -----

  /** The cache and the outcome of one call that nothing interrupts. */
  function Deduplicated(max: int, cache: map<Entry, Value>, key: string, succeeds: bool): (map<Entry, Value>, Outcome) {
    if StateOf(key) in cache then (cache, Duplicate)
    else if succeeds then (cache[StateOf(key) := Completed] - {AttemptsOf(key)}, Processed)
    else
      var attempts := Recorded(cache, key) + 1;
      var counted := cache[AttemptsOf(key) := Attempts(attempts)];
      if attempts >= max then (counted[StateOf(key) := Dead], Dropped(attempts)) else (counted, Rethrown)
  }

  /** The steps of that call. */
  function SoloActions(cache: map<Entry, Value>, id: nat, key: string, max: int, succeeds: bool): seq<Action> {
    if StateOf(key) in cache then [Arrive(id, key, max), Call(id)]
    else if succeeds then [Arrive(id, key, max), Call(id), WorkSucceeds(id), Call(id), Call(id)]
    else [Arrive(id, key, max), Call(id), WorkFails(id), Call(id), Call(id), Call(id)]
  }

  lemma RunStep(s: Sys, a: Action, rest: seq<Action>)
    requires Enabled(s, a) && LegalRun(Next(s, a), rest)
    ensures LegalRun(s, [a] + rest) && After(s, [a] + rest) == After(Next(s, a), rest)
  {
    assert ([a] + rest)[1..] == rest;
  }

  /** What the calls of a caller after its claim leave. */
  function Finish(s: Sys, id: nat, succeeds: bool): Sys
    requires id in s.callers
  {
    var s2 := CallStep(CallStep(s, id), id);
    if succeeds then s2 else CallStep(s2, id)
  }

  function Worked(s: Sys, id: nat, key: string, max: int, succeeds: bool): (s': Sys)
    requires id !in s.callers && StateOf(key) !in s.cache
    ensures id in s'.callers && s'.callers[id] == Caller(key, max, if succeeds then MarkCompleted else ReadAttempts)
    ensures s'.cache == s.cache[StateOf(key) := InFlight]
  {
    var claimed := CallStep(Next(s, Arrive(id, key, max)), id);
    Next(claimed, if succeeds then WorkSucceeds(id) else WorkFails(id))
  }

  lemma FinishRun(s: Sys, id: nat, succeeds: bool)
    requires id in s.callers && s.callers[id].pc == if succeeds then MarkCompleted else ReadAttempts
    ensures var calls := if succeeds then [Call(id), Call(id)] else [Call(id), Call(id), Call(id)];
            LegalRun(s, calls) && After(s, calls) == Finish(s, id, succeeds)
  {
    var c := Call(id);
    var s1 := CallStep(s, id);
    var s2 := CallStep(s1, id);
    if succeeds {
      RunStep(s1, c, []);
      RunStep(s, c, [c]);
      assert [c] + [c] == [c, c];
    } else {
      RunStep(s2, c, []);
      RunStep(s1, c, [c]);
      RunStep(s, c, [c, c]);
      assert [c] + [c] == [c, c] && [c] + [c, c] == [c, c, c];
    }
  }

  lemma FinishResult(s: Sys, id: nat, succeeds: bool, was: map<Entry, Value>)
    requires id in s.callers && s.callers[id].pc == if succeeds then MarkCompleted else ReadAttempts
    requires StateOf(s.callers[id].key) !in was && s.cache == was[StateOf(s.callers[id].key) := InFlight]
    ensures var s' := Finish(s, id, succeeds);
            id in s'.callers && s'.callers[id].pc.Returned? &&
            (s'.cache, s'.callers[id].pc.outcome) == Deduplicated(s.callers[id].max, was, s.callers[id].key, succeeds)
  {
    var key := s.callers[id].key;
    Undo(s.cache, was, key, Attempts(Recorded(was, key) + 1));
  }

  /** A call on its own is one of the protocol's runs. */
  lemma {:induction false} SoloRun(s: Sys, id: nat, key: string, max: int, succeeds: bool)
    requires id !in s.callers
    ensures var actions := SoloActions(s.cache, id, key, max, succeeds);
            LegalRun(s, actions) &&
            var s' := After(s, actions);
            id in s'.callers && s'.callers[id].pc.Returned? &&
            (s'.cache, s'.callers[id].pc.outcome) == Deduplicated(max, s.cache, key, succeeds)
  {
    var arrive := Arrive(id, key, max);
    var arrived := Next(s, arrive);
    if StateOf(key) in s.cache {
      RunStep(arrived, Call(id), []);
      RunStep(s, arrive, [Call(id)]);
      assert [arrive] + [Call(id)] == SoloActions(s.cache, id, key, max, succeeds);
    } else {
      var end := if succeeds then WorkSucceeds(id) else WorkFails(id);
      var calls := if succeeds then [Call(id), Call(id)] else [Call(id), Call(id), Call(id)];
      var worked := Worked(s, id, key, max, succeeds);
      FinishRun(worked, id, succeeds);
      FinishResult(worked, id, succeeds, s.cache);
      RunStep(CallStep(arrived, id), end, calls);
      RunStep(arrived, Call(id), [end] + calls);
      RunStep(s, arrive, [Call(id)] + ([end] + calls));
      assert [arrive] + ([Call(id)] + ([end] + calls)) == SoloActions(s.cache, id, key, max, succeeds);
    }
  }

  /** What is written over or released afterwards, a claim leaves as it was. */
  lemma Undo(claimed: map<Entry, Value>, was: map<Entry, Value>, key: string, v: Value)
    requires StateOf(key) !in was && claimed == was[StateOf(key) := InFlight]
    ensures Recorded(claimed, key) == Recorded(was, key)
    ensures claimed[StateOf(key) := Completed] == was[StateOf(key) := Completed]
    ensures claimed[AttemptsOf(key) := v][StateOf(key) := Dead] == was[AttemptsOf(key) := v][StateOf(key) := Dead]
    ensures claimed[AttemptsOf(key) := v] - {StateOf(key)} == was[AttemptsOf(key) := v]
  {
  }

  /** The store over a cache; whether `work` succeeds is a parameter. */
  class CacheIdempotencyStore {
    var cache: map<Entry, Value>

    constructor ()
      ensures cache == map[]
    {
      cache := map[];
    }

    /** Set if absent. */
    method Add(entry: Entry, value: Value) returns (added: bool)
      modifies this
      ensures added == (entry !in old(cache))
      ensures cache == if added then old(cache)[entry := value] else old(cache)
    {
      added := entry !in cache;
      if added {
        cache := cache[entry := value];
      }
    }

    /** One more failure is recorded, and no other entry is touched. */
    method RecordFailure(key: string) returns (next: nat)
      modifies this
      ensures next == Recorded(old(cache), key) + 1
      ensures Recorded(cache, key) == next
      ensures cache - {AttemptsOf(key)} == old(cache) - {AttemptsOf(key)}
    {
      next := 1;
      if AttemptsOf(key) in cache {
        match cache[AttemptsOf(key)]
        case Attempts(count) => next := count + 1;
        case _ =>
      }
      cache := cache[AttemptsOf(key) := Attempts(next)];
    }

    method Deduplicate(key: string, succeeds: bool, maxAttempts: int) returns (outcome: Outcome)
      modifies this
      ensures (cache, outcome) == Deduplicated(maxAttempts, old(cache), key, succeeds)
      ensures outcome.Duplicate? <==> StateOf(key) in old(cache)
      ensures outcome.Duplicate? ==> cache == old(cache)
      ensures outcome.Processed? <==> StateOf(key) !in old(cache) && succeeds
      ensures outcome.Processed? ==>
                StateOf(key) in cache && cache[StateOf(key)] == Completed && AttemptsOf(key) !in cache
      ensures outcome.Dropped? <==>
              StateOf(key) !in old(cache) && !succeeds && Recorded(old(cache), key) + 1 >= maxAttempts
      ensures outcome.Dropped? ==>
                outcome.attempts == Recorded(old(cache), key) + 1 && StateOf(key) in cache && cache[StateOf(key)] == Dead
      ensures outcome.Rethrown? ==> StateOf(key) !in cache && Recorded(cache, key) == Recorded(old(cache), key) + 1
      ensures forall e: Entry | e.key != key ::
                (e in cache <==> e in old(cache)) && (e in cache ==> cache[e] == old(cache)[e])
    {
      var claimed := Add(StateOf(key), InFlight);
      if !claimed {
        return Duplicate;
      }
      ghost var held := cache;
      Undo(held, old(cache), key, Attempts(Recorded(held, key) + 1));
      if succeeds {
        cache := cache[StateOf(key) := Completed];
        cache := cache - {AttemptsOf(key)};
        return Processed;
      }
      var attempts := RecordFailure(key);
      CountedIs(held, cache, key);
      if attempts >= maxAttempts {
        cache := cache[StateOf(key) := Dead];
        return Dropped(attempts);
      }
      cache := cache - {StateOf(key)};
      return Rethrown;
    }
  }

  lemma CountedIs(was: map<Entry, Value>, now: map<Entry, Value>, key: string)
    requires Recorded(now, key) == Recorded(was, key) + 1 && now - {AttemptsOf(key)} == was - {AttemptsOf(key)}
    ensures now == was[AttemptsOf(key) := Attempts(Recorded(was, key) + 1)]
  {
    forall e | e in was && e != AttemptsOf(key) ensures e in now && now[e] == was[e] {
      assert e in was - {AttemptsOf(key)} && (now - {AttemptsOf(key)})[e] == (was - {AttemptsOf(key)})[e];
    }
    forall e | e in now && e != AttemptsOf(key) ensures e in was {
      assert e in now - {AttemptsOf(key)};
    }
  }
}
