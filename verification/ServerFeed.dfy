/** The server feed: a bounded ring with resume, a snapshot of the latest events, and live subscriptions. */
module ServerFeed {
  import opened Options
  import opened JsMap

  datatype Level = Debug | Info | Warn | Error

  datatype Kind = Progress | Status | Log | Failure | Heartbeat

  /** What a publisher supplies; `payload` stands for the message, progress and data, which the feed only carries. */
  datatype Input = Input(source: string, level: Level, kind: Kind, correlationId: Option<string>, payload: string)

  datatype Event = Event(id: nat, body: Input)

  /** A single source or kind is a list of one. */
  datatype Filter = Filter(source: Option<seq<string>>, correlationId: Option<string>, level: Option<Level>, kind: Option<seq<Kind>>)

  datatype Subscription = Subscription(id: nat, filter: Filter)

  function LevelRank(level: Level): nat {
    match level
    case Debug => 0
    case Info => 1
    case Warn => 2
    case Error => 3
  }

  predicate Matches(e: Event, filter: Option<Filter>) {
    match filter
    case None => true
    case Some(f) =>
      (f.source.Some? ==> f.source.value == [] || e.body.source in f.source.value) &&
      (f.correlationId.Some? ==> e.body.correlationId == f.correlationId) &&
      (f.level.Some? ==> LevelRank(e.body.level) >= LevelRank(f.level.value)) &&
      (f.kind.Some? ==> f.kind.value == [] || e.body.kind in f.kind.value)
  }

  const ANYTHING := Filter(None, None, None, None)

  /** A filter is the conjunction of its criteria; an empty list of sources or kinds is no criterion. */
  lemma MatchesEach(e: Event, f: Filter)
    ensures Matches(e, None) && Matches(e, Some(ANYTHING))
    ensures Matches(e, Some(f)) <==>
            Matches(e, Some(ANYTHING.(source := f.source))) && Matches(e, Some(ANYTHING.(correlationId := f.correlationId))) &&
            Matches(e, Some(ANYTHING.(level := f.level))) && Matches(e, Some(ANYTHING.(kind := f.kind)))
    ensures forall c :: Matches(e, Some(ANYTHING.(correlationId := Some(c)))) <==> e.body.correlationId == Some(c)
    ensures forall ss: seq<string> ::
              Matches(e, Some(ANYTHING.(source := Some(ss)))) <==> |ss| == 0 || exists i | 0 <= i < |ss| :: ss[i] == e.body.source
    ensures forall ks: seq<Kind> ::
              Matches(e, Some(ANYTHING.(kind := Some(ks)))) <==> |ks| == 0 || exists i | 0 <= i < |ks| :: ks[i] == e.body.kind
  {
  }

  /** The levels that pass each minimum. */
  lemma LevelsThatPass(e: Event)
    ensures Matches(e, Some(ANYTHING.(level := Some(Debug))))
    ensures Matches(e, Some(ANYTHING.(level := Some(Info)))) <==> e.body.level in {Info, Warn, Error}
    ensures Matches(e, Some(ANYTHING.(level := Some(Warn)))) <==> e.body.level in {Warn, Error}
    ensures Matches(e, Some(ANYTHING.(level := Some(Error)))) <==> e.body.level in {Error}
  {
  }

  /** A higher minimum passes no more events. */
  lemma HigherPassesFewer(e: Event, f: Filter, low: Level, high: Level)
    requires (low, high) in {(Debug, Info), (Debug, Warn), (Debug, Error), (Info, Warn), (Info, Error), (Warn, Error)}
    requires Matches(e, Some(f.(level := Some(high))))
    ensures Matches(e, Some(f.(level := Some(low))))
  {
  }

  /** Current-state kinds with a correlation id seed the snapshot. */
  predicate Qualifies(e: Event) {
    e.body.correlationId.Some? && (e.body.kind.Progress? || e.body.kind.Status? || e.body.kind.Failure?)
  }

  function KeyOf(e: Event): string
    requires Qualifies(e)
  {
    e.body.source + ":" + e.body.correlationId.value
  }

  // ----- the feed, as what each operation makes of it -----

  datatype Feed = Feed(
    bufferSize: nat,
    snapshotCap: nat,
    last: nat,
    ring: seq<Event>,
    snapshots: seq<(string, Event)>,
    listeners: seq<Subscription>,
    received: seq<seq<Event>>)

  datatype Op = Publish(input: Input) | Subscribe(filter: Filter) | Unsubscribe(sub: nat)

  function AtLeastOne(n: int): nat {
    if n < 1 then 1 else n
  }

  function New(bufferSize: int, snapshotCap: int): Feed {
    Feed(AtLeastOne(bufferSize), AtLeastOne(snapshotCap), 0, [], [], [], [])
  }

  function Buffered(ring: seq<Event>, e: Event, size: nat): seq<Event> {
    if |ring + [e]| > size then (ring + [e])[1..] else ring + [e]
  }

  function Snapshotted(m: seq<(string, Event)>, e: Event, cap: nat): seq<(string, Event)> {
    if !Qualifies(e) then m else Renewed(m, KeyOf(e), e, cap)
  }

  /** `delete`, `set`, and the eviction of the first key. */
  function Renewed(m: seq<(string, Event)>, key: string, e: Event, cap: nat): seq<(string, Event)> {
    var renewed := Put(Drop(m, key), key, e);
    if |renewed| > cap && renewed != [] then Drop(renewed, renewed[0].0) else renewed
  }

  /** Every listener whose filter matches is called with the event, whether or not an earlier one throws. */
  function FannedOut(received: seq<seq<Event>>, listeners: seq<Subscription>, e: Event): (r: seq<seq<Event>>)
    requires forall i | 0 <= i < |listeners| :: listeners[i].id < |received|
    ensures |r| == |received|
    decreases |listeners|
  {
    if listeners == [] then received else
      var r := FannedOut(received, listeners[..|listeners| - 1], e);
      var s := listeners[|listeners| - 1];
      if Matches(e, Some(s.filter)) then r[s.id := r[s.id] + [e]] else r
  }

  function Without(listeners: seq<Subscription>, sub: nat): (r: seq<Subscription>)
    ensures forall s :: s in r <==> s in listeners && s.id != sub
  {
    if listeners == [] then []
    else (if listeners[0].id == sub then [] else [listeners[0]]) + Without(listeners[1..], sub)
  }

  /** Subscriptions are in the order they were made, each with a place in the log of calls. */
  predicate Registered(listeners: seq<Subscription>, received: seq<seq<Event>>) {
    (forall i | 0 <= i < |listeners| :: listeners[i].id < |received|) &&
    forall i, j | 0 <= i < j < |listeners| :: listeners[i].id < listeners[j].id
  }

  function Apply(f: Feed, op: Op): (r: Feed)
    requires Registered(f.listeners, f.received)
    ensures Registered(r.listeners, r.received)
  {
    match op
    case Publish(input) =>
      var e := Event(f.last + 1, input);
      f.(last := f.last + 1,
         ring := Buffered(f.ring, e, f.bufferSize),
         snapshots := Snapshotted(f.snapshots, e, f.snapshotCap),
         received := FannedOut(f.received, f.listeners, e))
    case Subscribe(filter) =>
      f.(listeners := f.listeners + [Subscription(|f.received|, filter)], received := f.received + [[]])
    case Unsubscribe(sub) =>
      WithoutInOrder(f.listeners, f.received, sub);
      f.(listeners := Without(f.listeners, sub))
  }

  lemma OneBefore(s: Subscription, rest: seq<Subscription>, received: seq<seq<Event>>)
    requires Registered(rest, received) && s.id < |received| && forall t | t in rest :: s.id < t.id
    ensures Registered([s] + rest, received)
  {
  }

  lemma TailInOrder(listeners: seq<Subscription>, received: seq<seq<Event>>)
    requires listeners != [] && Registered(listeners, received)
    ensures Registered(listeners[1..], received) && forall t | t in listeners[1..] :: listeners[0].id < t.id
  {
  }

  lemma {:induction false} WithoutInOrder(listeners: seq<Subscription>, received: seq<seq<Event>>, sub: nat)
    requires Registered(listeners, received)
    ensures Registered(Without(listeners, sub), received)
  {
    if listeners != [] {
      TailInOrder(listeners, received);
      WithoutInOrder(listeners[1..], received, sub);
      OneBefore(listeners[0], Without(listeners[1..], sub), received);
    }
  }

  function After(bufferSize: int, snapshotCap: int, ops: seq<Op>): (f: Feed)
    ensures Registered(f.listeners, f.received)
    ensures f.bufferSize == AtLeastOne(bufferSize) && f.snapshotCap == AtLeastOne(snapshotCap)
  {
    if ops == [] then New(bufferSize, snapshotCap)
    else Apply(After(bufferSize, snapshotCap, ops[..|ops| - 1]), ops[|ops| - 1])
  }

  // ----- the whole history, which the feed does not keep -----

  function Recorded(h: seq<Event>, op: Op): seq<Event> {
    if op.Publish? then h + [Event(|h| + 1, op.input)] else h
  }

  /** The events are numbered as they were published. */
  predicate Numbered(h: seq<Event>) {
    forall i | 0 <= i < |h| :: h[i].id == i + 1
  }

  function History(ops: seq<Op>): (h: seq<Event>)
    ensures Numbered(h)
  {
    if ops == [] then [] else Recorded(History(ops[..|ops| - 1]), ops[|ops| - 1])
  }

  function LastN<T>(s: seq<T>, n: nat): seq<T> {
    if |s| <= n then s else s[|s| - n..]
  }

  predicate Superseded(key: string, later: seq<Event>) {
    exists i | 0 <= i < |later| :: Qualifies(later[i]) && KeyOf(later[i]) == key
  }

  /** Per key its latest qualifying event, in the order those were published. */
  function Latest(h: seq<Event>): seq<(string, Event)> {
    if h == [] then []
    else if Qualifies(h[0]) && !Superseded(KeyOf(h[0]), h[1..]) then [(KeyOf(h[0]), h[0])] + Latest(h[1..])
    else Latest(h[1..])
  }

  /** The events after `lastId` that match. */
  function Since(h: seq<Event>, lastId: int, filter: Option<Filter>): seq<Event> {
    if h == [] then []
    else (if h[0].id > lastId && Matches(h[0], filter) then [h[0]] else []) + Since(h[1..], lastId, filter)
  }

  // ----- the ring -----

  lemma BufferedIsTail(h: seq<Event>, e: Event, size: nat)
    requires size >= 1
    ensures Buffered(LastN(h, size), e, size) == LastN(h + [e], size)
  {
  }

  // ----- the snapshot -----

  lemma LatestMembers(h: seq<Event>)
    ensures forall x | x in Latest(h) :: Qualifies(x.1) && x.0 == KeyOf(x.1) && x.1 in h
  {
  }

  lemma {:induction false} LatestDistinct(h: seq<Event>)
    ensures DistinctKeys(Latest(h))
  {
    if h != [] {
      LatestDistinct(h[1..]);
      var rest := Latest(h[1..]);
      if Qualifies(h[0]) && !Superseded(KeyOf(h[0]), h[1..]) {
        LatestMembers(h[1..]);
        forall j | 0 <= j < |rest| ensures KeyOf(h[0]) != rest[j].0 {
          assert rest[j] in rest;
        }
      }
    }
  }

  /** One more event: its key moves to the end. */
  lemma {:induction false} LatestExtends(h: seq<Event>, e: Event)
    ensures Latest(h + [e]) == if Qualifies(e) then Drop(Latest(h), KeyOf(e)) + [(KeyOf(e), e)] else Latest(h)
  {
    if h == [] {
      assert [e][1..] == [];
    } else {
      var t := h[1..];
      LatestExtends(t, e);
      assert (h + [e])[1..] == t + [e];
      if Qualifies(h[0]) {
        SupersededExtends(KeyOf(h[0]), t, e);
      }
    }
  }

  lemma SupersededExtends(key: string, later: seq<Event>, e: Event)
    ensures Superseded(key, later + [e]) <==> Superseded(key, later) || (Qualifies(e) && KeyOf(e) == key)
  {
    var all := later + [e];
    if Qualifies(e) && KeyOf(e) == key {
      assert all[|later|] == e;
    }
    if i :| 0 <= i < |later| && Qualifies(later[i]) && KeyOf(later[i]) == key {
      assert all[i] == later[i];
    }
  }

  lemma {:induction false} DropSplits(a: seq<(string, Event)>, b: seq<(string, Event)>, k: string)
    ensures Drop(a + b, k) == Drop(a, k) + Drop(b, k)
  {
    if a == [] {
      assert a + b == b;
    } else {
      assert (a + b)[1..] == a[1..] + b;
      DropSplits(a[1..], b, k);
    }
  }

  lemma {:induction false} DropLosesOne(m: seq<(string, Event)>, k: string)
    requires DistinctKeys(m)
    ensures |m| - 1 <= |Drop(m, k)| <= |m|
  {
    if m != [] {
      if m[0].0 == k {
        assert !Has(m[1..], k);
        DropAbsent(m[1..], k);
      } else {
        DropLosesOne(m[1..], k);
      }
    }
  }

  /** `delete` then `set`: the key moves to the end. */
  lemma MovesLast(m: seq<(string, Event)>, k: string, e: Event)
    requires DistinctKeys(m)
    ensures var renewed := Put(Drop(m, k), k, e);
            renewed == Drop(m, k) + [(k, e)] && DistinctKeys(renewed) && |renewed| <= |m| + 1
  {
    var rest := Drop(m, k);
    DropKeepsDistinct(m, k);
    DropLosesOne(m, k);
    forall i | 0 <= i < |rest| ensures rest[i].0 != k {
      assert rest[i] in rest;
    }
  }

  lemma EvictsFirst(m: seq<(string, Event)>)
    requires DistinctKeys(m) && m != []
    ensures Drop(m, m[0].0) == m[1..]
  {
    assert !Has(m[1..], m[0].0);
    DropAbsent(m[1..], m[0].0);
  }

  /** The key moves to the end and the newest `cap` stay. */
  lemma RenewedIsLast(m: seq<(string, Event)>, k: string, e: Event, cap: nat)
    requires DistinctKeys(m) && |m| <= cap && cap >= 1
    ensures Renewed(m, k, e, cap) == LastN(Drop(m, k) + [(k, e)], cap)
  {
    MovesLast(m, k, e);
    var renewed := Put(Drop(m, k), k, e);
    if |renewed| > cap {
      EvictsFirst(renewed);
    }
  }

  /** Truncating before the next event makes no difference. */
  lemma TruncatingEarly(m: seq<(string, Event)>, k: string, x: (string, Event), cap: nat)
    requires DistinctKeys(m) && cap >= 1
    ensures LastN(Drop(LastN(m, cap), k) + [x], cap) == LastN(Drop(m, k) + [x], cap)
  {
    if |m| > cap {
      var a, b := m[..|m| - cap], LastN(m, cap);
      assert m == a + b;
      DropSplits(a, b, k);
      DropLosesOne(b, k);
      var lost, kept := Drop(a, k), Drop(b, k) + [x];
      assert Drop(m, k) + [x] == lost + kept;
      LastNOfTail(lost, kept, cap);
    }
  }

  lemma LastNOfTail<T>(a: seq<T>, b: seq<T>, n: nat)
    requires |b| >= n
    ensures LastN(a + b, n) == LastN(b, n)
  {
  }

  lemma LastNDistinct(m: seq<(string, Event)>, n: nat)
    requires DistinctKeys(m)
    ensures DistinctKeys(LastN(m, n)) && |LastN(m, n)| <= n
  {
  }

  /** What the feed keeps is a function of the whole history. */
  ghost predicate Refines(f: Feed, h: seq<Event>) {
    f.last == |h| && f.ring == LastN(h, f.bufferSize) && f.snapshots == LastN(Latest(h), f.snapshotCap)
  }

  lemma SnapshotRefines(h: seq<Event>, e: Event, cap: nat)
    requires cap >= 1
    ensures Snapshotted(LastN(Latest(h), cap), e, cap) == LastN(Latest(h + [e]), cap)
  {
    LatestExtends(h, e);
    if Qualifies(e) {
      LatestDistinct(h);
      LastNDistinct(Latest(h), cap);
      RenewedIsLast(LastN(Latest(h), cap), KeyOf(e), e, cap);
      TruncatingEarly(Latest(h), KeyOf(e), (KeyOf(e), e), cap);
    }
  }

  lemma StepRefines(f: Feed, op: Op, h: seq<Event>)
    requires Registered(f.listeners, f.received) && Refines(f, h) && f.bufferSize >= 1 && f.snapshotCap >= 1
    ensures Refines(Apply(f, op), Recorded(h, op))
  {
    if op.Publish? {
      var e := Event(|h| + 1, op.input);
      BufferedIsTail(h, e, f.bufferSize);
      SnapshotRefines(h, e, f.snapshotCap);
    }
  }

  /**
   * After any operations the ring is the last `bufferSize` events of the history, and the snapshot is the last
   * `snapshotCap` of all keys' latest events: evicting one at a time equals truncating once.
   */
  lemma {:induction false} FeedRefinesHistory(bufferSize: int, snapshotCap: int, ops: seq<Op>)
    ensures Refines(After(bufferSize, snapshotCap, ops), History(ops))
  {
    if ops != [] {
      var before := ops[..|ops| - 1];
      FeedRefinesHistory(bufferSize, snapshotCap, before);
      StepRefines(After(bufferSize, snapshotCap, before), ops[|ops| - 1], History(before));
    }
  }

  // ----- replay -----

  function Floor(f: Feed): nat {
    if |f.ring| > 0 then f.ring[0].id else f.last + 1
  }

  predicate Gap(f: Feed, lastId: int) {
    lastId > 0 && lastId < Floor(f) - 1
  }

  function Replayed(f: Feed, lastId: int, filter: Option<Filter>): seq<Event> {
    Since(f.ring, lastId, filter)
  }

  lemma GapOfTail(h: seq<Event>, ring: seq<Event>, evicted: nat, lastId: nat)
    requires evicted <= |h| && ring == h[evicted..] && Numbered(h)
    ensures lastId < evicted <==> exists e | e in h :: e.id > lastId && e !in ring
  {
    if lastId < evicted {
      var e := h[lastId];
      assert e in h && e.id > lastId;
      forall i | 0 <= i < |ring| ensures ring[i] != e {
        assert ring[i] == h[evicted + i];
      }
    }
    forall i | evicted <= i < |h| ensures h[i] in ring {
      assert h[i] == ring[i - evicted];
    }
  }

  lemma GapOf(f: Feed, h: seq<Event>, lastId: int)
    requires Refines(f, h) && Numbered(h) && f.bufferSize >= 1
    ensures Gap(f, lastId) <==> lastId > 0 && exists e | e in h :: e.id > lastId && e !in f.ring
  {
    if lastId > 0 {
      GapOfTail(h, f.ring, |h| - |f.ring|, lastId);
    }
  }

  /** A gap is reported exactly to a resuming client that has not seen some event that was evicted. */
  lemma {:induction false} GapMeansEvicted(bufferSize: int, snapshotCap: int, ops: seq<Op>, lastId: int)
    ensures var f := After(bufferSize, snapshotCap, ops);
            Gap(f, lastId) <==> lastId > 0 && exists e | e in History(ops) :: e.id > lastId && e !in f.ring
  {
    FeedRefinesHistory(bufferSize, snapshotCap, ops);
    GapOf(After(bufferSize, snapshotCap, ops), History(ops), lastId);
  }

  lemma {:induction false} SinceSplits(a: seq<Event>, b: seq<Event>, lastId: int, filter: Option<Filter>)
    ensures Since(a + b, lastId, filter) == Since(a, lastId, filter) + Since(b, lastId, filter)
  {
    if a == [] {
      assert a + b == b;
    } else {
      assert (a + b)[1..] == a[1..] + b;
      SinceSplits(a[1..], b, lastId, filter);
    }
  }

  lemma {:induction false} SinceNone(h: seq<Event>, lastId: int, filter: Option<Filter>)
    requires forall i | 0 <= i < |h| :: h[i].id <= lastId
    ensures Since(h, lastId, filter) == []
  {
    if h != [] {
      SinceNone(h[1..], lastId, filter);
    }
  }

  /** What `Since` picks: exactly the later matching events, each once and in id order. */
  lemma {:induction false} SinceExact(h: seq<Event>, lastId: int, filter: Option<Filter>)
    requires forall i, j | 0 <= i < j < |h| :: h[i].id < h[j].id
    ensures var r := Since(h, lastId, filter);
            (forall e :: e in r <==> e in h && e.id > lastId && Matches(e, filter)) &&
            forall i, j | 0 <= i < j < |r| :: r[i].id < r[j].id
  {
    if h != [] {
      SinceExact(h[1..], lastId, filter);
      var rest := Since(h[1..], lastId, filter);
      assert forall e :: e in h <==> e == h[0] || e in h[1..];
      forall j | 0 <= j < |rest| ensures h[0].id < rest[j].id {
        assert rest[j] in rest;
      }
    }
  }

  lemma ReplayOf(f: Feed, h: seq<Event>, lastId: int, filter: Option<Filter>)
    requires Refines(f, h) && Numbered(h) && f.bufferSize >= 1 && lastId > 0 && !Gap(f, lastId)
    ensures Replayed(f, lastId, filter) == Since(h, lastId, filter)
  {
    var evicted := |h| - |f.ring|;
    assert h == h[..evicted] + f.ring;
    SinceSplits(h[..evicted], f.ring, lastId, filter);
    SinceNone(h[..evicted], lastId, filter);
  }

  /** Without a gap a resuming client gets every matching event after its last one, as if all were still buffered. */
  lemma {:induction false} ReplayComplete(bufferSize: int, snapshotCap: int, ops: seq<Op>, lastId: int, filter: Option<Filter>)
    requires lastId > 0 && !Gap(After(bufferSize, snapshotCap, ops), lastId)
    ensures Replayed(After(bufferSize, snapshotCap, ops), lastId, filter) == Since(History(ops), lastId, filter)
  {
    FeedRefinesHistory(bufferSize, snapshotCap, ops);
    ReplayOf(After(bufferSize, snapshotCap, ops), History(ops), lastId, filter);
  }

  // ----- live delivery -----

  predicate Called(listeners: seq<Subscription>, e: Event, sub: nat) {
    exists s | s in listeners :: s.id == sub && Matches(e, Some(s.filter))
  }

  lemma CalledExtends(front: seq<Subscription>, s: Subscription, received: seq<seq<Event>>, e: Event)
    requires Registered(front + [s], received)
    ensures Registered(front, received) && !Called(front, e, s.id)
    ensures forall sub :: Called(front + [s], e, sub) <==> Called(front, e, sub) || (s.id == sub && Matches(e, Some(s.filter)))
  {
    var all := front + [s];
    assert forall i | 0 <= i < |front| :: all[i] == front[i];
    assert forall x :: x in all <==> x in front || x == s;
    forall x | x in front ensures x.id != s.id {
      var i :| 0 <= i < |front| && front[i] == x;
      assert all[i].id < all[|front|].id;
    }
  }

  /** One event reaches each matching subscription once and the others not at all. */
  lemma {:induction false} FannedOutAt(received: seq<seq<Event>>, listeners: seq<Subscription>, e: Event, sub: nat)
    requires Registered(listeners, received) && sub < |received|
    ensures FannedOut(received, listeners, e)[sub] == received[sub] + (if Called(listeners, e, sub) then [e] else [])
    decreases |listeners|
  {
    if listeners != [] {
      var front, s := listeners[..|listeners| - 1], listeners[|listeners| - 1];
      assert listeners == front + [s];
      CalledExtends(front, s, received, e);
      FannedOutAt(received, front, e, sub);
    }
  }

  lemma OnlyOne(listeners: seq<Subscription>, received: seq<seq<Event>>, s: Subscription, t: Subscription)
    requires Registered(listeners, received) && s in listeners && t in listeners && s.id == t.id
    ensures s == t
  {
    var i :| 0 <= i < |listeners| && listeners[i] == s;
    var j :| 0 <= j < |listeners| && listeners[j] == t;
    assert i == j;
  }

  /** The subscription is live and has been called with what matched after the first `from` events. */
  ghost predicate Delivered(f: Feed, h: seq<Event>, s: Subscription, from: nat) {
    s.id < |f.received| && s in f.listeners && f.received[s.id] == Since(h, from, Some(s.filter))
  }

  lemma SubscribeDelivers(f: Feed, h: seq<Event>, filter: Filter)
    requires Registered(f.listeners, f.received) && Numbered(h)
    ensures Delivered(Apply(f, Subscribe(filter)), h, Subscription(|f.received|, filter), |h|)
  {
    SinceNone(h, |h|, Some(filter));
  }

  lemma {:induction false} KeepsDelivering(
    bufferSize: int, snapshotCap: int, start: seq<Op>, later: seq<Op>, s: Subscription, from: nat)
    requires Delivered(After(bufferSize, snapshotCap, start), History(start), s, from) && from <= |History(start)|
    requires Unsubscribe(s.id) !in later
    ensures Delivered(After(bufferSize, snapshotCap, start + later), History(start + later), s, from)
    decreases |later|
  {
    if later == [] {
      assert start + later == start;
    } else {
      var op, next := later[0], start + [later[0]];
      assert op in later && start + later == next + later[1..];
      FeedRefinesHistory(bufferSize, snapshotCap, start);
      StepDelivers(After(bufferSize, snapshotCap, start), History(start), op, s, from);
      KeepsDelivering(bufferSize, snapshotCap, next, later[1..], s, from);
    }
  }

  /** A subscription that is not cancelled has been called with what matched since it was made. */
  lemma {:induction false} DeliversSinceSubscribed(bufferSize: int, snapshotCap: int, before: seq<Op>, filter: Filter, later: seq<Op>)
    requires Unsubscribe(|After(bufferSize, snapshotCap, before).received|) !in later
    ensures var s := Subscription(|After(bufferSize, snapshotCap, before).received|, filter);
            Delivered(After(bufferSize, snapshotCap, before + [Subscribe(filter)] + later),
                      History(before + [Subscribe(filter)] + later), s, |History(before)|)
  {
    var f, h := After(bufferSize, snapshotCap, before), History(before);
    SubscribeDelivers(f, h, filter);
    KeepsDelivering(bufferSize, snapshotCap, before + [Subscribe(filter)], later, Subscription(|f.received|, filter), |h|);
  }

  lemma StepDelivers(f: Feed, h: seq<Event>, op: Op, s: Subscription, from: nat)
    requires Registered(f.listeners, f.received) && f.last == |h| && from <= |h|
    requires Delivered(f, h, s, from) && op != Unsubscribe(s.id)
    ensures Delivered(Apply(f, op), Recorded(h, op), s, from)
  {
    if op.Publish? {
      DeliversNext(f, h, op.input, s, from);
    }
  }

  lemma DeliversNext(f: Feed, h: seq<Event>, input: Input, s: Subscription, from: nat)
    requires Registered(f.listeners, f.received) && f.last == |h| && from <= |h|
    requires Delivered(f, h, s, from)
    ensures Delivered(Apply(f, Publish(input)), h + [Event(|h| + 1, input)], s, from)
  {
    var e := Event(|h| + 1, input);
    FannedOutAt(f.received, f.listeners, e, s.id);
    forall t | t in f.listeners && t.id == s.id ensures t == s {
      OnlyOne(f.listeners, f.received, s, t);
    }
    SinceSplits(h, [e], from, Some(s.filter));
    assert [e][1..] == [];
  }

  lemma {:induction false} HistoryGrows(before: seq<Op>, later: seq<Op>)
    ensures |History(before)| <= |History(before + later)|
    ensures History(before + later)[..|History(before)|] == History(before)
    decreases |later|
  {
    if later == [] {
      assert before + later == before;
    } else {
      HistoryGrows(before, later[..|later| - 1]);
      assert (before + later)[..|before + later| - 1] == before + later[..|later| - 1];
    }
  }

  /** What came before a mark and what came after it make up the whole. */
  lemma SinceJoins(h: seq<Event>, h': seq<Event>, lastId: int, filter: Option<Filter>)
    requires lastId <= |h| <= |h'| && h'[..|h|] == h && Numbered(h')
    ensures Since(h, lastId, filter) + Since(h', |h|, filter) == Since(h', lastId, filter)
  {
    var tail := h'[|h|..];
    assert h' == h + tail;
    forall i | 0 <= i < |h| ensures h[i].id <= |h| {
      assert h[i] == h'[i];
    }
    SinceSplits(h, tail, lastId, filter);
    SinceSplits(h, tail, |h|, filter);
    SinceNone(h, |h|, filter);
    SinceLater(tail, lastId, |h|, filter);
  }

  /**
   * Replay followed at once by a subscription: the client gets every matching event after its last one, exactly once
   * and in order, however the feed goes on.
   */
  lemma {:induction false} ResumeExactlyOnce(bufferSize: int, snapshotCap: int, before: seq<Op>, lastId: int, filter: Filter, later: seq<Op>)
    requires 0 < lastId <= |History(before)| && !Gap(After(bufferSize, snapshotCap, before), lastId)
    requires Unsubscribe(|After(bufferSize, snapshotCap, before).received|) !in later
    ensures var f := After(bufferSize, snapshotCap, before);
            var f' := After(bufferSize, snapshotCap, before + [Subscribe(filter)] + later);
            |f.received| < |f'.received| &&
            Replayed(f, lastId, Some(filter)) + f'.received[|f.received|] ==
              Since(History(before + [Subscribe(filter)] + later), lastId, Some(filter))
  {
    ReplayComplete(bufferSize, snapshotCap, before, lastId, Some(filter));
    DeliversSinceSubscribed(bufferSize, snapshotCap, before, filter, later);
    assert before + ([Subscribe(filter)] + later) == before + [Subscribe(filter)] + later;
    HistoryGrows(before, [Subscribe(filter)] + later);
    SinceJoins(History(before), History(before + [Subscribe(filter)] + later), lastId, Some(filter));
  }

  /** Events beyond both marks are picked by either. */
  lemma {:induction false} SinceLater(h: seq<Event>, a: int, b: int, filter: Option<Filter>)
    requires forall i | 0 <= i < |h| :: h[i].id > a && h[i].id > b
    ensures Since(h, a, filter) == Since(h, b, filter)
  {
    if h != [] {
      SinceLater(h[1..], a, b, filter);
    }
  }

  // ----- snapshot keys -----

  lemma FirstColon(a: string, rest: string)
    requires ':' !in a
    ensures var s := a + ":" + rest;
            s[|a|] == ':' && s[..|a|] == a && s[|a| + 1..] == rest && forall i | 0 <= i < |a| :: s[i] != ':'
  {
    var s := a + ":" + rest;
    forall i | 0 <= i < |a| ensures s[i] != ':' {
      assert s[i] == a[i];
    }
  }

  /** Two events share a snapshot entry only for the same source and correlation id, as long as no source has a colon. */
  lemma {:induction false} KeyIdentifies(d: Event, e: Event)
    requires Qualifies(d) && Qualifies(e) && ':' !in d.body.source && ':' !in e.body.source
    ensures KeyOf(d) == KeyOf(e) <==> d.body.source == e.body.source && d.body.correlationId == e.body.correlationId
  {
    FirstColon(d.body.source, d.body.correlationId.value);
    FirstColon(e.body.source, e.body.correlationId.value);
    if KeyOf(d) == KeyOf(e) {
      assert |d.body.source| == |e.body.source|;
    }
  }

  // ----- what a snapshot shows -----

  predicate Increasing(h: seq<Event>) {
    forall i, j | 0 <= i < j < |h| :: h[i].id < h[j].id
  }

  predicate IncreasingValues(m: seq<(string, Event)>) {
    forall i, j | 0 <= i < j < |m| :: m[i].1.id < m[j].1.id
  }

  /** No later event of `h` has the key of `e`. */
  predicate IsLatest(h: seq<Event>, e: Event) {
    Qualifies(e) && e in h && forall d | d in h && Qualifies(d) && KeyOf(d) == KeyOf(e) :: d.id <= e.id
  }

  lemma SupersededMeans(h: seq<Event>)
    requires Increasing(h) && h != [] && Qualifies(h[0])
    ensures IsLatest(h, h[0]) <==> !Superseded(KeyOf(h[0]), h[1..])
  {
    if i :| 0 <= i < |h[1..]| && Qualifies(h[1..][i]) && KeyOf(h[1..][i]) == KeyOf(h[0]) {
      assert h[i + 1] in h && h[0].id < h[i + 1].id;
    } else {
      assert forall d | d in h[1..] :: !(Qualifies(d) && KeyOf(d) == KeyOf(h[0]));
      assert forall d :: d in h <==> d == h[0] || d in h[1..];
    }
  }

  lemma LatestOfRest(h: seq<Event>, e: Event)
    requires Increasing(h) && h != [] && e != h[0]
    ensures IsLatest(h, e) <==> IsLatest(h[1..], e)
  {
    assert forall d :: d in h <==> d == h[0] || d in h[1..];
    forall d | d in h[1..] ensures h[0].id < d.id {
    }
  }

  /** `Latest` holds exactly the events no later one of their key follows, oldest first. */
  lemma {:induction false} LatestExact(h: seq<Event>)
    requires Increasing(h)
    ensures IncreasingValues(Latest(h))
    ensures forall e :: IsLatest(h, e) <==> Qualifies(e) && (KeyOf(e), e) in Latest(h)
  {
    if h != [] {
      var t := h[1..];
      LatestExact(t);
      LatestMembers(t);
      forall j | 0 <= j < |Latest(t)| ensures h[0].id < Latest(t)[j].1.id {
        assert Latest(t)[j] in Latest(t);
      }
      forall e ensures IsLatest(h, e) <==> Qualifies(e) && (KeyOf(e), e) in Latest(h) {
        if e != h[0] {
          LatestOfRest(h, e);
        } else if Qualifies(e) {
          SupersededMeans(h);
          assert (KeyOf(e), e) !in Latest(t);
        }
      }
    }
  }

  /** The snapshot's events that match, oldest first. */
  function MatchingValues(m: seq<(string, Event)>, filter: Option<Filter>): seq<Event> {
    if m == [] then []
    else MatchingValues(m[..|m| - 1], filter) + (if Matches(m[|m| - 1].1, filter) then [m[|m| - 1].1] else [])
  }

  lemma {:induction false} MatchingMembers(m: seq<(string, Event)>, filter: Option<Filter>, e: Event)
    ensures e in MatchingValues(m, filter) <==> Matches(e, filter) && exists k :: (k, e) in m
    decreases |m|
  {
    if m != [] {
      var front, x := m[..|m| - 1], m[|m| - 1];
      MatchingMembers(front, filter, e);
      assert m == front + [x] && (x.0, x.1) in m;
      assert forall y :: y in m <==> y in front || y == x;
    }
  }

  lemma {:induction false} MatchingOrder(m: seq<(string, Event)>, filter: Option<Filter>)
    requires IncreasingValues(m)
    ensures Increasing(MatchingValues(m, filter))
    decreases |m|
  {
    if m != [] {
      var front, x := m[..|m| - 1], m[|m| - 1];
      MatchingOrder(front, filter);
      forall e | e in MatchingValues(front, filter) ensures e.id < x.1.id {
        MatchingMembers(front, filter, e);
        var k :| (k, e) in front;
        var i :| 0 <= i < |front| && front[i] == (k, e);
        assert m[i] == (k, e);
      }
    }
  }

  /** What a snapshot picks: exactly the entries' events that match, in id order. */
  lemma {:induction false} MatchingExact(m: seq<(string, Event)>, filter: Option<Filter>)
    requires IncreasingValues(m)
    ensures forall e :: e in MatchingValues(m, filter) <==> Matches(e, filter) && exists k :: (k, e) in m
    ensures Increasing(MatchingValues(m, filter))
  {
    MatchingOrder(m, filter);
    forall e ensures e in MatchingValues(m, filter) <==> Matches(e, filter) && exists k :: (k, e) in m {
      MatchingMembers(m, filter, e);
    }
  }

  /** Which events are ever shown: the latest of their key among progress, status and errors with a correlation id. */
  lemma {:induction false} LatestOfKind(h: seq<Event>, e: Event)
    requires Increasing(h)
    ensures (exists k :: (k, e) in Latest(h)) <==>
            e in h && e.body.correlationId.Some? && e.body.kind in {Progress, Status, Failure} &&
            forall d | d in h && d.body.correlationId.Some? && d.body.kind in {Progress, Status, Failure} &&
                       d.body.source + ":" + d.body.correlationId.value == e.body.source + ":" + e.body.correlationId.value ::
              d.id <= e.id
  {
    LatestExact(h);
    LatestMembers(h);
    assert IsLatest(h, e) <==> exists k :: (k, e) in Latest(h);
  }

  lemma NumberedIncreasing(h: seq<Event>)
    requires Numbered(h)
    ensures Increasing(h)
  {
  }

  lemma NewestKept(m: seq<(string, Event)>, n: nat)
    requires IncreasingValues(m)
    ensures IncreasingValues(LastN(m, n))
  {
  }

  // ----- the feed itself -----

  /** What the feed holds, against the whole history and the moment at which each subscription was made. */
  ghost predicate Consistent(f: Feed, h: seq<Event>, since: seq<nat>) {
    f.bufferSize >= 1 && f.snapshotCap >= 1 && Registered(f.listeners, f.received) && Numbered(h) && Refines(f, h) &&
    |since| == |f.received| &&
    forall s | s in f.listeners :: since[s.id] <= |h| && Delivered(f, h, s, since[s.id])
  }

  lemma PublishConsistent(f: Feed, h: seq<Event>, since: seq<nat>, input: Input)
    requires Consistent(f, h, since)
    ensures Consistent(Apply(f, Publish(input)), h + [Event(|h| + 1, input)], since)
  {
    StepRefines(f, Publish(input), h);
    forall s | s in f.listeners ensures Delivered(Apply(f, Publish(input)), h + [Event(|h| + 1, input)], s, since[s.id]) {
      DeliversNext(f, h, input, s, since[s.id]);
    }
  }

  lemma FannedOutAll(received: seq<seq<Event>>, listeners: seq<Subscription>, e: Event)
    requires Registered(listeners, received)
    ensures forall sub | 0 <= sub < |received| ::
              FannedOut(received, listeners, e)[sub] == received[sub] + if Called(listeners, e, sub) then [e] else []
  {
    forall sub | 0 <= sub < |received|
      ensures FannedOut(received, listeners, e)[sub] == received[sub] + if Called(listeners, e, sub) then [e] else []
    {
      FannedOutAt(received, listeners, e, sub);
    }
  }

  lemma SnapshotShows(f: Feed, h: seq<Event>, filter: Option<Filter>)
    requires Refines(f, h) && Numbered(h)
    ensures Increasing(MatchingValues(f.snapshots, filter))
    ensures forall e :: e in MatchingValues(f.snapshots, filter) <==>
              Matches(e, filter) && exists k :: (k, e) in LastN(Latest(h), f.snapshotCap)
  {
    NumberedIncreasing(h);
    LatestExact(h);
    NewestKept(Latest(h), f.snapshotCap);
    MatchingExact(f.snapshots, filter);
  }

  lemma SubscribeConsistent(f: Feed, h: seq<Event>, since: seq<nat>, filter: Filter)
    requires Consistent(f, h, since)
    ensures Consistent(Apply(f, Subscribe(filter)), h, since + [|h|])
  {
    SubscribeDelivers(f, h, filter);
    forall s | s in f.listeners ensures Delivered(Apply(f, Subscribe(filter)), h, s, since[s.id]) {
      assert Delivered(f, h, s, since[s.id]);
    }
  }

  lemma UnsubscribeConsistent(f: Feed, h: seq<Event>, since: seq<nat>, sub: nat)
    requires Consistent(f, h, since)
    ensures Consistent(Apply(f, Unsubscribe(sub)), h, since)
  {
    forall s | s in Without(f.listeners, sub) ensures Delivered(Apply(f, Unsubscribe(sub)), h, s, since[s.id]) {
      assert Delivered(f, h, s, since[s.id]);
    }
  }

  /** The events after `lastId` that match, by the array's `filter`. */
  method Later(ring: seq<Event>, lastId: int, filter: Option<Filter>) returns (events: seq<Event>)
    ensures events == Since(ring, lastId, filter)
  {
    events := [];
    var i := 0;
    while i < |ring|
      invariant 0 <= i <= |ring| && events == Since(ring[..i], lastId, filter)
    {
      assert ring[..i + 1] == ring[..i] + [ring[i]];
      SinceSplits(ring[..i], [ring[i]], lastId, filter);
      assert [ring[i]][1..] == [];
      if ring[i].id > lastId && Matches(ring[i], filter) {
        events := events + [ring[i]];
      }
      i := i + 1;
    }
    assert ring[..i] == ring;
  }

  class ServerFeed {
    const bufferSize: nat
    const snapshotCap: nat
    var last: nat
    var ring: seq<Event>
    var snapshots: seq<(string, Event)>
    var listeners: seq<Subscription>
    /** The calls made to each subscription's listener. */
    var received: seq<seq<Event>>

    ghost function View(): Feed
      reads this
    {
      Feed(bufferSize, snapshotCap, last, ring, snapshots, listeners, received)
    }

    /** Every event published, and per subscription how many there were when it was made. */
    ghost var history: seq<Event>
    ghost var since: seq<nat>

    ghost predicate Valid()
      reads this
    {
      Consistent(View(), history, since)
    }

    constructor (bufferSize: int, snapshotCap: int)
      ensures Valid() && View() == New(bufferSize, snapshotCap) && history == []
      ensures this.bufferSize == (if bufferSize < 1 then 1 else bufferSize)
      ensures this.snapshotCap == (if snapshotCap < 1 then 1 else snapshotCap)
    {
      this.bufferSize := if bufferSize < 1 then 1 else bufferSize;
      this.snapshotCap := if snapshotCap < 1 then 1 else snapshotCap;
      last, ring, snapshots, listeners, received := 0, [], [], [], [];
      history, since := [], [];
    }

    /** One more event of the history; whoever it matches is called with it. */
    method Publish(input: Input) returns (e: Event)
      requires Valid()
      modifies this
      ensures Valid() && View() == Apply(old(View()), Op.Publish(input))
      ensures e == Event(|old(history)| + 1, input) && history == old(history) + [e] && since == old(since)
      ensures listeners == old(listeners) && |received| == |old(received)|
      ensures forall sub | 0 <= sub < |received| ::
                received[sub] == old(received)[sub] + if Called(listeners, e, sub) then [e] else []
    {
      ghost var next := Apply(View(), Op.Publish(input));
      assert Refines(View(), history) && Event(|history| + 1, input) == Event(last + 1, input);
      PublishConsistent(View(), history, since, input);
      last := last + 1;
      e := Event(last, input);
      Distribute(e);
      history := history + [e];
      assert View() == next && Consistent(next, history, since);
    }

    /** The three places an event goes to. */
    method Distribute(e: Event)
      requires bufferSize >= 1 && ring == LastN(history, bufferSize)
      requires snapshotCap >= 1 && snapshots == LastN(Latest(history), snapshotCap)
      requires Registered(listeners, received)
      modifies this`ring, this`snapshots, this`received
      ensures ring == Buffered(old(ring), e, bufferSize) && snapshots == Snapshotted(old(snapshots), e, snapshotCap)
      ensures received == FannedOut(old(received), listeners, e)
      ensures forall sub | 0 <= sub < |received| ::
                received[sub] == old(received)[sub] + if Called(listeners, e, sub) then [e] else []
    {
      Buffer(e);
      UpdateSnapshot(e);
      FanOut(e);
    }

    /** The ring moves on to the last `bufferSize` events of the history with `e`. */
    method Buffer(e: Event)
      requires bufferSize >= 1 && ring == LastN(history, bufferSize)
      modifies this`ring
      ensures ring == Buffered(old(ring), e, bufferSize) == LastN(history + [e], bufferSize)
    {
      BufferedIsTail(history, e, bufferSize);
      ring := ring + [e];
      if |ring| > bufferSize {
        ring := ring[1..];
      }
    }

    /** The snapshot moves on to the last `snapshotCap` of the latest events per key of the history with `e`. */
    method UpdateSnapshot(e: Event)
      requires snapshotCap >= 1 && snapshots == LastN(Latest(history), snapshotCap)
      modifies this`snapshots
      ensures snapshots == Snapshotted(old(snapshots), e, snapshotCap) == LastN(Latest(history + [e]), snapshotCap)
    {
      SnapshotRefines(history, e, snapshotCap);
      if e.body.correlationId.None? {
        return;
      }
      if !e.body.kind.Progress? && !e.body.kind.Status? && !e.body.kind.Failure? {
        return;
      }
      var key := e.body.source + ":" + e.body.correlationId.value;
      snapshots := Drop(snapshots, key);
      snapshots := Put(snapshots, key, e);
      if |snapshots| > snapshotCap && snapshots != [] {
        var oldest := snapshots[0].0;
        snapshots := Drop(snapshots, oldest);
      }
    }

    method FanOut(e: Event)
      requires Registered(listeners, received)
      modifies this`received
      ensures received == FannedOut(old(received), listeners, e)
      ensures forall sub | 0 <= sub < |received| ::
                received[sub] == old(received)[sub] + if Called(listeners, e, sub) then [e] else []
    {
      FannedOutAll(received, listeners, e);
      var i := 0;
      while i < |listeners|
        invariant 0 <= i <= |listeners|
        invariant Registered(listeners, old(received)) && received == FannedOut(old(received), listeners[..i], e)
      {
        assert listeners[..i + 1][..i] == listeners[..i];
        var s := listeners[i];
        i := i + 1;
        if !Matches(e, Some(s.filter)) {
          continue;
        }
        received := received[s.id := received[s.id] + [e]];
      }
      assert listeners[..i] == listeners;
    }

    /** Subscribes from here on; the result is the subscription's alone and identifies it for `Cancel`. */
    method OnEvent(filter: Filter) returns (sub: nat)
      requires Valid()
      modifies this
      ensures Valid() && View() == Apply(old(View()), Op.Subscribe(filter))
      ensures history == old(history) && since == old(since) + [|history|]
      ensures Delivered(View(), history, Subscription(sub, filter), |history|) && received[sub] == []
      ensures forall s :: s in listeners && s.id != sub <==> s in old(listeners)
      ensures received[..sub] == old(received)
    {
      SubscribeConsistent(View(), history, since, filter);
      SubscribeDelivers(View(), history, filter);
      sub := |received|;
      listeners := listeners + [Subscription(sub, filter)];
      received := received + [[]];
      since := since + [|history|];
    }

    /** The subscription is gone, and no other; what it was called with stays. */
    method Cancel(sub: nat)
      requires Valid()
      modifies this`listeners
      ensures Valid() && View() == Apply(old(View()), Op.Unsubscribe(sub))
      ensures forall s :: s in listeners <==> s in old(listeners) && s.id != sub
    {
      UnsubscribeConsistent(View(), history, since, sub);
      listeners := Without(listeners, sub);
    }

    /** A gap means that a resuming client misses an evicted event; without one it gets all it misses of the history. */
    method ReplaySince(lastId: int, filter: Option<Filter>) returns (events: seq<Event>, gap: bool)
      requires Valid()
      ensures gap <==> lastId > 0 && exists e | e in history :: e.id > lastId && e !in ring
      ensures events == Since(LastN(history, bufferSize), lastId, filter)
      ensures lastId > 0 && !gap ==> events == Since(history, lastId, filter)
    {
      GapOf(View(), history, lastId);
      if lastId > 0 && !Gap(View(), lastId) {
        ReplayOf(View(), history, lastId, filter);
      }
      var floor := if |ring| > 0 then ring[0].id else last + 1;
      gap := lastId > 0 && lastId < floor - 1;
      events := Later(ring, lastId, filter);
    }

    /** The matching ones of the newest `snapshotCap` among all keys' latest events of the history, oldest first. */
    method Snapshot(filter: Option<Filter>) returns (out: seq<Event>)
      requires Valid()
      ensures Increasing(out)
      ensures forall e :: e in out <==>
                Matches(e, filter) && exists k :: (k, e) in LastN(Latest(history), snapshotCap)
      ensures forall e | e in out ::
                e in history && e.body.correlationId.Some? && e.body.kind in {Progress, Status, Failure}
    {
      out := [];
      var i := 0;
      while i < |snapshots|
        invariant 0 <= i <= |snapshots| && out == MatchingValues(snapshots[..i], filter)
      {
        assert snapshots[..i + 1][..i] == snapshots[..i];
        if Matches(snapshots[i].1, filter) {
          out := out + [snapshots[i].1];
        }
        i := i + 1;
      }
      assert snapshots[..i] == snapshots;
      SnapshotShows(View(), history, filter);
      LatestMembers(history);
    }
  }
}
