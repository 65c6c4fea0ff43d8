/**
 * The timed half of single use: presentations at any moments, interleaved in any way. Decoding a token and issuing
 * the claim are one step; the claim is an atomic set-if-absent whose entry lives for a computed time.
 */
module ConsumedSentinel {
  import opened Options

  const MIN_CONSUMED_TTL_SECONDS: int := 60

  /** `exp` is the token's expiry claim in whole seconds, if it has one. */
  datatype Presentation = Presentation(jti: string, exp: Option<int>, time: real)

  /** When each sentinel entry disappears. */
  type Store = map<string, real>

  /** Verification compares the whole seconds of the clock with the claim; without a claim a token never expires. */
  predicate Decodes(p: Presentation) {
    p.exp.Some? ==> p.time.Floor < p.exp.value
  }

  function Ttl(p: Presentation): int {
    var remaining := if p.exp.Some? then p.exp.value - p.time.Floor else 0;
    if remaining > MIN_CONSUMED_TTL_SECONDS then remaining else MIN_CONSUMED_TTL_SECONDS
  }

  predicate Present(store: Store, p: Presentation) {
    p.jti in store && p.time < store[p.jti]
  }

  /** The token decodes and its claim wins. */
  predicate Passes(store: Store, p: Presentation) {
    Decodes(p) && !Present(store, p)
  }

  function After(store: Store, p: Presentation): Store {
    if Passes(store, p) then store[p.jti := p.time + Ttl(p) as real] else store
  }

  /** How often the token `jti` passes over a run of presentations. */
  function TimesPassed(store: Store, ps: seq<Presentation>, jti: string): nat
    decreases |ps|
  {
    if ps == [] then 0
    else (if ps[0].jti == jti && Passes(store, ps[0]) then 1 else 0) + TimesPassed(After(store, ps[0]), ps[1..], jti)
  }

  ghost predicate InOrder(ps: seq<Presentation>) {
    forall i, j | 0 <= i < j < |ps| :: ps[i].time <= ps[j].time
  }

  /** All presentations of `jti` are of one token, which expires at `exp`. */
  ghost predicate OneToken(ps: seq<Presentation>, jti: string, exp: Option<int>) {
    forall p | p in ps && p.jti == jti :: p.exp == exp
  }

  /**
   * The sentinel written at a presentation outlives every moment at which the token still decodes, and no longer than a
   * second after that unless it is the minimum of a minute.
   */
  lemma SentinelOutlives(p: Presentation, later: Presentation)
    requires p.exp.Some? && later.exp == p.exp && Decodes(p) && Decodes(later)
    ensures later.time < p.time + Ttl(p) as real
    ensures Ttl(p) == 60 || (Ttl(p) > 60 && p.time + Ttl(p) as real < p.exp.value as real + 1.0)
  {
    assert later.time < (later.time.Floor + 1) as real;
    assert p.time >= p.time.Floor as real;
  }

  lemma {:induction false} NeverAgain(store: Store, ps: seq<Presentation>, jti: string, exp: int)
    requires OneToken(ps, jti, Some(exp)) && jti in store
    requires forall p: Presentation | p.jti == jti && p.exp == Some(exp) && Decodes(p) :: p.time < store[jti]
    ensures TimesPassed(store, ps, jti) == 0
    decreases |ps|
  {
    if ps != [] {
      assert ps[0] in ps;
      NeverAgain(After(store, ps[0]), ps[1..], jti, exp);
    }
  }

  /** A token with an expiry passes the claim at most once, over any number of presentations in any interleaving. */
  lemma {:induction false} AtMostOnce(store: Store, ps: seq<Presentation>, jti: string, exp: int)
    requires InOrder(ps) && OneToken(ps, jti, Some(exp))
    ensures TimesPassed(store, ps, jti) <= 1
    decreases |ps|
  {
    if ps != [] {
      var p := ps[0];
      assert p in ps;
      assert InOrder(ps[1..]) && OneToken(ps[1..], jti, Some(exp));
      if p.jti == jti && Passes(store, p) {
        forall later: Presentation | later.jti == jti && later.exp == Some(exp) && Decodes(later)
          ensures later.time < After(store, p)[jti]
        {
          SentinelOutlives(p, later);
        }
        NeverAgain(After(store, p), ps[1..], jti, exp);
      } else {
        AtMostOnce(After(store, p), ps[1..], jti, exp);
      }
    }
  }

  /** Without an expiry claim a token passes again once the minimum lifetime is over; issued tokens always have one. */
  lemma WithoutExpiryTwice(jti: string, time: real)
    requires time >= 0.0
    ensures var ps := [Presentation(jti, None, time), Presentation(jti, None, time + 60.0)];
            InOrder(ps) && OneToken(ps, jti, None) && TimesPassed(map[], ps, jti) == 2
  {
    var first, second := Presentation(jti, None, time), Presentation(jti, None, time + 60.0);
    var store := After(map[], first);
    assert store == map[jti := time + 60.0];
    assert [first, second][1..] == [second] && [second][1..] == [];
    assert TimesPassed(store, [second], jti) == 1 + TimesPassed(After(store, second), [], jti);
    assert TimesPassed(map[], [first, second], jti) == 1 + TimesPassed(store, [second], jti);
  }

  /** So the guarantee is exactly that the token has an expiry: every run of it passes at most once if and only if it does. */
  lemma {:induction false} AtMostOnceExactly(jti: string, exp: Option<int>)
    ensures exp.Some? <==> forall ps | InOrder(ps) && OneToken(ps, jti, exp) :: TimesPassed(map[], ps, jti) <= 1
  {
    if exp.Some? {
      forall ps | InOrder(ps) && OneToken(ps, jti, exp) ensures TimesPassed(map[], ps, jti) <= 1 {
        AtMostOnce(map[], ps, jti, exp.value);
      }
    } else {
      WithoutExpiryTwice(jti, 0.0);
    }
  }
}
