/** What a caller of a rule is told, answer by answer, from the first request on; in the rule's own numbers. */
module RuleBursts {
  import opened Basics
  import opened Config
  import opened RedisStore
  import opened Limiters
  import opened LimiterRuns
  import opened RuleMachines
  import RuleLimits
  import T = TokenBucket
  import L = LeakyBucket
  import S = SlidingWindow

  // ---------------------------------------------------------------- the machines

  /** Of requests made within one millisecond on a bucket of `x` tokens as many are admitted as it has whole
      tokens. */
  lemma {:induction false} TokensGo(m: T.Meter, x: real, now: int, n: nat)
    requires m.Valid() && 0.0 <= x <= m.cap
    ensures var b := T.Bucket(x, now);
      && m.Admitted(Some(b), seq(n, _ => now)) == Smaller(n, x.Floor)
      && m.After(Some(b), seq(n, _ => now)) == Some(T.Bucket(x - Smaller(n, x.Floor) as real, now))
  {
    hide Earned;
    EarnedSign(0, m.rate);
    if n > 0 {
      var ts := seq(n, _ => now);
      assert Front(ts) == seq(n - 1, _ => now);
      TokensGo(m, x, now, n - 1);
    }
  }

  /** The remaining tokens a reply tells are the number of further requests admitted in the same millisecond. */
  lemma TokenRemainingIsHonest(m: T.Meter, b: Option<T.Bucket>, now: int, n: nat)
    requires m.Valid() && m.Respond(b, now).remaining >= 0
    ensures m.Admitted(Some(m.Take(b, now)), seq(n, _ => now)) == Smaller(n, m.Respond(b, now).remaining)
  {
    hide Earned, T.Meter.Admitted;
    TokensGo(m, m.Take(b, now).tokens, now, n);
  }

  /** Of requests made within one millisecond on a queue with some room left as many are admitted as there are
      whole places, and one more if there is a part of a place. */
  lemma {:induction false} PlacesFill(d: L.Drain, level: real, now: int, n: nat, places: nat)
    requires d.Valid() && (places as real - 1.0 < d.maxQueue - level <= places as real || places == 0)
    requires places == 0 ==> d.maxQueue <= level
    ensures var q := L.Queue(level, now);
      && d.Admitted(Some(q), seq(n, _ => now)) == Smaller(n, places)
      && d.After(Some(q), seq(n, _ => now)) == Some(L.Queue(level + Smaller(n, places) as real, now))
  {
    if n > 0 {
      var ts := seq(n, _ => now);
      assert Front(ts) == seq(n - 1, _ => now);
      PlacesFill(d, level, now, n - 1, places);
    }
  }

  /** The remaining places a reply tells are the number of further requests admitted in the same millisecond, or one
      less when the queue has drained by a part of a request. */
  lemma LeakyRemainingIsHonest(d: L.Drain, q: Option<L.Queue>, now: int, n: nat)
    requires d.Valid()
    ensures var r, room := d.Respond(q, now).remaining, d.maxQueue - d.Offer(q, now).level;
      && r >= 0
      && d.Admitted(Some(d.Offer(q, now)), seq(n, _ => now))
           == Smaller(n, if room <= r as real then r else r + 1)
  {
    hide Earned, L.Drain.Admitted, L.Drain.After, L.Drain.Drained;
    var r, room := d.Respond(q, now).remaining, d.maxQueue - d.Offer(q, now).level;
    PlacesFill(d, d.Offer(q, now).level, now, n, if room <= r as real then r else r + 1);
  }

  // ---------------------------------------------------------------- a rule's callers

  predicate Configured(rule: Rule) {
    rule.limit > 0 && rule.windowMs > 0
  }

  /** The triple's machine after calls of its own, and what the next one is told. */
  lemma NextAnswer(prefix: string, t: Triple, rule: Rule, cs: seq<Call>, c: Call, ts: seq<int>)
    requires Configured(rule) && IsHex(t.dimKey) && |ts| == |cs| && c == Call(t, rule, c.now, {})
    requires forall i | 0 <= i < |cs| :: cs[i] == Call(t, rule, ts[i], {})
    ensures TokenMachine(rule).rate > 0.0
    ensures Replies(t, rule, Pure(rule, ts), c.now, Answer(prefix, map[], cs, c))
  {
    hide KeyOf, Answer, Replies, Pure, StateAfter, IsHex, TokenMachine;
    OwnAnswer(prefix, t, rule, cs, c);
    AloneIsPure(prefix, rule, cs, t);
    TimesOf(prefix, t, rule, cs, ts);
  }

  lemma {:induction false} TimesOf(prefix: string, t: Triple, rule: Rule, cs: seq<Call>, ts: seq<int>)
    requires |ts| == |cs| && forall i | 0 <= i < |cs| :: cs[i] == Call(t, rule, ts[i], {})
    ensures OwnTimes(prefix, cs, t) == ts
  {
    hide KeyOf;
    if cs != [] {
      TimesOf(prefix, t, rule, Front(cs), Front(ts));
    }
  }

  /** A token bucket rule admits, of requests in one millisecond from a missing key on, as many as limit and burst
      make together, and tells each how many are left and how long one token takes. */
  lemma TokenBurst(prefix: string, t: Triple, rule: Rule, now: int, n: nat)
    requires Configured(rule) && IsHex(t.dimKey) && t.algo.TokenBucket? && RuleLimits.FitsInt64(rule)
    ensures var c, cap := Call(t, rule, now, {}), rule.limit + rule.burst;
      var left := if cap <= 0 then cap else if n < cap then cap - n - 1 else 0;
      Answer(prefix, map[], seq(n, _ => c), c).dec
        == Decision(n < cap, left, if left >= 1 then 0 else (1 - left) * rule.windowMs / rule.limit,
                    if n < cap then "allowed" else "rate_limited", None)
  {
    hide *;
    var c, cap := Call(t, rule, now, {}), rule.limit + rule.burst;
    var left := if cap <= 0 then cap else if n < cap then cap - n - 1 else 0;
    NextAnswer(prefix, t, rule, seq(n, _ => c), c, seq(n, _ => now));
    TokenReply(rule, now, n);
    ToldByToken(t, rule, seq(n, _ => now), now, Answer(prefix, map[], seq(n, _ => c), c));
    if left < 1 {
      WaitIsPositive(left, rule);
    }
  }

  lemma ToldByToken(t: Triple, rule: Rule, ts: seq<int>, now: int, served: Served)
    requires Configured(rule) && t.algo.TokenBucket? && TokenMachine(rule).rate > 0.0
    requires Replies(t, rule, Pure(rule, ts), now, served)
    ensures var m := TokenMachine(rule);
      var r := m.Respond(m.After(None, ts), now);
      served.dec == Decision(r.allowed, r.remaining, if r.resetMs > now then r.resetMs - now else 0,
                             if r.allowed then "allowed" else "rate_limited", None)
  {
    hide TokenMachine, LeakyMachine, SlidingMachine, T.Meter.Respond, T.Meter.After, L.Drain.After, S.Window.After;
  }

  lemma TokenReply(rule: Rule, now: int, n: nat)
    requires Configured(rule) && RuleLimits.FitsInt64(rule)
    ensures TokenMachine(rule).rate > 0.0
    ensures var m, cap := TokenMachine(rule), rule.limit + rule.burst;
      var left := if cap <= 0 then cap else if n < cap then cap - n - 1 else 0;
      m.Respond(m.After(None, seq(n, _ => now)), now)
        == T.Reply(n < cap, left, if left >= 1 then now else now + (1 - left) * rule.windowMs / rule.limit)
  {
    hide Earned, T.Meter.After, T.Meter.Admits, T.Meter.Take, TokenTtl;
    var m, cap := TokenMachine(rule), rule.limit + rule.burst;
    var left := if cap <= 0 then cap else if n < cap then cap - n - 1 else 0;
    RuleLimits.TokenMachineIsValid(rule);
    FreshTokens(m, cap, now, n);
    if left < 1 {
      DrainTime(1 - left, rule.limit, rule.windowMs);
    }
  }

  lemma WaitIsPositive(left: int, rule: Rule)
    requires Configured(rule) && left < 1
    ensures (1 - left) * rule.windowMs / rule.limit >= 0
  {
    Scale(rule.windowMs, 0, 1 - left);
  }

  lemma {:induction false} FreshTokens(m: T.Meter, cap: int, now: int, n: nat)
    requires m.Valid() && m.cap == cap as real
    ensures var b, ts := m.After(None, seq(n, _ => now)), seq(n, _ => now);
      var left := if cap <= 0 then cap else if n < cap then cap - n - 1 else 0;
      && m.Admits(b, now) == (n < cap)
      && m.Take(b, now).tokens == left as real
  {
    hide Earned;
    EarnedSign(0, m.rate);
    if n > 0 {
      var ts := seq(n, _ => now);
      assert Front(ts) == seq(n - 1, _ => now);
      FreshTokens(m, cap, now, n - 1);
      assert m.After(None, ts) == Some(m.Take(m.After(None, Front(ts)), now));
    }
  }

  /** A leaky bucket rule admits as many as its queue holds: its burst, or without one its limit. */
  lemma LeakyBurst(prefix: string, t: Triple, rule: Rule, now: int, n: nat)
    requires Configured(rule) && IsHex(t.dimKey) && t.algo.LeakyBucket?
    ensures var c, q := Call(t, rule, now, {}), if rule.burst > 0 then rule.burst else rule.limit;
      Answer(prefix, map[], seq(n, _ => c), c).dec
        == Decision(n < q, if n < q then q - n - 1 else 0, 0, if n < q then "allowed" else "rate_limited", None)
  {
    hide Earned, Answer, KeyOf, IsHex, L.Drain.After;
    var c, q, d := Call(t, rule, now, {}), if rule.burst > 0 then rule.burst else rule.limit, LeakyMachine(rule);
    NextAnswer(prefix, t, rule, seq(n, _ => c), c, seq(n, _ => now));
    LeakyMachineIs(rule);
    FreshPlaces(d, q, now, n);
    hide TokenMachine, LeakyMachine, SlidingMachine;
  }

  lemma LeakyMachineIs(rule: Rule)
    requires Configured(rule)
    ensures var d := LeakyMachine(rule);
      d.Valid() && d.maxQueue == (if rule.burst > 0 then rule.burst else rule.limit) as real
  {
    DrainTime(QueueSize(rule), rule.limit, rule.windowMs);
  }

  lemma {:induction false} FreshPlaces(d: L.Drain, q: int, now: int, n: nat)
    requires d.Valid() && d.maxQueue == q as real
    ensures var k := d.After(None, seq(n, _ => now));
      d.Admits(k, now) == (n < q) && d.Offer(k, now).level == Smaller(n + 1, q) as real
  {
    hide Earned;
    if n > 0 {
      var ts := seq(n, _ => now);
      assert Front(ts) == seq(n - 1, _ => now);
      FreshPlaces(d, q, now, n - 1);
      assert d.After(None, ts) == Some(d.Offer(d.After(None, Front(ts)), now));
    }
  }

  predicate Rising(ts: seq<int>) {
    forall i, j | 0 <= i < j < |ts| :: ts[i] < ts[j]
  }

  /** A sliding window rule admits, of requests in different milliseconds of one window from a missing key on, as
      many as its limit says. */
  lemma SlidingBurst(prefix: string, t: Triple, rule: Rule, ts: seq<int>, now: int)
    requires Configured(rule) && IsHex(t.dimKey) && t.algo.SlidingWindow?
    requires var all := ts + [now]; Rising(all) && all[0] >= 0 && now - all[0] < rule.windowMs
    ensures var cs, n := seq(|ts|, i requires 0 <= i < |ts| => Call(t, rule, ts[i], {})), |ts|;
      Answer(prefix, map[], cs, Call(t, rule, now, {})).dec
        == Decision(n < rule.limit, if n < rule.limit then rule.limit - n - 1 else 0, 0,
                    if n < rule.limit then "allowed" else "rate_limited", None)
  {
    hide Earned, Answer, KeyOf, IsHex, S.Window.After, S.Window.Entered;
    var cs := seq(|ts|, i requires 0 <= i < |ts| => Call(t, rule, ts[i], {}));
    NextAnswer(prefix, t, rule, cs, Call(t, rule, now, {}), ts);
    AllRecent(SlidingMachine(rule), ts + [now], now);
    S.RemainingIs(SlidingMachine(rule), ts, now);
    hide TokenMachine, LeakyMachine;
  }

  lemma AllRecent(w: S.Window, all: seq<int>, now: int)
    requires Rising(all) && all != [] && all[0] >= 0 && Last(all) == now && now - all[0] < w.windowMs
    ensures S.Clock(all) && |w.Recent(all, now)| == |all|
  {
    assert w.Recent(all, now) == set t | t in all;
    RisingSize(all);
  }

  lemma {:induction false} RisingSize(ts: seq<int>)
    requires Rising(ts)
    ensures |set t | t in ts| == |ts|
  {
    if ts != [] {
      RisingSize(Front(ts));
      var front := set t | t in Front(ts);
      assert Last(ts) !in front;
      assert ts == Front(ts) + [Last(ts)];
      assert (set t | t in ts) == front + {Last(ts)};
    }
  }

  /** Requests in one millisecond share one place, so that all of them are admitted. */
  lemma SlidingCrowd(prefix: string, t: Triple, rule: Rule, now: int, n: nat)
    requires Configured(rule) && IsHex(t.dimKey) && t.algo.SlidingWindow?
    ensures var c := Call(t, rule, now, {});
      Answer(prefix, map[], seq(n, _ => c), c).dec == Decision(true, rule.limit - 1, 0, "allowed", None)
  {
    hide Earned, Answer, KeyOf, IsHex, S.Window.After;
    var c, w := Call(t, rule, now, {}), SlidingMachine(rule);
    NextAnswer(prefix, t, rule, seq(n, _ => c), c, seq(n, _ => now));
    OneMember(w, now, n);
    hide TokenMachine, LeakyMachine;
  }

  lemma {:induction false} OneMember(w: S.Window, now: int, n: nat)
    requires w.windowMs > 0
    ensures w.Entered(w.After(seq(n, _ => now)), now) == {now}
  {
    if n > 0 {
      var ts := seq(n, _ => now);
      assert Front(ts) == seq(n - 1, _ => now);
      OneMember(w, now, n - 1);
    }
  }

  /** A limiter call fails if and only if the rule has no limit or no window, or the key is empty, cannot be reached
      or holds a value of another type; it then grants nothing and changes nothing. */
  lemma FailsIff(db: Db, down: set<string>, algo: Algo, rule: Rule, key: string, now: int)
    ensures var served, v := Serve(db, down, algo, rule, key, now), Get(db, key, now);
      && (served.err.Some? <==>
            || rule.limit <= 0 || rule.windowMs <= 0 || key == "" || key in down
            || (v.Some? && (if algo.SlidingWindow? then !v.value.Scores? else !v.value.Hash?)))
      && (served.err.Some? ==> served.db == db && !served.dec.allowed)
  {
    hide Earned, HashAt, ScoresAt, TokenTtl, LeakyTtl, T.Meter.Respond, L.Drain.Respond, S.Window.Respond;
    hide T.Meter.Take, L.Drain.Offer, S.Window.Offer;
  }
}
