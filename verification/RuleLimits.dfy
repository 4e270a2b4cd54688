/** The limits a configured rule guarantees, in the rule's own numbers. */
module RuleLimits {
  import opened Basics
  import opened Config
  import opened Limiters
  import opened RuleMachines
  import Euclid
  import Scripts
  import T = TokenBucket
  import L = LeakyBucket
  import TokenExpiry
  import LeakyExpiry
  import RetryHint

  // ---------------------------------------------------------------- token bucket

  /** A full bucket's worth of tokens is earned by the first millisecond after the time to live. */
  predicate RefillsInTime(rule: Rule) {
    (rule.limit + rule.burst) * rule.windowMs <= rule.limit * (TokenTtl(rule.windowMs) + 1)
  }

  predicate FitsInt64(rule: Rule) {
    rule.windowMs < 0x8000_0000_0000_0000
  }

  lemma QuotientScales(n: int, l: int, w: int, c: int)
    requires w > 0
    ensures c as real <= Earned(n, l as real / w as real) <==> c * w <= l * n
  {
    var rate := l as real / w as real;
    assert rate * w as real == l as real;
    assert Earned(n, rate) * w as real == (l * n) as real by {
      assert (n as real * rate) * w as real == n as real * (rate * w as real);
    }
    RealScale(w, c, Earned(n, rate));
  }

  lemma TokenMachineIsValid(rule: Rule)
    requires Runs(rule) && FitsInt64(rule)
    ensures TokenMachine(rule).Valid() && TokenTtl(rule.windowMs) >= rule.windowMs
  {
    TokenTtlAtLeastWindow(rule.windowMs);
    Scripts.MeterOfIsValid(rule.limit, rule.windowMs, rule.burst);
  }

  /** Forgetting an idle token bucket is unobservable, over all runs with a clock that does not go
      back, if and only if `(limit + burst) * window <= limit * (ttl + 1)`. */
  lemma TokenEviction(rule: Rule)
    requires Runs(rule) && FitsInt64(rule)
    ensures TokenMachine(rule).Valid()
    ensures var ttl := if rule.windowMs < 0x4000_0000_0000_0000 then 2 * rule.windowMs else rule.windowMs;
      TokenExpiry.Unobservable(TokenMachine(rule)) <==>
        (rule.limit + rule.burst) * rule.windowMs <= rule.limit * (ttl + 1)
  {
    TokenMachineIsValid(rule);
    TokenExpiry.UnobservableIff(TokenMachine(rule));
    TokenTtlAtLeastWindow(rule.windowMs);
    QuotientScales(TokenTtl(rule.windowMs) + 1, rule.limit, rule.windowMs, rule.limit + rule.burst);
    hide Earned;
  }

  /** Where doubling the window does not overflow this reads `burst * window <= limit * (window + 1)`;
      in particular a burst of at most the limit is safe. */
  lemma RefillsInTimeIff(rule: Rule)
    requires Runs(rule) && rule.windowMs < 0x4000_0000_0000_0000
    ensures RefillsInTime(rule) <==> rule.burst * rule.windowMs <= rule.limit * (rule.windowMs + 1)
    ensures rule.burst <= rule.limit ==> RefillsInTime(rule)
  {
    var l, b, w := rule.limit, rule.burst, rule.windowMs;
    TokenTtlAtLeastWindow(w);
    assert (l + b) * w == l * w + b * w;
    assert l * (2 * w + 1) == l * w + l * (w + 1);
    if b <= l {
      Scale(w, b, l);
      assert l * (w + 1) == l * w + l;
    }
  }

  /** In any interval of length `D`, evictions included, at most `limit + burst + D * limit / window`
      requests are admitted, for a rule whose evictions are unobservable. */
  lemma IntervalBound(rule: Rule, before: seq<int>, stretch: seq<int>)
    requires Runs(rule) && FitsInt64(rule) && RefillsInTime(rule)
    requires NonDecreasing(before + stretch) && stretch != []
    ensures var m := TokenMachine(rule);
      m.Admitted(m.After(None, before), stretch) as real
      <= Max(0.0, (rule.limit + rule.burst) as real)
         + Earned(Last(stretch) - stretch[0], rule.limit as real / rule.windowMs as real)
  {
    TokenMachineIsValid(rule);
    QuotientScales(TokenTtl(rule.windowMs) + 1, rule.limit, rule.windowMs, rule.limit + rule.burst);
    hide Earned;
    TokenExpiry.IntervalBound(TokenMachine(rule), before, stretch);
  }

  /** Every denial on a meter that can hold a token leaves a bucket to which the retry hint applies,
      and the key outlives the hint. */
  lemma DenialLeavesHint(rule: Rule, ts: seq<int>, now: int)
    requires Runs(rule) && FitsInt64(rule) && rule.limit + rule.burst >= 1
    requires !TokenMachine(rule).Admits(TokenMachine(rule).After(None, ts), now)
    ensures var m := TokenMachine(rule);
      var k := m.Take(m.After(None, ts), now);
      RetryHint.Denied(m, k) && k.last == now
  {
    var m := TokenMachine(rule);
    TokenMachineIsValid(rule);
    QuotientScales(TokenTtl(rule.windowMs), rule.limit, rule.windowMs, 1);
    Scale(rule.limit, rule.windowMs, TokenTtl(rule.windowMs));
    Scale(rule.windowMs, 1, rule.limit);
    hide Earned;
    var all := ts + [now];
    assert Front(all) == ts;
    T.TokensWithinCap(m, all);
  }

  /** Coming back after exactly the announced seconds can be too early. A rule of 2 requests per 2001 ms
      admits two requests at time 0 and denies a third, which needs 1000.5 ms; it is told one second, and
      denied again after one second. */
  lemma HeaderCanBeTooShort(rule: Rule)
    requires rule.limit == 2 && rule.windowMs == 2001 && rule.burst == 0
    ensures TokenMachine(rule).rate > 0.0
    ensures var m := TokenMachine(rule);
      var denial := m.Respond(m.After(None, [0, 0]), 0);
      && m.Admitted(None, [0, 0]) == 2 && !denial.allowed
      && RetryHint.RetryAfterSeconds(RetryHint.RetryAfterMs(denial.resetMs, 0)) == 1
      && !m.Admits(m.After(None, [0, 0, 0]), 1000)
  {
    TokenMachineIsValid(rule);
    var m := TokenMachine(rule);
    assert m.rate == 2.0 / 2001.0 && m.cap == 2.0;
    T.BurstIsAdmitted(m, 2, 0);
    assert seq(2, _ => 0) == [0, 0];
    EarnedSign(0, m.rate);
    assert Front([0, 0, 0]) == [0, 0];
    assert m.After(None, [0, 0, 0]) == Some(T.Bucket(0.0, 0));
    assert (1.0 - 0.0) / m.rate == 1000.5;
    assert Earned(1000, m.rate) < 1.0;
    hide Earned;
  }

  // ---------------------------------------------------------------- leaky bucket

  /** The fullest reachable queue drains by the first millisecond after the time to live. */
  predicate DrainsInTime(rule: Rule)
    requires Runs(rule)
  {
    var q := QueueSize(rule);
    (LeakyTtl(q, rule.limit, rule.windowMs) + 1) * rule.limit
      >= (q + 1) * rule.windowMs - Euclid.Gcd(rule.limit, rule.windowMs)
  }

  lemma RuleOnGrid(rule: Rule, r: Euclid.Reduction)
    requires Runs(rule) && r == Euclid.Reduce(rule.limit, rule.windowMs)
    ensures LeakyMachine(rule).Valid()
    ensures r.a > 0 && r.b > 0
    ensures LeakyExpiry.OnGrid(LeakyMachine(rule), QueueSize(rule) * r.b, r.a, r.b)
  {
    var q, l, w := QueueSize(rule), rule.limit, rule.windowMs;
    Factor(r.g, r.a, l);
    Factor(r.g, r.b, w);
    DrainTime(q, l, w);
    assert LeakyTtl(q, l, w) >= 2000;
    Scale(r.b, 1, q);
    SameQuotient(r.g, r.a, r.b);
    WholeLevel(q, r.b);
    hide Earned, LeakyTtl;
  }

  lemma WholeLevel(q: int, b: int)
    requires b > 0
    ensures LeakyExpiry.Level(q * b, b) == q as real
  {
    assert (q * b) as real == q as real * b as real;
  }

  lemma Factor(g: int, a: int, x: int)
    requires g > 0 && x == g * a && x > 0
    ensures a > 0
  {
    if a <= 0 {
      Scale(g, a, 0);
      assert false;
    }
  }

  lemma SameQuotient(g: int, a: int, b: int)
    requires g > 0 && b > 0
    ensures g * b > 0
    ensures (g * a) as real / (g * b) as real == a as real / b as real
  {
    Scale(g, 1, b);
    var x, y := (g * a) as real / (g * b) as real, a as real / b as real;
    assert y * b as real == a as real;
    assert (g * a) as real == g as real * a as real;
    assert (g * b) as real == g as real * b as real;
    assert y * (g * b) as real == (g * a) as real by {
      assert y * (g as real * b as real) == g as real * (y * b as real);
    }
  }

  lemma Regroup(n: int, g: int, a: int)
    ensures n * (g * a) == g * (n * a)
  {
  }

  lemma Distribute(g: int, x: int, y: int)
    ensures g * (x - y) == g * x - g * y && (x - y) * g == x * g - y * g
  {
  }

  lemma CancelFactor(g: int, x: int, y: int)
    requires g > 0
    ensures g * x >= g * y <==> x >= y
  {
    if x >= y {
      Scale(g, y, x);
    } else {
      Scale(g, x + 1, y);
    }
  }

  lemma DrainsInTimeOnGrid(rule: Rule, r: Euclid.Reduction)
    requires Runs(rule) && r == Euclid.Reduce(rule.limit, rule.windowMs)
    ensures var ttl := LeakyTtl(QueueSize(rule), rule.limit, rule.windowMs);
      DrainsInTime(rule) <==> LeakyExpiry.DrainsBeforeEviction(QueueSize(rule) * r.b, r.a, r.b, ttl)
  {
    var q, n := QueueSize(rule), LeakyTtl(QueueSize(rule), rule.limit, rule.windowMs) + 1;
    Regroup(n, r.g, r.a);
    Regroup(q + 1, r.g, r.b);
    Distribute(r.g, (q + 1) * r.b, 1);
    Distribute(r.b, q + 1, 1);
    CancelFactor(r.g, n * r.a, (q + 1) * r.b - 1);
    hide LeakyTtl;
  }

  /** The time to live always covers a queue of `maxQueue` whole requests with 999 ms to spare. */
  lemma TtlCoversQueue(q: int, l: int, w: int)
    requires q > 0 && l > 0 && w > 0
    ensures (LeakyTtl(q, l, w) + 1) * l > q * w + 999 * l
  {
    var drain := q * w / l;
    assert drain * l > q * w - l;
    Scale(l, drain + 1001, LeakyTtl(q, l, w) + 1);
    assert (drain + 1001) * l == drain * l + 1001 * l;
  }

  /** Forgetting an idle leaky bucket is unobservable, over all runs with a clock that does not go
      back, if and only if `(ttl + 1) * limit >= (q + 1) * window - gcd(limit, window)`, where `q` is the burst, or
      the limit of a rule without one, and the time to live a second more than a full queue takes to drain, but two
      seconds at least. */
  lemma LeakyEviction(rule: Rule)
    requires Runs(rule)
    ensures var q, l, w := if rule.burst > 0 then rule.burst else rule.limit, rule.limit, rule.windowMs;
      var ttl := if q * w / l < 1000 then 2000 else q * w / l + 1000;
      LeakyExpiry.Unobservable(LeakyMachine(rule)) <==> (ttl + 1) * l >= (q + 1) * w - Euclid.Gcd(l, w)
  {
    EvictionIff(rule);
    hide LeakyExpiry.Unobservable, LeakyMachine, Euclid.Gcd;
  }

  lemma EvictionIff(rule: Rule)
    requires Runs(rule)
    ensures LeakyExpiry.Unobservable(LeakyMachine(rule)) <==> DrainsInTime(rule)
  {
    var d, q := LeakyMachine(rule), QueueSize(rule);
    var r := Euclid.Reduce(rule.limit, rule.windowMs);
    RuleOnGrid(rule, r);
    DrainsInTimeOnGrid(rule, r);
    hide LeakyExpiry.Level, Earned;
    if DrainsInTime(rule) {
      forall ts | NonDecreasing(ts) ensures d.Replies(None, ts) == d.Forever().Replies(None, ts) {
        LeakyExpiry.SameRun(d, q * r.b, r.a, r.b, ts);
      }
    } else {
      SlowDrain(rule, r);
      LeakyExpiry.Noticed(d, q * r.b, q, r.a, r.b, r.s, r.t);
    }
  }

  /** In any interval of length `D`, evictions included, fewer than `q + 1 + D * limit / window` requests
      are admitted, for a rule whose evictions are unobservable. */
  lemma LeakyIntervalBound(rule: Rule, before: seq<int>, stretch: seq<int>)
    requires Runs(rule) && DrainsInTime(rule)
    requires NonDecreasing(before + stretch) && stretch != []
    ensures var d := LeakyMachine(rule);
      d.Admitted(d.After(None, before), stretch) as real
      < ((if rule.burst > 0 then rule.burst else rule.limit) + 1) as real
        + Earned(Last(stretch) - stretch[0], rule.limit as real / rule.windowMs as real)
  {
    var r := Euclid.Reduce(rule.limit, rule.windowMs);
    RuleOnGrid(rule, r);
    DrainsInTimeOnGrid(rule, r);
    hide LeakyExpiry.Level, Earned, DrainsInTime, LeakyTtl;
    LeakyExpiry.IntervalBound(LeakyMachine(rule), QueueSize(rule) * r.b, r.a, r.b, before, stretch);
  }

  /** Only rules slower than a request per second can fail the condition. */
  lemma SlowDrain(rule: Rule, r: Euclid.Reduction)
    requires Runs(rule) && r == Euclid.Reduce(rule.limit, rule.windowMs) && !DrainsInTime(rule)
    ensures r.a < r.b
    ensures QueueSize(rule) * r.b < (LeakyTtl(QueueSize(rule), rule.limit, rule.windowMs) + 1) * r.a
  {
    var q, l, w := QueueSize(rule), rule.limit, rule.windowMs;
    var n := LeakyTtl(q, l, w) + 1;
    TtlCoversQueue(q, l, w);
    hide LeakyTtl;
    Distribute(w, q + 1, 1);
    assert l < w;
    CancelFactor(r.g, r.a, r.b);
    Regroup(n, r.g, r.a);
    Regroup(q, r.g, r.b);
    CancelFactor(r.g, q * r.b, n * r.a);
  }

  /** In particular no eviction is noticed for rules of at least one request per 999 ms. */
  lemma FastDrain(rule: Rule)
    requires Runs(rule) && rule.windowMs <= 999 * rule.limit
    ensures LeakyExpiry.Unobservable(LeakyMachine(rule))
  {
    var q, l, w := QueueSize(rule), rule.limit, rule.windowMs;
    TtlCoversQueue(q, l, w);
    assert (q + 1) * w == q * w + w;
    EvictionIff(rule);
  }
}
