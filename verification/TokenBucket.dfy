/** The token bucket of `script.lua`: one hash per key, refilled lazily by elapsed time.
    Token amounts are exact reals, timestamps are whole milliseconds. */
module TokenBucket {
  import opened Basics

  datatype Bucket = Bucket(tokens: real, last: int)

  datatype Reply = Reply(allowed: bool, remaining: int, resetMs: int)

  /** What one key's bucket runs under. `ttl` is the key's time to live; with `None` the key is
      never evicted. A key is evicted once the clock has passed its last write plus `ttl`. */
  datatype Meter = Meter(cap: real, rate: real, ttl: Option<int>) {

    predicate Valid() {
      rate > 0.0 && (ttl.Some? ==> ttl.value > 0)
    }

    function Forever(): Meter {
      this.(ttl := None)
    }

    function Seen(b: Option<Bucket>, now: int): Option<Bucket> {
      if b.Some? && ttl.Some? && now > b.value.last + ttl.value then None else b
    }

    /** Tokens on hand at `now`, before the request is served. */
    function Refilled(b: Option<Bucket>, now: int): real {
      match Seen(b, now)
      case None => cap
      case Some(k) => Min(cap, k.tokens + Earned(Forward(k.last, now), rate))
    }

    predicate Admits(b: Option<Bucket>, now: int) {
      Refilled(b, now) >= 1.0
    }

    /** The bucket written back: `last` becomes `now` even when the clock went backwards. */
    function Take(b: Option<Bucket>, now: int): Bucket {
      var t := Refilled(b, now);
      Bucket(if t >= 1.0 then t - 1.0 else t, now)
    }

    /** When the next token is due, counted from `now`. */
    function ResetMs(tokens: real, now: int): int
      requires rate > 0.0
    {
      if tokens < 1.0 then now + ((1.0 - tokens) / rate).Floor else now
    }

    function Respond(b: Option<Bucket>, now: int): Reply
      requires rate > 0.0
    {
      var k := Take(b, now);
      Reply(Admits(b, now), k.tokens.Floor, ResetMs(k.tokens, now))
    }

    /** The stored bucket after serving requests at the times `ts`. */
    function After(b: Option<Bucket>, ts: seq<int>): Option<Bucket> {
      if ts == [] then b else Some(Take(After(b, Front(ts)), Last(ts)))
    }

    function Admitted(b: Option<Bucket>, ts: seq<int>): nat {
      if ts == [] then 0
      else Admitted(b, Front(ts)) + if Admits(After(b, Front(ts)), Last(ts)) then 1 else 0
    }

    function Replies(b: Option<Bucket>, ts: seq<int>): seq<Reply>
      requires rate > 0.0
    {
      if ts == [] then [] else Replies(b, Front(ts)) + [Respond(After(b, Front(ts)), Last(ts))]
    }
  }

  // ---------------------------------------------------------------- state bounds

  /** With fixed parameters the tokens never leave [min(0, cap), cap]. */
  lemma {:induction false} TokensWithinCap(m: Meter, ts: seq<int>)
    requires m.Valid() && ts != []
    ensures var k := m.After(None, ts).value;
      Min(0.0, m.cap) <= k.tokens <= m.cap && k.last == Last(ts)
  {
    hide Earned;
    if |ts| > 1 {
      TokensWithinCap(m, Front(ts));
      EarnedSign(Forward(Last(Front(ts)), Last(ts)), m.rate);
    }
  }

  /** A request made under the parameters the rule had at that moment, the key possibly evicted
      since the one before. */
  datatype Request = Request(cap: real, rate: real, now: int, evicted: bool)

  /** The bucket across hot rule changes: every request brings its own capacity and rate. */
  function AfterChanges(rs: seq<Request>): Option<Bucket> {
    if rs == [] then None
    else
      var r := Last(rs);
      Some(Meter(r.cap, r.rate, None).Take(if r.evicted then None else AfterChanges(Front(rs)), r.now))
  }

  /** Whatever the clock, the rule and the evictions did before, the tokens stay within the capacity
      of the rule now in force. */
  lemma {:induction false} TokensWithinCurrentCap(rs: seq<Request>)
    requires rs != []
    requires forall r <- rs :: r.cap >= 0.0 && r.rate > 0.0
    ensures 0.0 <= AfterChanges(rs).value.tokens <= Last(rs).cap
  {
    hide Earned;
    if |rs| > 1 {
      TokensWithinCurrentCap(Front(rs));
      EarnedSign(Forward(AfterChanges(Front(rs)).value.last, Last(rs).now), Last(rs).rate);
    }
  }

  // ---------------------------------------------------------------- rate bound

  /** One request turns at most `credit` tokens into an admission and a remainder. */
  lemma OneRequest(m: Meter, b: Option<Bucket>, now: int, credit: real)
    requires m.Refilled(b, now) <= credit
    ensures (if m.Admits(b, now) then 1 else 0) as real + m.Take(b, now).tokens <= credit
  {
  }

  /** Potential argument: admissions plus tokens left never exceed the first request's tokens
      plus what the clock has earned since. */
  lemma {:induction false} Potential(m: Meter, b: Option<Bucket>, ts: seq<int>)
    requires m.rate > 0.0 && m.ttl.None? && ts != []
    ensures m.Admitted(b, ts) as real + m.After(b, ts).value.tokens <= m.cap + Earned(ForwardTotal(ts), m.rate)
    ensures m.After(b, ts).value.last == Last(ts)
  {
    hide Earned;
    var k := m.After(b, Front(ts));
    if |ts| > 1 {
      Potential(m, b, Front(ts));
      var gain := Forward(Last(Front(ts)), Last(ts));
      assert m.Refilled(k, Last(ts)) <= k.value.tokens + Earned(gain, m.rate);
      OneRequest(m, k, Last(ts), k.value.tokens + Earned(gain, m.rate));
      assert ForwardTotal(ts) == ForwardTotal(Front(ts)) + gain;
      EarnedAdds(ForwardTotal(Front(ts)), gain, m.rate);
    } else {
      EarnedSign(0, m.rate);
      assert m.Refilled(k, Last(ts)) <= m.cap;
      OneRequest(m, k, Last(ts), m.cap);
    }
  }

  lemma {:induction false} TokensNonNegative(m: Meter, b: Option<Bucket>, ts: seq<int>)
    requires m.rate > 0.0 && m.cap >= 0.0
    requires b.Some? ==> b.value.tokens >= 0.0
    ensures m.After(b, ts).Some? ==> m.After(b, ts).value.tokens >= 0.0
  {
    hide Earned;
    if ts != [] {
      TokensNonNegative(m, b, Front(ts));
      if Front(ts) != [] || b.Some? {
        EarnedSign(Forward(m.After(b, Front(ts)).value.last, Last(ts)), m.rate);
      }
    }
  }

  lemma {:induction false} NeverAdmitsBelowOne(m: Meter, b: Option<Bucket>, ts: seq<int>)
    requires m.cap < 1.0
    ensures m.Admitted(b, ts) == 0
  {
    hide Earned;
    if ts != [] {
      NeverAdmitsBelowOne(m, b, Front(ts));
    }
  }

  /** In any stretch of any run, at most `cap` plus `rate` per millisecond of forward clock
      movement inside the stretch is admitted, wherever the clock jumps. */
  lemma RateBound(m: Meter, before: seq<int>, stretch: seq<int>)
    requires m.rate > 0.0 && m.ttl.None? && stretch != []
    ensures m.Admitted(m.After(None, before), stretch) as real
         <= Max(0.0, m.cap) + Earned(ForwardTotal(stretch), m.rate)
  {
    hide Earned;
    var b := m.After(None, before);
    if m.cap < 1.0 {
      NeverAdmitsBelowOne(m, b, stretch);
      EarnedSign(ForwardTotal(stretch), m.rate);
    } else {
      TokensNonNegative(m, None, before);
      TokensNonNegative(m, b, stretch);
      Potential(m, b, stretch);
    }
  }

  /** The bound is attained: `cap` requests in one millisecond are all admitted. */
  lemma {:induction false} BurstIsAdmitted(m: Meter, n: nat, now: int)
    requires m.Valid() && n as real <= m.cap
    ensures m.Admitted(None, seq(n, _ => now)) == n
    ensures n > 0 ==> m.After(None, seq(n, _ => now)) == Some(Bucket(m.cap - n as real, now))
  {
    hide Earned;
    EarnedSign(0, m.rate);
    if n > 0 {
      var ts := seq(n, _ => now);
      assert Front(ts) == seq(n - 1, _ => now);
      BurstIsAdmitted(m, n - 1, now);
    }
  }
}
