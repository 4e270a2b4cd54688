/** What a denied caller is told about when to come back, and how far it can be trusted. */
module RetryHint {
  import opened Basics
  import opened TokenBucket

  /** The bucket as a denial at `k.last` leaves it, on a meter that could hold a whole token and
      whose key outlives the wait for one. */
  ghost predicate Denied(m: Meter, k: Bucket) {
    && m.Valid() && m.cap >= 1.0
    && (m.ttl.Some? ==> Earned(m.ttl.value, m.rate) >= 1.0)
    && 0.0 <= k.tokens < 1.0
  }

  /** `wait` milliseconds earn the missing part of a token if and only if they reach the exact
      waiting time, which lies in [floor, floor + 1). */
  lemma WaitingTime(tokens: real, rate: real, wait: int)
    requires rate > 0.0 && tokens < 1.0
    ensures var exact := (1.0 - tokens) / rate;
      && (tokens + Earned(wait, rate) >= 1.0 <==> wait as real >= exact)
      && (wait < exact.Floor ==> tokens + Earned(wait, rate) < 1.0)
      && (wait > exact.Floor ==> tokens + Earned(wait, rate) >= 1.0)
      && exact.Floor >= 0
  {
    var exact := (1.0 - tokens) / rate;
    assert exact * rate == 1.0 - tokens;
    assert (wait as real - exact) * rate == wait as real * rate - exact * rate;
    assert exact > 0.0;
  }

  /** Denied probes never cost the caller anything: the bucket they leave is the first one plus
      the time that has passed. */
  lemma {:induction false} ProbesOnlyWait(m: Meter, k: Bucket, probes: seq<int>)
    requires Denied(m, k) && NonDecreasing([k.last] + probes)
    requires m.Admitted(Some(k), probes) == 0
    ensures var b := m.After(Some(k), probes).value;
      && b.last == Last([k.last] + probes)
      && b.tokens == k.tokens + Earned(b.last - k.last, m.rate)
      && 0.0 <= b.tokens < 1.0
    decreases |probes|
  {
    if probes == [] {
      EarnedSign(0, m.rate);
    } else {
      var all := [k.last] + probes;
      assert [k.last] + Front(probes) == Front(all);
      assert all[0] <= all[|all| - 2] <= Last(all) == Last(probes);
      ProbesOnlyWait(m, k, Front(probes));
      OneProbe(m, k, m.After(Some(k), Front(probes)).value, Last(probes));
    }
  }

  /** One more request, after some denied probes have left `b`, is admitted exactly when the time
      since the first denial has earned the missing part of a token. */
  lemma OneProbe(m: Meter, k: Bucket, b: Bucket, now: int)
    requires Denied(m, k) && k.last <= b.last <= now
    requires b.tokens == k.tokens + Earned(b.last - k.last, m.rate) && 0.0 <= b.tokens < 1.0
    ensures m.Admits(Some(b), now) <==> k.tokens + Earned(now - k.last, m.rate) >= 1.0
    ensures !m.Admits(Some(b), now) ==>
      m.Take(Some(b), now) == Bucket(k.tokens + Earned(now - k.last, m.rate), now)
    ensures k.tokens + Earned(now - k.last, m.rate) >= 0.0
  {
    EarnedAdds(b.last - k.last, now - b.last, m.rate);
    EarnedSign(now - b.last, m.rate);
    if m.ttl.Some? && now > b.last + m.ttl.value {
      EarnedGrows(m.ttl.value, now - b.last, m.rate);
    }
    hide Earned;
  }

  /** The reset time handed out by a denied probe is the one the first denial handed out. */
  lemma ResetUnmoved(m: Meter, k: Bucket, now: int)
    requires Denied(m, k) && k.last <= now && k.tokens + Earned(now - k.last, m.rate) < 1.0
    ensures m.ResetMs(k.tokens + Earned(now - k.last, m.rate), now) == m.ResetMs(k.tokens, k.last)
  {
    var exact := (1.0 - k.tokens) / m.rate;
    var left := (1.0 - (k.tokens + Earned(now - k.last, m.rate))) / m.rate;
    assert left == exact - (now - k.last) as real by {
      assert left * m.rate == (exact - (now - k.last) as real) * m.rate by {
        assert exact * m.rate == 1.0 - k.tokens;
      }
    }
  }

  lemma ExactOnlyIfWhole(tokens: real, rate: real)
    requires rate > 0.0 && tokens < 1.0
    ensures tokens + Earned(((1.0 - tokens) / rate).Floor, rate) <= 1.0
  {
    var exact := (1.0 - tokens) / rate;
    assert exact * rate == 1.0 - tokens;
    assert exact.Floor as real <= exact;
    assert (exact - exact.Floor as real) * rate >= 0.0;
    assert (exact - exact.Floor as real) * rate == exact * rate - exact.Floor as real * rate;
  }

  /** What has been earned by the announced wait, before it and after it. */
  lemma TightAt(tokens: real, rate: real, wait: int)
    requires rate > 0.0 && tokens < 1.0
    ensures var announced := ((1.0 - tokens) / rate).Floor;
      && (wait < announced ==> tokens + Earned(wait, rate) < 1.0)
      && (wait > announced ==> tokens + Earned(wait, rate) >= 1.0)
      && tokens + Earned(announced, rate) <= 1.0
  {
    WaitingTime(tokens, rate, wait);
    ExactOnlyIfWhole(tokens, rate);
  }

  /** The hint is tight and probe-proof. After a denial, however many denied probes follow, a
      request before the reset time is denied, one after it is admitted, and one exactly on it is
      admitted if and only if the waiting time is a whole number of milliseconds. */
  lemma HintIsTight(m: Meter, k: Bucket, probes: seq<int>, now: int)
    requires Denied(m, k) && NonDecreasing([k.last] + probes + [now])
    requires m.Admitted(Some(k), probes) == 0
    ensures var reset, admits := m.ResetMs(k.tokens, k.last), m.Admits(m.After(Some(k), probes), now);
      && (now < reset ==> !admits)
      && (now > reset ==> admits)
      && (now == reset ==> (admits <==> k.tokens + Earned(reset - k.last, m.rate) == 1.0))
      && (!admits ==> m.Respond(m.After(Some(k), probes), now).resetMs == reset)
  {
    hide Meter.Admits, Meter.Take, Meter.After, Meter.Respond, Earned;
    var all := [k.last] + probes + [now];
    assert [k.last] + probes == Front(all);
    AfterProbes(m, k, probes);
    ProbesOnlyWait(m, k, probes);
    var b := m.After(Some(k), probes).value;
    assert k.last == all[0] <= all[|all| - 2] <= Last(all);
    OneProbe(m, k, b, now);
    TightAt(k.tokens, m.rate, now - k.last);
    if !m.Admits(Some(b), now) {
      ResetUnmoved(m, k, now);
      TakenAtReset(m, b, now);
    }
  }

  lemma AfterProbes(m: Meter, k: Bucket, probes: seq<int>)
    ensures m.After(Some(k), probes).Some?
  {
  }

  lemma TakenAtReset(m: Meter, b: Bucket, now: int)
    requires m.rate > 0.0
    ensures m.Respond(Some(b), now).resetMs == m.ResetMs(m.Take(Some(b), now).tokens, now)
  {
    hide Meter.Take;
  }

  // ---------------------------------------------------------------- the HTTP header

  /** `Decision.RetryAfterMs` of a token bucket reply. */
  function RetryAfterMs(resetMs: int, now: int): int {
    if resetMs > now then resetMs - now else 0
  }

  /** The Retry-After header, in whole seconds. */
  function RetryAfterSeconds(ms: int): int {
    if ms <= 0 then 1 else (ms + 999) / 1000
  }

  lemma HeaderCovers(ms: int)
    ensures 1000 * RetryAfterSeconds(ms) >= ms
    ensures 1000 * RetryAfterSeconds(ms) == ms <==> ms > 0 && ms % 1000 == 0
  {
  }

  /** Waiting the announced seconds and one millisecond more always suffices. Waiting exactly the
      announced seconds suffices unless the hint in milliseconds is a positive multiple of 1000 that
      was rounded down. */
  lemma WaitingTheHeader(m: Meter, k: Bucket, probes: seq<int>)
    requires Denied(m, k) && m.Admitted(Some(k), probes) == 0
    ensures var ms := RetryAfterMs(m.ResetMs(k.tokens, k.last), k.last);
      var due := k.last + 1000 * RetryAfterSeconds(ms);
      && (forall now | now > due && NonDecreasing([k.last] + probes + [now]) ::
            m.Admits(m.After(Some(k), probes), now))
      && (NonDecreasing([k.last] + probes + [due]) ==>
            (m.Admits(m.After(Some(k), probes), due) <==>
               !(ms > 0 && ms % 1000 == 0) || k.tokens + Earned(ms, m.rate) == 1.0))
  {
    var reset := m.ResetMs(k.tokens, k.last);
    var ms := RetryAfterMs(reset, k.last);
    var due := k.last + 1000 * RetryAfterSeconds(ms);
    WaitingTime(k.tokens, m.rate, 0);
    assert reset - k.last == ms;
    HeaderCovers(ms);
    hide Earned, RetryAfterSeconds, RetryAfterMs;
    forall now | now > due && NonDecreasing([k.last] + probes + [now])
      ensures m.Admits(m.After(Some(k), probes), now)
    {
      HintIsTight(m, k, probes, now);
    }
    if NonDecreasing([k.last] + probes + [due]) {
      HintIsTight(m, k, probes, due);
    }
  }
}
