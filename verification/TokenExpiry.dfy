/** When does it matter that Redis forgets an idle token bucket? Exactly when the bucket could
    still have been short of full at the moment of eviction. */
module TokenExpiry {
  import opened Basics
  import opened TokenBucket

  /** Even from empty, the bucket is full again by the first millisecond at which it can be gone. */
  ghost predicate RefillsBeforeEviction(m: Meter)
    requires m.ttl.Some?
  {
    m.cap <= Earned(m.ttl.value + 1, m.rate)
  }

  ghost predicate Unobservable(m: Meter)
    requires m.rate > 0.0
  {
    forall ts | NonDecreasing(ts) :: m.Replies(None, ts) == m.Forever().Replies(None, ts)
  }

  /** Evicting a bucket that had time to refill changes nothing about the next request. */
  lemma EvictedEqualsFull(m: Meter, k: Bucket, now: int)
    requires m.Valid() && m.ttl.Some? && RefillsBeforeEviction(m)
    requires Min(0.0, m.cap) <= k.tokens <= m.cap && k.last <= now
    ensures m.Refilled(Some(k), now) == m.Forever().Refilled(Some(k), now)
  {
    var t := m.ttl.value;
    if now > k.last + t {
      EarnedGrows(t + 1, now - k.last, m.rate);
      EarnedSign(now - k.last, m.rate);
      hide Earned;
    }
  }

  lemma {:induction false} SameRun(m: Meter, ts: seq<int>)
    requires m.Valid() && m.ttl.Some? && RefillsBeforeEviction(m) && NonDecreasing(ts)
    ensures m.After(None, ts) == m.Forever().After(None, ts)
    ensures m.Replies(None, ts) == m.Forever().Replies(None, ts)
    ensures m.Admitted(None, ts) == m.Forever().Admitted(None, ts)
  {
    hide Earned;
    if ts != [] {
      SameRun(m, Front(ts));
      if Front(ts) != [] {
        TokensWithinCap(m, Front(ts));
        EvictedEqualsFull(m, m.After(None, Front(ts)).value, Last(ts));
      }
    }
  }

  /** A bucket drained in one burst and then left alone until it is evicted answers differently. */
  lemma DrainThenWait(m: Meter, n: nat)
    requires m.Valid() && m.ttl.Some? && m.cap == n as real && !RefillsBeforeEviction(m)
    ensures !Unobservable(m)
  {
    var t := m.ttl.value;
    var burst := seq(n, _ => 0);
    var ts := burst + [t + 1];
    assert Front(ts) == burst;
    EarnedSign(t + 1, m.rate);
    hide Earned;
    BurstIsAdmitted(m, n, 0);
    BurstIsAdmitted(m.Forever(), n, 0);
    assert Last(m.Replies(None, ts)) == m.Respond(m.After(None, burst), t + 1);
    assert Last(m.Forever().Replies(None, ts)) == m.Forever().Respond(m.Forever().After(None, burst), t + 1);
    var renewed, kept := m.Respond(Some(Bucket(0.0, 0)), t + 1), m.Forever().Respond(Some(Bucket(0.0, 0)), t + 1);
    assert m.Refilled(Some(Bucket(0.0, 0)), t + 1) == m.cap;
    assert renewed.allowed && renewed.remaining == n - 1;
    assert m.Forever().Refilled(Some(Bucket(0.0, 0)), t + 1) == Earned(t + 1, m.rate) < m.cap;
    assert kept != renewed;
  }

  /** Eviction goes unnoticed in every run if and only if the bucket always refills first. */
  lemma UnobservableIff(m: Meter)
    requires m.Valid() && m.ttl.Some? && m.cap == m.cap.Floor as real
    ensures Unobservable(m) <==> RefillsBeforeEviction(m)
  {
    if RefillsBeforeEviction(m) {
      forall ts | NonDecreasing(ts) ensures m.Replies(None, ts) == m.Forever().Replies(None, ts) {
        SameRun(m, ts);
      }
    } else {
      EarnedSign(m.ttl.value + 1, m.rate);
      DrainThenWait(m, m.cap.Floor);
    }
  }

  // ---------------------------------------------------------------- the rate bound with evictions

  lemma {:induction false} SplitRun(m: Meter, b: Option<Bucket>, before: seq<int>, stretch: seq<int>)
    ensures m.After(b, before + stretch) == m.After(m.After(b, before), stretch)
    ensures m.Admitted(b, before + stretch) == m.Admitted(b, before) + m.Admitted(m.After(b, before), stretch)
    decreases |stretch|
  {
    hide Meter.Take, Meter.Admits;
    if stretch == [] {
      assert before + stretch == before;
    } else {
      assert Front(before + stretch) == before + Front(stretch);
      SplitRun(m, b, before, Front(stretch));
    }
  }

  /** In any interval of a run with evictions at most `cap` plus the interval's earnings is admitted. */
  lemma IntervalBound(m: Meter, before: seq<int>, stretch: seq<int>)
    requires m.Valid() && m.ttl.Some? && RefillsBeforeEviction(m)
    requires NonDecreasing(before + stretch) && stretch != []
    ensures m.Admitted(m.After(None, before), stretch) as real
         <= Max(0.0, m.cap) + Earned(Last(stretch) - stretch[0], m.rate)
  {
    hide Earned, RefillsBeforeEviction, Meter.After, Meter.Admitted, Meter.Replies;
    var all := before + stretch;
    assert before == all[..|before|] && stretch == all[|before|..];
    SameRun(m, all);
    SameRun(m, before);
    SplitRun(m, None, before, stretch);
    SplitRun(m.Forever(), None, before, stretch);
    ForwardIsElapsed(stretch);
    RateBound(m.Forever(), before, stretch);
  }
}
