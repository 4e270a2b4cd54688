/** How the leaky bucket compares with the token bucket, request by request. */
module Sandwich {
  import opened Basics
  import T = TokenBucket
  import L = LeakyBucket

  /** Room left in the queue. */
  function Room(d: L.Drain, q: Option<L.Queue>): real {
    d.maxQueue - if q.Some? then q.value.level else 0.0
  }

  function Tokens(m: T.Meter, b: Option<T.Bucket>): real {
    if b.Some? then b.value.tokens else m.cap
  }

  /** Filling two reservoirs of the same size by the same amount brings them no further apart. */
  lemma FillingContracts(size: real, x: real, y: real, gain: real, lead: real)
    requires x - y <= lead && lead >= 0.0 && gain >= 0.0 && x <= size
    ensures Min(size, x + gain) - Min(size, y + gain) <= lead
  {
  }

  /** On every request sequence, with the clock free to jump, a queue of size `q` admits at least
      as many as a token bucket of capacity `q` at the same rate; the shortfall of the token bucket
      is what keeps the two levels coupled. */
  lemma {:induction false} QueueBeatsBucket(q: real, rate: real, ts: seq<int>)
    requires q > 0.0 && rate > 0.0
    ensures var m, d := T.Meter(q, rate, None), L.Drain(q, rate, None);
      && m.Admitted(None, ts) <= d.Admitted(None, ts)
      && Tokens(m, m.After(None, ts)) - Room(d, d.After(None, ts))
         <= (d.Admitted(None, ts) - m.Admitted(None, ts)) as real
      && Room(d, d.After(None, ts)) <= q
      && Tokens(m, m.After(None, ts)) <= q
      && (ts != [] ==> m.After(None, ts).value.last == d.After(None, ts).value.last)
  {
    hide Earned;
    var m, d := T.Meter(q, rate, None), L.Drain(q, rate, None);
    if ts != [] {
      QueueBeatsBucket(q, rate, Front(ts));
      var b, k, now := m.After(None, Front(ts)), d.After(None, Front(ts)), Last(ts);
      var lead := (d.Admitted(None, Front(ts)) - m.Admitted(None, Front(ts))) as real;
      var gain := if Front(ts) == [] then 0.0 else Earned(Forward(b.value.last, now), rate);
      EarnedSign(0, rate);
      EarnedSign(if Front(ts) == [] then 0 else Forward(b.value.last, now), rate);
      FillingContracts(q, Tokens(m, b), Room(d, k), gain, lead);
      assert m.Refilled(b, now) == Min(q, Tokens(m, b) + gain);
      assert q - d.Drained(k, now) == Min(q, Room(d, k) + gain);
    }
  }

  /** And at most as many as a token bucket of capacity `q + 1`. */
  lemma {:induction false} BiggerBucketBeatsQueue(q: real, rate: real, ts: seq<int>)
    requires q > 0.0 && rate > 0.0
    ensures var m, d := T.Meter(q + 1.0, rate, None), L.Drain(q, rate, None);
      && d.Admitted(None, ts) <= m.Admitted(None, ts)
      && Room(d, d.After(None, ts)) - (Tokens(m, m.After(None, ts)) - 1.0)
         <= (m.Admitted(None, ts) - d.Admitted(None, ts)) as real
      && Room(d, d.After(None, ts)) <= q
      && (ts != [] ==> m.After(None, ts).value.last == d.After(None, ts).value.last)
  {
    hide Earned;
    var m, d := T.Meter(q + 1.0, rate, None), L.Drain(q, rate, None);
    if ts != [] {
      BiggerBucketBeatsQueue(q, rate, Front(ts));
      var b, k, now := m.After(None, Front(ts)), d.After(None, Front(ts)), Last(ts);
      var lead := (m.Admitted(None, Front(ts)) - d.Admitted(None, Front(ts))) as real;
      var gain := if Front(ts) == [] then 0.0 else Earned(Forward(b.value.last, now), rate);
      EarnedSign(0, rate);
      EarnedSign(if Front(ts) == [] then 0 else Forward(b.value.last, now), rate);
      FillingContracts(q, Room(d, k), Tokens(m, b) - 1.0, gain, lead);
      assert m.Refilled(b, now) - 1.0 == Min(q, Tokens(m, b) - 1.0 + gain);
      assert q - d.Drained(k, now) == Min(q, Room(d, k) + gain);
    }
  }
}
