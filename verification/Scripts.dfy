/** The limiter scripts, each one atomic step on one Redis key, proved against the state machines. */
module Scripts {
  import opened Basics
  import opened RedisStore
  import T = TokenBucket
  import L = LeakyBucket
  import S = SlidingWindow

  // ---------------------------------------------------------------- token bucket

  /** The bucket a hash holds; a hash missing either field holds none. */
  function BucketIn(h: Value): Option<T.Bucket>
    requires h.Hash?
  {
    if "tokens" in h.amounts && "last_refill" in h.stamps
    then Some(T.Bucket(h.amounts["tokens"], h.stamps["last_refill"]))
    else None
  }

  function WithBucket(h: Value, k: T.Bucket): (r: Value)
    requires h.Hash?
    ensures r.Hash? && BucketIn(r) == Some(k)
  {
    Hash(h.amounts["tokens" := k.tokens], h.stamps["last_refill" := k.last])
  }

  /** The meter a rule describes; its eviction is the store's business. */
  function MeterOf(limit: int, windowMs: int, burst: int): T.Meter
    requires windowMs > 0
  {
    T.Meter((limit + burst) as real, limit as real / windowMs as real, None)
  }

  lemma MeterOfIsValid(limit: int, windowMs: int, burst: int)
    requires limit > 0 && windowMs > 0
    ensures MeterOf(limit, windowMs, burst).Valid()
  {
  }

  /** `script.lua`. */
  method TokenBucketScript(redis: Redis, key: string, limit: int, windowMs: int, burst: int, nowMs: int, ttlMs: int)
    returns (reply: Result<T.Reply, string>)
    requires limit > 0 && windowMs > 0
    modifies redis`db
    ensures key in redis.down ==> reply == Err(UNAVAILABLE) && redis.db == old(redis.db)
    ensures key !in redis.down && !HashOrMissing(old(redis.db), key, nowMs) ==>
      reply == Err(WRONG_TYPE) && redis.db == old(redis.db)
    ensures key !in redis.down && HashOrMissing(old(redis.db), key, nowMs) ==>
      var m, h := MeterOf(limit, windowMs, burst), HashAt(old(redis.db), key, nowMs);
      && m.Valid()
      && reply == Ok(m.Respond(BucketIn(h), nowMs))
      && redis.db == old(redis.db)[key := Entry(WithBucket(h, m.Take(BucketIn(h), nowMs)), Some(nowMs + ttlMs))]
  {
    MeterOfIsValid(limit, windowMs, burst);
    if key in redis.down {
      return Err(UNAVAILABLE);
    }
    if !HashOrMissing(redis.db, key, nowMs) {
      return Err(WRONG_TYPE);
    }
    var hash := HashAt(redis.db, key, nowMs);
    var tokens, last := (limit + burst) as real, nowMs;
    if "tokens" in hash.amounts && "last_refill" in hash.stamps {
      tokens, last := hash.amounts["tokens"], hash.stamps["last_refill"];
    }
    var ratePerMs := limit as real / windowMs as real;
    var delta := if nowMs - last > 0 then nowMs - last else 0;
    var refill := Earned(delta, ratePerMs);
    EarnedSign(0, ratePerMs);
    hide Earned;
    tokens := Min((limit + burst) as real, tokens + refill);
    last := nowMs;
    var allowed := false;
    if tokens >= 1.0 {
      tokens := tokens - 1.0;
      allowed := true;
    }
    var resetMs := nowMs;
    if tokens < 1.0 {
      var need := 1.0 - tokens;
      resetMs := nowMs + (need / ratePerMs).Floor;
    }
    var updated := Hash(hash.amounts["tokens" := tokens], hash.stamps["last_refill" := last]);
    redis.db := redis.db[key := Entry(updated, Some(nowMs + ttlMs))];
    return Ok(T.Reply(allowed, tokens.Floor, resetMs));
  }

  /** The bucket `ScriptToken` reads: a missing field counts as a full bucket, or as just refilled. */
  function ReadBucket(h: Value, capacity: real, now: int): T.Bucket
    requires h.Hash?
  {
    T.Bucket(if "tokens" in h.amounts then h.amounts["tokens"] else capacity,
             if "last_ts" in h.stamps then h.stamps["last_ts"] else now)
  }

  /** The tokens `ScriptToken` finds on hand: they are refilled, and cut to the capacity, only when the
      clock has moved forward. */
  function OnHand(capacity: real, rate: real, k: T.Bucket, now: int): real {
    if now > k.last && rate > 0.0 then T.Meter(capacity, rate, None).Refilled(Some(k), now) else k.tokens
  }

  function Spent(capacity: real, rate: real, k: T.Bucket, now: int): T.Bucket {
    var t := OnHand(capacity, rate, k, now);
    T.Bucket(if t >= 1.0 then t - 1.0 else t, now)
  }

  /** A Lua number becomes an integer in a reply by dropping its fraction. */
  function Truncated(x: real): int {
    if x >= 0.0 then x.Floor else -(-x).Floor
  }

  /** It is the whole number next to it on the side of zero. */
  lemma TruncatedIs(x: real)
    ensures x >= 0.0 ==> Truncated(x) as real <= x < Truncated(x) as real + 1.0
    ensures x < 0.0 ==> Truncated(x) as real - 1.0 < x <= Truncated(x) as real
  {
  }

  /** `ScriptToken`, with capacity and rate as arguments, on its own field names. */
  method ScriptToken(redis: Redis, key: string, capacity: real, rate: real, now: int, ttl: int)
    returns (reply: Result<(bool, int), string>)
    modifies redis`db
    ensures key in redis.down ==> reply == Err(UNAVAILABLE) && redis.db == old(redis.db)
    ensures key !in redis.down && !HashOrMissing(old(redis.db), key, now) ==>
      reply == Err(WRONG_TYPE) && redis.db == old(redis.db)
    ensures key !in redis.down && HashOrMissing(old(redis.db), key, now) ==>
      var h := HashAt(old(redis.db), key, now);
      var k := ReadBucket(h, capacity, now);
      var left := Spent(capacity, rate, k, now).tokens;
      && reply == Ok((OnHand(capacity, rate, k, now) >= 1.0, Truncated(left)))
      && redis.db == old(redis.db)[key := Entry(
           Hash(h.amounts["tokens" := left], h.stamps["last_ts" := now]), Some(now + ttl))]
  {
    if key in redis.down {
      return Err(UNAVAILABLE);
    }
    if !HashOrMissing(redis.db, key, now) {
      return Err(WRONG_TYPE);
    }
    var hash := HashAt(redis.db, key, now);
    var tokens := if "tokens" in hash.amounts then hash.amounts["tokens"] else capacity;
    var last := if "last_ts" in hash.stamps then hash.stamps["last_ts"] else now;
    if now > last {
      var add := Earned(now - last, rate);
      EarnedPositive(now - last, rate);
      if add > 0.0 {
        tokens := Min(capacity, tokens + add);
      }
    }
    hide Earned;
    var ok := false;
    if tokens >= 1.0 {
      tokens := tokens - 1.0;
      ok := true;
    }
    redis.db := redis.db[key := Entry(
      Hash(hash.amounts["tokens" := tokens], hash.stamps["last_ts" := now]), Some(now + ttl))];
    return Ok((ok, Truncated(tokens)));
  }

  /** `ScriptToken` takes the step of `script.lua`, admission and stored bucket alike, if and only if the clock
      has moved forward or the stored tokens fit the capacity. */
  lemma SameMachineIff(capacity: real, rate: real, k: T.Bucket, now: int)
    requires rate > 0.0
    ensures var m := T.Meter(capacity, rate, None);
      var same := (OnHand(capacity, rate, k, now) >= 1.0 <==> m.Admits(Some(k), now))
        && Spent(capacity, rate, k, now) == m.Take(Some(k), now);
      same <==> now > k.last || k.tokens <= capacity
  {
    EarnedSign(0, rate);
    hide Earned;
  }

  /** The bucket `ScriptToken` leaves after requests at the times `ts`, starting without the key. */
  function SpentAfter(capacity: real, rate: real, ts: seq<int>): Option<T.Bucket> {
    if ts == [] then None
    else Some(Spent(capacity, rate, Found(capacity, SpentAfter(capacity, rate, Front(ts)), Last(ts)), Last(ts)))
  }

  /** A missing key reads as a full bucket, just refilled. */
  function Found(capacity: real, b: Option<T.Bucket>, now: int): T.Bucket {
    if b.Some? then b.value else T.Bucket(capacity, now)
  }

  /** With one capacity and rate the two scripts are the same machine over whole runs, wherever the clock
      jumps: the stored tokens always fit the capacity. */
  lemma {:induction false} SameRun(capacity: real, rate: real, ts: seq<int>, now: int)
    requires rate > 0.0
    ensures var m := T.Meter(capacity, rate, None);
      && SpentAfter(capacity, rate, ts) == m.After(None, ts)
      && (OnHand(capacity, rate, Found(capacity, SpentAfter(capacity, rate, ts), now), now) >= 1.0
          <==> m.Admits(m.After(None, ts), now))
    decreases |ts|
  {
    var m := T.Meter(capacity, rate, None);
    EarnedSign(0, rate);
    hide Earned;
    if ts != [] {
      var front := Front(ts);
      SameRun(capacity, rate, front, Last(ts));
      if front != [] {
        T.TokensWithinCap(m, front);
        SameMachineIff(capacity, rate, m.After(None, front).value, Last(ts));
      }
      T.TokensWithinCap(m, ts);
      SameMachineIff(capacity, rate, m.After(None, ts).value, now);
      hide OnHand, Spent, T.Meter.Admits, T.Meter.Refilled;
    }
  }

  /** The excess a lowered capacity leaves is kept by `ScriptToken` and cut by `script.lua`. After one request
      at capacity four, three more in the same millisecond at capacity two: `ScriptToken` admits the third,
      `script.lua` does not. */
  lemma ExcessIsKept(rate: real, now: int)
    requires rate > 0.0
    ensures var k := T.Bucket(3.0, now);
      && SpentAfter(4.0, rate, [now]) == T.Meter(4.0, rate, None).After(None, [now]) == Some(k)
      && OnHand(2.0, rate, Spent(2.0, rate, Spent(2.0, rate, k, now), now), now) >= 1.0
      && !T.Meter(2.0, rate, None).Admits(T.Meter(2.0, rate, None).After(Some(k), [now, now]), now)
  {
    EarnedSign(0, rate);
    hide Earned;
    var m, k := T.Meter(2.0, rate, None), T.Bucket(3.0, now);
    assert Front([now, now]) == [now] && Front([now]) == [];
    assert m.After(Some(k), [now]) == Some(T.Bucket(1.0, now));
  }

  lemma EarnedPositive(ms: int, rate: real)
    requires ms > 0
    ensures Earned(ms, rate) > 0.0 <==> rate > 0.0
    ensures Earned(0, rate) == 0.0
  {
    if rate > 0.0 {
      assert Earned(ms, rate) > 0.0;
    } else {
      assert Earned(ms, -rate) >= 0.0;
      assert Earned(ms, rate) == -Earned(ms, -rate);
    }
  }

  // ---------------------------------------------------------------- leaky bucket

  /** The queue a hash holds, missing fields read as an empty queue seen just now. */
  function QueueIn(h: Value, now: int): L.Queue
    requires h.Hash?
  {
    L.Queue(if "level" in h.amounts then h.amounts["level"] else 0.0,
            if "last_ts" in h.stamps then h.stamps["last_ts"] else now)
  }

  function WithQueue(h: Value, k: L.Queue): (r: Value)
    requires h.Hash?
    ensures r.Hash? && "level" in r.amounts && "last_ts" in r.stamps
    ensures forall now :: QueueIn(r, now) == k
  {
    Hash(h.amounts["level" := k.level], h.stamps["last_ts" := k.last])
  }

  /** `ScriptLeaky`. */
  method LeakyScript(redis: Redis, key: string, rate: real, now: int, maxQueue: int, ttl: int)
    returns (reply: Result<L.Reply, string>)
    requires rate > 0.0 && maxQueue > 0
    modifies redis`db
    ensures key in redis.down ==> reply == Err(UNAVAILABLE) && redis.db == old(redis.db)
    ensures key !in redis.down && !HashOrMissing(old(redis.db), key, now) ==>
      reply == Err(WRONG_TYPE) && redis.db == old(redis.db)
    ensures key !in redis.down && HashOrMissing(old(redis.db), key, now) ==>
      var d, h := L.Drain(maxQueue as real, rate, None), HashAt(old(redis.db), key, now);
      var q := Some(QueueIn(h, now));
      && reply == Ok(d.Respond(q, now))
      && redis.db == old(redis.db)[key := Entry(WithQueue(h, d.Offer(q, now)), Some(now + ttl))]
  {
    hide Earned;
    if key in redis.down {
      return Err(UNAVAILABLE);
    }
    if !HashOrMissing(redis.db, key, now) {
      return Err(WRONG_TYPE);
    }
    var hash := HashAt(redis.db, key, now);
    var lvl := if "level" in hash.amounts then hash.amounts["level"] else 0.0;
    var last := if "last_ts" in hash.stamps then hash.stamps["last_ts"] else now;
    if now > last {
      var leak := Earned(now - last, rate);
      lvl := Max(0.0, lvl - leak);
    }
    var ok := false;
    if lvl < maxQueue as real {
      lvl := lvl + 1.0;
      ok := true;
    }
    redis.db := redis.db[key := Entry(
      Hash(hash.amounts["level" := lvl], hash.stamps["last_ts" := now]), Some(now + ttl))];
    var remaining := maxQueue as real - lvl;
    if remaining < 0.0 {
      remaining := 0.0;
    }
    return Ok(L.Reply(ok, remaining.Floor));
  }

  // ---------------------------------------------------------------- sliding window

  /** `ScriptSliding`. */
  method SlidingScript(redis: Redis, key: string, now: int, window: int, limit: int)
    returns (reply: Result<S.Reply, string>)
    modifies redis`db
    ensures key in redis.down ==> reply == Err(UNAVAILABLE) && redis.db == old(redis.db)
    ensures key !in redis.down && !ScoresOrMissing(old(redis.db), key, now) ==>
      reply == Err(WRONG_TYPE) && redis.db == old(redis.db)
    ensures key !in redis.down && ScoresOrMissing(old(redis.db), key, now) ==>
      var w, z := S.Window(window, limit, None), Some(S.Log(ScoresAt(old(redis.db), key, now), now));
      && reply == Ok(w.Respond(z, now))
      && redis.db == old(redis.db)[key := Entry(Scores(w.Offer(z, now).members), Some(now + (window + 1000)))]
  {
    if key in redis.down {
      return Err(UNAVAILABLE);
    }
    if !ScoresOrMissing(redis.db, key, now) {
      return Err(WRONG_TYPE);
    }
    var zset := ScoresAt(redis.db, key, now);
    zset := set t | t in zset && !(0 <= t <= now - window);
    zset := zset + {now};
    redis.db := redis.db[key := Entry(Scores(zset), Some(now + (window + 1000)))];
    var cnt := |zset|;
    var remaining := limit - cnt;
    if remaining < 0 {
      remaining := 0;
    }
    if cnt > limit {
      return Ok(S.Reply(false, remaining));
    } else {
      return Ok(S.Reply(true, remaining));
    }
  }
}
