/** The leaky bucket of `ScriptLeaky`: a queue level per key that drains with elapsed time. */
module LeakyBucket {
  import opened Basics

  datatype Queue = Queue(level: real, last: int)

  datatype Reply = Reply(allowed: bool, remaining: int)

  /** What one key's queue runs under; `ttl` as for the token bucket. */
  datatype Drain = Drain(maxQueue: real, rate: real, ttl: Option<int>) {

    predicate Valid() {
      rate > 0.0 && maxQueue > 0.0 && (ttl.Some? ==> ttl.value > 0)
    }

    function Forever(): Drain {
      this.(ttl := None)
    }

    function Seen(q: Option<Queue>, now: int): Option<Queue> {
      if q.Some? && ttl.Some? && now > q.value.last + ttl.value then None else q
    }

    /** The level at `now`, before the request is queued. */
    function Drained(q: Option<Queue>, now: int): real {
      match Seen(q, now)
      case None => 0.0
      case Some(k) => if now > k.last then Max(0.0, k.level - Earned(now - k.last, rate)) else k.level
    }

    predicate Admits(q: Option<Queue>, now: int) {
      Drained(q, now) < maxQueue
    }

    function Offer(q: Option<Queue>, now: int): Queue {
      Queue(Drained(q, now) + if Admits(q, now) then 1.0 else 0.0, now)
    }

    /** The reply; the fraction of `remaining` is dropped when Redis converts it. */
    function Respond(q: Option<Queue>, now: int): Reply {
      Reply(Admits(q, now), Max(0.0, maxQueue - Offer(q, now).level).Floor)
    }

    function After(q: Option<Queue>, ts: seq<int>): Option<Queue> {
      if ts == [] then q else Some(Offer(After(q, Front(ts)), Last(ts)))
    }

    function Admitted(q: Option<Queue>, ts: seq<int>): nat {
      if ts == [] then 0
      else Admitted(q, Front(ts)) + if Admits(After(q, Front(ts)), Last(ts)) then 1 else 0
    }

    function Replies(q: Option<Queue>, ts: seq<int>): seq<Reply> {
      if ts == [] then [] else Replies(q, Front(ts)) + [Respond(After(q, Front(ts)), Last(ts))]
    }
  }

  /** A request made under the queue size and rate the rule had at that moment, the key possibly
      evicted since the one before. */
  datatype Request = Request(maxQueue: real, rate: real, now: int, evicted: bool)

  function AfterChanges(rs: seq<Request>): Option<Queue> {
    if rs == [] then None
    else
      var r := Last(rs);
      Some(Drain(r.maxQueue, r.rate, None).Offer(if r.evicted then None else AfterChanges(Front(rs)), r.now))
  }

  /** Whatever the clock, the rule and the evictions do, the level never goes below zero and stays strictly below
      one more than the largest queue the rule ever allowed. */
  lemma {:induction false} LevelWithinLargestQueue(rs: seq<Request>, largest: real)
    requires rs != []
    requires forall r <- rs :: 0.0 < r.maxQueue <= largest && r.rate > 0.0
    ensures 0.0 <= AfterChanges(rs).value.level < largest + 1.0
  {
    hide Earned;
    var r := Last(rs);
    if |rs| > 1 {
      LevelWithinLargestQueue(Front(rs), largest);
      EarnedSign(Forward(AfterChanges(Front(rs)).value.last, r.now), r.rate);
    }
    assert r in rs;
  }

  // ---------------------------------------------------------------- rate bound

  /** With fixed parameters the level stays in [0, q + 1). */
  lemma {:induction false} LevelWithin(d: Drain, ts: seq<int>)
    requires d.Valid() && ts != []
    ensures var k := d.After(None, ts).value; 0.0 <= k.level < d.maxQueue + 1.0 && k.last == Last(ts)
  {
    hide Earned;
    if |ts| > 1 {
      LevelWithin(d, Front(ts));
      EarnedSign(Forward(Last(Front(ts)), Last(ts)), d.rate);
    }
  }

  /** Potential argument: what was admitted is still in the queue or has drained meanwhile. */
  lemma {:induction false} Potential(d: Drain, q: Option<Queue>, ts: seq<int>)
    requires d.Valid() && d.ttl.None? && ts != [] && (q.Some? ==> q.value.level >= 0.0)
    ensures d.After(q, ts).value.last == Last(ts)
    ensures d.Admitted(q, ts) as real <= d.After(q, ts).value.level + Earned(ForwardTotal(ts), d.rate)
  {
    hide Earned;
    EarnedSign(0, d.rate);
    if |ts| > 1 {
      Potential(d, q, Front(ts));
      var gain := Forward(Last(Front(ts)), Last(ts));
      EarnedSign(gain, d.rate);
      assert ForwardTotal(ts) == ForwardTotal(Front(ts)) + gain;
      EarnedAdds(ForwardTotal(Front(ts)), gain, d.rate);
    }
  }

  lemma {:induction false} SplitRun(d: Drain, q: Option<Queue>, before: seq<int>, stretch: seq<int>)
    ensures d.After(q, before + stretch) == d.After(d.After(q, before), stretch)
    ensures d.Admitted(q, before + stretch) == d.Admitted(q, before) + d.Admitted(d.After(q, before), stretch)
    decreases |stretch|
  {
    hide Drain.Offer, Drain.Admits;
    if stretch == [] {
      assert before + stretch == before;
    } else {
      assert Front(before + stretch) == before + Front(stretch);
      SplitRun(d, q, before, Front(stretch));
    }
  }

  /** In any stretch of any run fewer than `q + 1` plus `rate` per millisecond of forward clock movement
      inside the stretch are admitted, wherever the clock jumps. */
  lemma RateBound(d: Drain, before: seq<int>, stretch: seq<int>)
    requires d.Valid() && d.ttl.None? && stretch != []
    ensures d.Admitted(d.After(None, before), stretch) as real
          < d.maxQueue + 1.0 + Earned(ForwardTotal(stretch), d.rate)
  {
    hide Earned, Drain.Offer, Drain.Admits;
    if before != [] {
      LevelWithin(d, before);
    }
    Potential(d, d.After(None, before), stretch);
    SplitRun(d, None, before, stretch);
    LevelWithin(d, before + stretch);
  }
}
