/** The sliding window of `ScriptSliding`: a sorted set per key whose members are their own scores,
    the milliseconds at which requests arrived. */
module SlidingWindow {
  import opened Basics

  /** The stored set and the time of the last write, which its expiry is counted from. */
  datatype Log = Log(members: set<int>, last: int)

  datatype Reply = Reply(allowed: bool, remaining: int)

  datatype Window = Window(windowMs: int, limit: int, ttl: Option<int>) {

    /** `ttl` as chosen by the script, or no eviction at all. */
    predicate Valid() {
      windowMs > 0 && limit > 0 && (ttl.Some? ==> ttl.value >= windowMs)
    }

    function Seen(z: Option<Log>, now: int): set<int> {
      if z.None? || (ttl.Some? && now > z.value.last + ttl.value) then {} else z.value.members
    }

    /** The set after pruning scores in [0, now - window] and adding the current request. */
    function Entered(z: Option<Log>, now: int): set<int> {
      (set t | t in Seen(z, now) && !(0 <= t <= now - windowMs)) + {now}
    }

    /** Every request is entered, a denied one too. */
    function Offer(z: Option<Log>, now: int): Log {
      Log(Entered(z, now), now)
    }

    predicate Admits(z: Option<Log>, now: int) {
      |Entered(z, now)| <= limit
    }

    function Respond(z: Option<Log>, now: int): Reply {
      var left := limit - |Entered(z, now)|;
      Reply(left >= 0, if left < 0 then 0 else left)
    }

    function After(ts: seq<int>): Option<Log> {
      if ts == [] then None else Some(Offer(After(Front(ts)), Last(ts)))
    }

    /** Whether request number `i` of the run was admitted. */
    predicate AdmittedAt(ts: seq<int>, i: int)
      requires 0 <= i < |ts|
    {
      Admits(After(ts[..i]), ts[i])
    }

    /** The requests admitted in the window of length `windowMs` that ends at `end`. */
    ghost function AdmittedIn(ts: seq<int>, end: int): set<int> {
      set i | 0 <= i < |ts| && AdmittedAt(ts, i) && end - windowMs < ts[i] <= end
    }

    /** The distinct request times, admitted or not, in the window that ends at `end`. */
    function Recent(ts: seq<int>, end: int): set<int> {
      set t | t in ts && end - windowMs < t
    }
  }

  /** A millisecond clock counts from the epoch and does not go back. */
  ghost predicate Clock(ts: seq<int>) {
    NonDecreasing(ts) && forall t <- ts :: t >= 0
  }

  lemma ClockPrefix(ts: seq<int>, n: nat)
    requires Clock(ts) && n <= |ts|
    ensures Clock(ts[..n])
  {
    forall t | t in ts[..n] ensures t >= 0 {
      assert t in ts;
    }
  }

  /** Pruning the history of `past` and entering `now` gives the history of both. */
  lemma PruneAndEnter(w: Window, past: seq<int>, now: int)
    requires w.Valid() && Clock(past + [now]) && past != []
    ensures w.Entered(Some(Log(w.Recent(past, Last(past)), Last(past))), now) == w.Recent(past + [now], now)
  {
    var ts := past + [now];
    assert Last(past) == ts[|past| - 1] && ts[|past|] == now;
    assert Last(past) <= now;
    ClockPrefix(ts, |past|);
    assert ts[..|past|] == past;
    LastIsLatest(past);
    var stored, entered := Some(Log(w.Recent(past, Last(past)), Last(past))), w.Recent(ts, now);
    forall t | t in w.Entered(stored, now) ensures t in entered {
      if t != now {
        assert t in past && t in ts;
      }
    }
    forall t | t in entered ensures t in w.Entered(stored, now) {
      if t != now {
        assert t in past && t >= 0;
      }
    }
  }

  lemma FirstRequest(w: Window, now: int)
    requires w.Valid()
    ensures w.Entered(None, now) == w.Recent([now], now)
  {
  }

  /** The incrementally pruned set is the full history cut to the last window, evicted or not. */
  lemma {:induction false} LogIsHistory(w: Window, ts: seq<int>)
    requires w.Valid() && Clock(ts) && ts != []
    ensures w.After(ts) == Some(Log(w.Recent(ts, Last(ts)), Last(ts)))
  {
    var past, now := Front(ts), Last(ts);
    assert ts == past + [now];
    ClockPrefix(ts, |past|);
    if past == [] {
      FirstRequest(w, now);
    } else {
      LogIsHistory(w, past);
      PruneAndEnter(w, past, now);
    }
  }

  /** Eviction is never observable: the set, hence every reply, is the one kept forever. */
  lemma EvictionUnobservable(w: Window, ts: seq<int>, now: int)
    requires w.Valid() && Clock(ts + [now])
    ensures w.Respond(w.After(ts), now) == w.(ttl := None).Respond(w.(ttl := None).After(ts), now)
  {
    var all, kept := ts + [now], w.(ttl := None);
    assert Front(all) == ts && Last(all) == now;
    LogIsHistory(w, all);
    LogIsHistory(kept, all);
    assert w.Recent(all, now) == kept.Recent(all, now);
    assert w.Entered(w.After(ts), now) == kept.Entered(kept.After(ts), now);
  }

  /** The remaining quota told is the limit less the distinct milliseconds of the window, this one included. */
  lemma RemainingIs(w: Window, ts: seq<int>, now: int)
    requires w.Valid() && Clock(ts + [now])
    ensures var used := |w.Recent(ts + [now], now)|;
      w.Respond(w.After(ts), now) == Reply(used <= w.limit, if used <= w.limit then w.limit - used else 0)
  {
    var all := ts + [now];
    assert Front(all) == ts && Last(all) == now;
    LogIsHistory(w, all);
  }

  // ---------------------------------------------------------------- how much is admitted

  function Times(ts: seq<int>, indices: set<int>): set<int>
    requires forall i <- indices :: 0 <= i < |ts|
  {
    set i | i in indices :: ts[i]
  }

  /** A request is admitted if and only if its window of history has room for its millisecond. */
  lemma AdmittedIff(w: Window, ts: seq<int>, i: nat)
    requires w.Valid() && Clock(ts) && i < |ts|
    ensures w.AdmittedAt(ts, i) <==> |w.Recent(ts[..i + 1], ts[i])| <= w.limit
  {
    var seen := ts[..i + 1];
    ClockPrefix(ts, i + 1);
    assert Front(seen) == ts[..i] && Last(seen) == ts[i];
    LogIsHistory(w, seen);
  }

  /** No window anywhere in the run holds more than `limit` distinct admitted milliseconds. */
  lemma DistinctAdmitted(w: Window, ts: seq<int>, end: int)
    requires w.Valid() && Clock(ts)
    ensures var times := Times(ts, w.AdmittedIn(ts, end)); |times| <= w.limit && |times| <= w.windowMs
  {
    var indices := w.AdmittedIn(ts, end);
    var times := Times(ts, indices);
    IntervalSize(times, end - w.windowMs, end);
    if indices != {} {
      var i := Largest(indices);
      AdmittedIff(w, ts, i);
      var seen := ts[..i + 1];
      forall t | t in times ensures t in w.Recent(seen, ts[i]) {
        var j :| j in indices && ts[j] == t;
        assert seen[j] == t;
      }
      SubsetSize(times, w.Recent(seen, ts[i]));
    }
  }

  /** The requests of a run that arrive in millisecond `t`. */
  function Arrivals(ts: seq<int>, t: int): set<int> {
    set i | 0 <= i < |ts| && ts[i] == t
  }

  ghost predicate AtMostPerMs(ts: seq<int>, m: nat) {
    forall t :: |Arrivals(ts, t)| <= m
  }

  lemma {:induction false} CountByTime(ts: seq<int>, indices: set<int>, m: nat)
    requires forall i <- indices :: 0 <= i < |ts|
    requires AtMostPerMs(ts, m)
    ensures |indices| <= m * |Times(ts, indices)|
    decreases indices
  {
    if indices != {} {
      var i := Member(indices);
      var t := ts[i];
      var rest := OtherTimes(ts, indices, t, m);
      assert i in indices - rest;
      CountByTime(ts, rest, m);
      MulSucc(m, |Times(ts, rest)|);
    }
  }

  /** Leaving out the requests of one millisecond drops at most `m` of them, and one time. */
  lemma OtherTimes(ts: seq<int>, indices: set<int>, t: int, m: nat) returns (rest: set<int>)
    requires forall i <- indices :: 0 <= i < |ts|
    requires AtMostPerMs(ts, m) && t in Times(ts, indices)
    ensures rest == set j | j in indices && ts[j] != t
    ensures rest < indices && |indices| <= |rest| + m
    ensures |Times(ts, indices)| == |Times(ts, rest)| + 1
  {
    rest := set j | j in indices && ts[j] != t;
    var same := indices - rest;
    SubsetSize(same, Arrivals(ts, t));
    assert Times(ts, indices) == Times(ts, rest) + {t};
    var i :| i in indices && ts[i] == t;
    assert i !in rest;
  }

  /** With at most `m` requests in any millisecond, no window admits more than
      `m * min(limit, window)`. */
  lemma AdmittedBound(w: Window, ts: seq<int>, end: int, m: nat)
    requires w.Valid() && Clock(ts) && AtMostPerMs(ts, m)
    ensures |w.AdmittedIn(ts, end)| <= m * Smaller(w.limit, w.windowMs)
  {
    var indices := w.AdmittedIn(ts, end);
    DistinctAdmitted(w, ts, end);
    CountByTime(ts, indices, m);
    Scale(m, |Times(ts, indices)|, Smaller(w.limit, w.windowMs));
  }

  /** `m` requests in each of the first `k` milliseconds. */
  function Crowd(m: nat, k: nat): seq<int>
    requires m > 0
  {
    seq(m * k, i requires i >= 0 => Arrival(i, m))
  }

  /** When request number `i` of a crowd arrives. */
  function Arrival(i: nat, m: nat): nat
    requires m > 0
  {
    i / m
  }

  lemma ArrivalIs(i: nat, m: nat, t: int)
    requires m > 0
    ensures Arrival(i, m) == t <==> m * t <= i < m * t + m
    ensures i < m * t <==> Arrival(i, m) < t
  {
    Block(i, m, t);
  }

  lemma ArrivalsInOrder(i: nat, j: nat, m: nat)
    requires m > 0 && i <= j
    ensures Arrival(i, m) <= Arrival(j, m)
  {
    ArrivalIs(i, m, Arrival(j, m) + 1);
    ArrivalIs(j, m, Arrival(j, m));
    MulSucc(m, Arrival(j, m));
    hide Arrival;
  }

  lemma CrowdIsClock(m: nat, k: nat)
    requires m > 0
    ensures Clock(Crowd(m, k)) && forall t <- Crowd(m, k) :: t < k
  {
    hide Arrival;
    var ts := Crowd(m, k);
    forall i, j | 0 <= i < j < |ts|
      ensures ts[i] <= ts[j]
    {
      ArrivalsInOrder(i, j, m);
    }
    forall i | 0 <= i < |ts|
      ensures 0 <= ts[i] < k
    {
      ArrivalIs(i, m, k);
    }
  }

  lemma CrowdPerMs(m: nat, k: nat, t: int)
    requires m > 0
    ensures |Arrivals(Crowd(m, k), t)| <= m
  {
    hide Arrival;
    var s := Arrivals(Crowd(m, k), t);
    forall i | i in s
      ensures m * t - 1 < i <= m * t - 1 + m
    {
      ArrivalIs(i, m, t);
    }
    IntervalSize(s, m * t - 1, m * t - 1 + m);
  }

  /** The whole crowd is admitted when it spreads over at most `limit` milliseconds of one window. */
  lemma CrowdAdmitted(w: Window, m: nat, k: nat)
    requires w.Valid() && m > 0 && k <= w.limit && k <= w.windowMs
    ensures |w.AdmittedIn(Crowd(m, k), k - 1)| == m * k
  {
    hide Arrival;
    var ts := Crowd(m, k);
    CrowdIsClock(m, k);
    forall i | 0 <= i < |ts|
      ensures w.AdmittedAt(ts, i) && k - 1 - w.windowMs < ts[i] <= k - 1
    {
      AdmittedIff(w, ts, i);
      CrowdRecent(w, ts, i, k);
      assert ts[i] in ts;
    }
    assert w.AdmittedIn(ts, k - 1) == Below(|ts|);
  }

  lemma CrowdRecent(w: Window, ts: seq<int>, i: nat, k: nat)
    requires Clock(ts) && i < |ts| && forall t <- ts :: t < k
    ensures |w.Recent(ts[..i + 1], ts[i])| <= k
  {
    var seen := ts[..i + 1];
    forall t <- w.Recent(seen, ts[i])
      ensures -1 < t <= k - 1
    {
      var j :| 0 <= j <= i && seen[j] == t;
      assert ts[j] in ts;
    }
    IntervalSize(w.Recent(seen, ts[i]), -1, k - 1);
  }

  /** What the rule promises: at most `limit` admitted requests in any window of any run. */
  ghost predicate KeepsPromise(w: Window, m: nat) {
    forall ts, end | Clock(ts) && AtMostPerMs(ts, m) :: |w.AdmittedIn(ts, end)| <= w.limit
  }

  /** Requests in the same millisecond share one set member, so the promise is kept for all traffic
      of up to `m` requests per millisecond if and only if `m * min(limit, window) <= limit`. */
  lemma PromiseIff(w: Window, m: nat)
    requires w.Valid()
    ensures KeepsPromise(w, m) <==> m * Smaller(w.limit, w.windowMs) <= w.limit
  {
    var k := Smaller(w.limit, w.windowMs);
    if m * k <= w.limit {
      forall ts, end | Clock(ts) && AtMostPerMs(ts, m) ensures |w.AdmittedIn(ts, end)| <= w.limit {
        AdmittedBound(w, ts, end, m);
      }
    } else {
      forall t ensures |Arrivals(Crowd(m, k), t)| <= m {
        CrowdPerMs(m, k, t);
      }
      CrowdIsClock(m, k);
      CrowdAdmitted(w, m, k);
    }
  }
}
