/** Hour and day quotas: two counters per rule and dimension, in UTC calendar buckets. */
module Quota {
  import opened Basics
  import opened Config

  datatype Scope = Hour | Day

  /** How long a bucket is, and how long beyond its length a counter created in it lives. */
  function Span(s: Scope): int {
    if s.Hour? then 3_600_000 else 86_400_000
  }

  function Slack(s: Scope): int {
    if s.Hour? then 600_000 else 3_600_000
  }

  function Ttl(s: Scope): int {
    if s.Hour? then (3600 + 600) * 1000 else (86400 + 3600) * 1000
  }

  function BucketOf(s: Scope, nowMs: int): int {
    nowMs / Span(s)
  }

  const UNLIMITED_REMAINING := 999999

  /** A counter's key: the hash tag of rule and dimension, and the bucket stamped into it. */
  datatype Slot = Slot(scope: Scope, tag: string, bucket: int)

  datatype Counter = Counter(n: int, expireAt: int)

  type Counters = map<Slot, Counter>

  /** What Redis holds once its clock has read `nowMs`: a counter past its expiry is gone for good. */
  function Live(c: Counters, nowMs: int): Counters {
    map k | k in c && nowMs <= c[k].expireAt :: c[k]
  }

  function Current(c: Counters, k: Slot): int {
    if k in c then c[k].n else 0
  }

  /** INCR, and EXPIRE on the first increment. */
  function Incremented(c: Counters, k: Slot, nowMs: int): Counters {
    c[k := if k in c then Counter(c[k].n + 1, c[k].expireAt) else Counter(1, nowMs + Ttl(k.scope))]
  }

  /** A request: the hash tag it is counted under, its clock, and the limits its rule has at that moment. */
  datatype Request = Request(tag: string, now: int, perHour: int, perDay: int) {
    function Limit(s: Scope): int {
      if s.Hour? then perHour else perDay
    }

    function Key(s: Scope): Slot {
      Slot(s, tag, BucketOf(s, now))
    }
  }

  predicate Room(limit: int, count: int) {
    limit <= 0 || count < limit
  }

  function Rest(limit: int, count: int): int {
    if limit > 0 then limit - count else UNLIMITED_REMAINING
  }

  /** Whether the counters, as they stand, leave room in a bucket of the request. */
  predicate RoomIn(c: Counters, r: Request, s: Scope) {
    Room(r.Limit(s), Current(Live(c, r.now), r.Key(s)))
  }

  predicate Admits(c: Counters, r: Request) {
    RoomIn(c, r, Hour) && RoomIn(c, r, Day)
  }

  function Step(c: Counters, r: Request): Counters {
    var live := Live(c, r.now);
    if !Admits(c, r) then live
    else Incremented(Incremented(live, r.Key(Hour), r.now), r.Key(Day), r.now)
  }

  datatype Reply = Reply(code: int, scope: string, value: int)

  /** A denial names the hour whenever the hour is full; an admission reports what is left of both. */
  function ReplyTo(c: Counters, r: Request): Reply {
    var live := Live(c, r.now);
    if !RoomIn(c, r, Hour) then Reply(0, "hour", Current(live, r.Key(Hour)))
    else if !RoomIn(c, r, Day) then Reply(0, "day", Current(live, r.Key(Day)))
    else Reply(1, "ok", Smaller(Rest(r.perHour, Current(live, r.Key(Hour)) + 1),
                                Rest(r.perDay, Current(live, r.Key(Day)) + 1)))
  }

  class QuotaCounters {
    var counters: Counters

    constructor ()
      ensures Valid() && counters == map[]
    {
      counters := map[];
    }

    ghost predicate Valid()
      reads this
    {
      forall k :: k in counters ==> counters[k].n >= 1
    }

    /** `quotaScript` on the keys of `runLua`, on what Redis still holds. Both counters move or neither
        does. */
    method Charge(tag: string, perHour: int, perDay: int, nowMs: int) returns (reply: Reply)
      requires Valid()
      modifies this
      ensures Valid()
      ensures var r := Request(tag, nowMs, perHour, perDay);
        && counters == Step(old(counters), r)
        && reply == ReplyTo(old(counters), r)
      ensures reply.code != 1 ==> counters == Live(old(counters), nowMs)
      ensures reply.code == 1 ==>
        var hour, day := Slot(Hour, tag, BucketOf(Hour, nowMs)), Slot(Day, tag, BucketOf(Day, nowMs));
        && Current(counters, hour) == Current(Live(old(counters), nowMs), hour) + 1
        && Current(counters, day) == Current(Live(old(counters), nowMs), day) + 1
    {
      hide BucketOf;
      counters := Live(counters, nowMs);
      var hourKey, dayKey := Slot(Hour, tag, BucketOf(Hour, nowMs)), Slot(Day, tag, BucketOf(Day, nowMs));
      var hCurrent := if hourKey in counters then counters[hourKey].n else 0;
      var dCurrent := if dayKey in counters then counters[dayKey].n else 0;
      if perHour > 0 && hCurrent + 1 > perHour {
        return Reply(0, "hour", hCurrent);
      }
      if perDay > 0 && dCurrent + 1 > perDay {
        return Reply(0, "day", dCurrent);
      }
      var hNew := hCurrent + 1;
      var hExpiry := if hNew == 1 then nowMs + Ttl(Hour) else counters[hourKey].expireAt;
      counters := counters[hourKey := Counter(hNew, hExpiry)];
      var dNew := dCurrent + 1;
      var dExpiry := if dNew == 1 then nowMs + Ttl(Day) else counters[dayKey].expireAt;
      counters := counters[dayKey := Counter(dNew, dExpiry)];
      var hRem := if perHour > 0 then perHour - hNew else UNLIMITED_REMAINING;
      var dRem := if perDay > 0 then perDay - dNew else UNLIMITED_REMAINING;
      return Reply(1, "ok", if hRem <= dRem then hRem else dRem);
    }
  }

  // ---------------------------------------------------------------- runs

  function After(rs: seq<Request>): Counters {
    if rs == [] then map[] else Step(After(Front(rs)), Last(rs))
  }

  predicate LastAdmitted(rs: seq<Request>)
    requires rs != []
  {
    Admits(After(Front(rs)), Last(rs))
  }

  /** The requests admitted so far under a tag, in a bucket. */
  function Count(tag: string, rs: seq<Request>, s: Scope, bucket: int): nat {
    if rs == [] then 0
    else
      var one := if Last(rs).Key(s) == Slot(s, tag, bucket) && LastAdmitted(rs) then 1 else 0;
      Count(tag, Front(rs), s, bucket) + one
  }

  /** No request, under whatever tag, reads a clock more than `lag` behind one read before it. */
  ghost predicate Lags(rs: seq<Request>, lag: int) {
    forall i, j | 0 <= i < j < |rs| :: rs[i].now - rs[j].now <= lag
  }

  /** The clock has been read beyond the latest time at which a counter of the bucket is sure to live. */
  ghost predicate Outlived(rs: seq<Request>, s: Scope, bucket: int) {
    exists r <- rs :: r.now > (bucket + 1) * Span(s) + Slack(s)
  }

  /** The counter of the bucket, if there is one, holds the bucket's count and lives as long as it is sure
      to; without one nothing was admitted, or the clock has been too far ahead. */
  ghost predicate CountsIn(tag: string, rs: seq<Request>, s: Scope, b: int) {
    var c, k := After(rs), Slot(s, tag, b);
    if k in c then c[k].n == Count(tag, rs, s, b) >= 1 && c[k].expireAt >= (b + 1) * Span(s) + Slack(s)
    else Count(tag, rs, s, b) == 0 || Outlived(rs, s, b)
  }

  ghost predicate Counts(rs: seq<Request>, s: Scope) {
    forall tag, b :: CountsIn(tag, rs, s, b)
  }

  lemma InBucket(s: Scope, now: int, bucket: int)
    requires BucketOf(s, now) == bucket
    ensures bucket * Span(s) <= now < (bucket + 1) * Span(s)
    ensures now + Ttl(s) >= (bucket + 1) * Span(s) + Slack(s)
  {
  }

  lemma NotOutlived(rs: seq<Request>, s: Scope, r: Request)
    requires Lags(rs + [r], Slack(s) + 1)
    ensures !Outlived(rs, s, BucketOf(s, r.now))
  {
    var b := BucketOf(s, r.now);
    InBucket(s, r.now, b);
    forall q <- rs
      ensures q.now <= (b + 1) * Span(s) + Slack(s)
    {
      var i :| 0 <= i < |rs| && rs[i] == q;
      assert (rs + [r])[i] == q && (rs + [r])[|rs|] == r;
    }
  }

  /** A request whose clock is not too far behind finds the true count of its bucket. */
  lemma ReadsTrueCount(rs: seq<Request>, s: Scope, r: Request)
    requires Counts(rs, s) && Lags(rs + [r], Slack(s) + 1)
    ensures Current(Live(After(rs), r.now), r.Key(s)) == Count(r.tag, rs, s, BucketOf(s, r.now))
  {
    var b := BucketOf(s, r.now);
    InBucket(s, r.now, b);
    NotOutlived(rs, s, r);
    hide BucketOf, Outlived, Count;
    assert CountsIn(r.tag, rs, s, b);
  }

  lemma LagsFront(rs: seq<Request>, lag: int)
    requires rs != [] && Lags(rs, lag)
    ensures Lags(Front(rs), lag) && rs == Front(rs) + [Last(rs)]
  {
  }

  /** What happens to one counter at one request: only an admitted request of its own tag and bucket moves
      it, every other leaves it as time leaves it. */
  lemma StepAt(c: Counters, r: Request, k: Slot)
    ensures var live, next, s := Live(c, r.now), Step(c, r), k.scope;
      if Admits(c, r) && r.Key(s) == k then
        k in next && next[k] == (if k in live then Counter(c[k].n + 1, c[k].expireAt) else Counter(1, r.now + Ttl(s)))
      else (k in next <==> k in live) && (k in live ==> next[k] == c[k])
  {
    hide BucketOf, Ttl;
    assert k.scope == Hour || k.scope == Day;
  }

  lemma {:induction false} CountersCount(rs: seq<Request>, s: Scope)
    requires Lags(rs, Slack(s) + 1)
    ensures Counts(rs, s)
  {
    if rs != [] {
      var front, r := Front(rs), Last(rs);
      LagsFront(rs, Slack(s) + 1);
      CountersCount(front, s);
      forall tag, b {
        StepCounts(tag, rs, s, b);
      }
    }
  }

  lemma StepCounts(tag: string, rs: seq<Request>, s: Scope, b: int)
    requires rs != [] && Lags(rs, Slack(s) + 1) && Counts(Front(rs), s)
    ensures CountsIn(tag, rs, s, b)
  {
    var front, r, k := Front(rs), Last(rs), Slot(s, tag, b);
    var c := After(front);
    LagsFront(rs, Slack(s) + 1);
    assert CountsIn(tag, front, s, b);
    StepAt(c, r, k);
    ReadsTrueCount(front, s, r);
    OutlivedGrows(rs, s, b);
    if BucketOf(s, r.now) == b {
      InBucket(s, r.now, b);
      NotOutlived(front, s, r);
    }
    hide BucketOf, Step, Admits, Counts, Lags, Span, Slack, Ttl, Outlived;
  }

  lemma OutlivedGrows(rs: seq<Request>, s: Scope, b: int)
    requires rs != []
    ensures Outlived(rs, s, b) <==> Outlived(Front(rs), s, b) || Last(rs).now > (b + 1) * Span(s) + Slack(s)
  {
    assert rs == Front(rs) + [Last(rs)];
    hide Span, Slack;
  }

  // ---------------------------------------------------------------- conservation

  /** Whether the requests admitted so far leave room in a bucket of the request. */
  predicate HasRoom(rs: seq<Request>, s: Scope, r: Request) {
    Room(r.Limit(s), Count(r.tag, rs, s, BucketOf(s, r.now)))
  }

  /** The quota is exact as long as the clock never lags more than 600 seconds behind: whatever other tags
      are charged, a request is admitted if and only if its hour and its day have room, counting precisely
      the requests admitted in them under its tag. */
  lemma QuotaIsExact(rs: seq<Request>, r: Request)
    requires Lags(rs + [r], Slack(Hour) + 1)
    ensures Admits(After(rs), r) <==> HasRoom(rs, Hour, r) && HasRoom(rs, Day, r)
  {
    LagsFront(rs + [r], Slack(Hour) + 1);
    assert Front(rs + [r]) == rs;
    CountersCount(rs, Hour);
    CountersCount(rs, Day);
    ReadsTrueCount(rs, Hour, r);
    ReadsTrueCount(rs, Day, r);
    hide BucketOf, Counts, Count, Lags, After;
  }

  /** What a request is told, in counts: an admission what it leaves in the bucket with the least room, of those
      that are limited; a denial the first full bucket, the hour before the day, and its count. */
  lemma AnswerInCounts(rs: seq<Request>, r: Request)
    requires Lags(rs + [r], Slack(Hour) + 1)
    ensures var reply := ReplyTo(After(rs), r);
      var h, d := Count(r.tag, rs, Hour, BucketOf(Hour, r.now)), Count(r.tag, rs, Day, BucketOf(Day, r.now));
      if r.perHour > 0 && h >= r.perHour then reply == Reply(0, "hour", h)
      else if r.perDay > 0 && d >= r.perDay then reply == Reply(0, "day", d)
      else
        && reply.code == 1 && reply.scope == "ok"
        && (r.perHour > 0 ==> reply.value <= r.perHour - h - 1)
        && (r.perDay > 0 ==> reply.value <= r.perDay - d - 1)
        && (r.perHour <= 0 || r.perDay <= 0 ==> reply.value <= 999_999)
        && ((reply.value == 999_999 && (r.perHour <= 0 || r.perDay <= 0))
            || (r.perHour > 0 && reply.value == r.perHour - h - 1)
            || (r.perDay > 0 && reply.value == r.perDay - d - 1))
  {
    hide BucketOf, Counts, Count, After;
    LagsFront(rs + [r], Slack(Hour) + 1);
    assert Front(rs + [r]) == rs;
    CountersCount(rs, Hour);
    CountersCount(rs, Day);
    ReadsTrueCount(rs, Hour, r);
    ReadsTrueCount(rs, Day, r);
  }

  /** Requests of the tag in the bucket have a limit, and none above `most`. */
  predicate LimitedTo(tag: string, rs: seq<Request>, s: Scope, bucket: int, most: nat) {
    forall r <- rs | r.Key(s) == Slot(s, tag, bucket) :: 0 < r.Limit(s) <= most
  }

  /** No hour and no day ever admits more under a tag than the tag's largest limit in force during it. */
  lemma {:induction false} Conserved(tag: string, rs: seq<Request>, s: Scope, bucket: int, most: nat)
    requires Lags(rs, Slack(s) + 1)
    requires LimitedTo(tag, rs, s, bucket, most)
    ensures Count(tag, rs, s, bucket) <= most
  {
    if rs != [] {
      var front, r := Front(rs), Last(rs);
      LagsFront(rs, Slack(s) + 1);
      assert r in rs;
      Conserved(tag, front, s, bucket, most);
      CountersCount(front, s);
      ReadsTrueCount(front, s, r);
      hide BucketOf, Counts, Lags, After;
    }
  }

  /** What the quota promises, for clocks that lag at most `lag` behind. */
  ghost predicate KeepsPromise(s: Scope, lag: int) {
    forall tag, rs, bucket, most | Lags(rs, lag) && LimitedTo(tag, rs, s, bucket, most) ::
      Count(tag, rs, s, bucket) <= most
  }

  function Single(s: Scope, tag: string, now: int): Request {
    if s.Hour? then Request(tag, now, 1, 0) else Request(tag, now, 0, 1)
  }

  /** The first request of a bucket, one of any tag just after its counter is gone, and one at the
      bucket's end. */
  function Rewind(s: Scope, tag: string, other: string): seq<Request> {
    [Single(s, tag, 0), Single(s, other, Ttl(s) + 1), Single(s, tag, Span(s) - 1)]
  }

  lemma SingleAdmitted(c: Counters, s: Scope, tag: string, now: int)
    requires Slot(s, tag, BucketOf(s, now)) !in c
    ensures Admits(c, Single(s, tag, now))
  {
    hide BucketOf;
  }

  lemma RewindBuckets(s: Scope)
    ensures BucketOf(s, 0) == 0 && BucketOf(s, Ttl(s) + 1) == 1 && BucketOf(s, Span(s) - 1) == 0
  {
  }

  lemma RewindOverdraws(s: Scope, tag: string, other: string)
    ensures Lags(Rewind(s, tag, other), Slack(s) + 2) && LimitedTo(tag, Rewind(s, tag, other), s, 0, 1)
    ensures Count(tag, Rewind(s, tag, other), s, 0) == 2
  {
    hide BucketOf, Step, Admits, Count;
    RewindBuckets(s);
    var x, y, z := Single(s, tag, 0), Single(s, other, Ttl(s) + 1), Single(s, tag, Span(s) - 1);
    var a := Step(map[], x);
    var b := Step(a, y);
    SingleAdmitted(map[], s, tag, 0);
    StepAt(map[], x, Slot(s, tag, 0));
    StepAt(a, y, Slot(s, tag, 0));
    assert Slot(s, tag, 0) !in b;
    SingleAdmitted(b, s, tag, Span(s) - 1);
    RunOfThree(tag, x, y, z, s, 0);
  }

  lemma NoneYet(tag: string, s: Scope, bucket: int)
    ensures After([]) == map[] && Count(tag, [], s, bucket) == 0
  {
  }

  lemma OneMore(tag: string, rs: seq<Request>, r: Request, s: Scope, bucket: int)
    ensures After(rs + [r]) == Step(After(rs), r)
    ensures Count(tag, rs + [r], s, bucket) == Count(tag, rs, s, bucket)
      + if r.Key(s) == Slot(s, tag, bucket) && Admits(After(rs), r) then 1 else 0
  {
    hide BucketOf, Admits, Step;
    assert Front(rs + [r]) == rs && Last(rs + [r]) == r;
  }

  lemma RunOfThree(tag: string, x: Request, y: Request, z: Request, s: Scope, bucket: int)
    requires x.Key(s) == Slot(s, tag, bucket) && y.Key(s) != Slot(s, tag, bucket) && z.Key(s) == Slot(s, tag, bucket)
    requires Admits(map[], x) && Admits(Step(Step(map[], x), y), z)
    ensures Count(tag, [x, y, z], s, bucket) == 2
  {
    hide *;
    NoneYet(tag, s, bucket);
    OneMore(tag, [], x, s, bucket);
    OneMore(tag, [] + [x], y, s, bucket);
    OneMore(tag, [] + [x] + [y], z, s, bucket);
    assert [] + [x] + [y] + [z] == [x, y, z];
  }

  /** The promise survives a clock that goes back if and only if it never lags more than the counters'
      slack, 600 seconds for the hour and 3600 for the day, and one millisecond. */
  lemma ToleranceIff(s: Scope, lag: int)
    ensures KeepsPromise(s, lag) <==> lag <= if s.Hour? then 600_001 else 3_600_001
  {
    if lag <= Slack(s) + 1 {
      forall tag, rs, bucket, most | Lags(rs, lag) && LimitedTo(tag, rs, s, bucket, most)
        ensures Count(tag, rs, s, bucket) <= most
      {
        Conserved(tag, rs, s, bucket, most);
      }
    } else {
      RewindOverdraws(s, "a", "b");
      assert Lags(Rewind(s, "a", "b"), lag);
    }
  }

  // ---------------------------------------------------------------- a day and its hours

  function HoursTotal(tag: string, rs: seq<Request>, first: int, hours: nat): nat {
    if hours == 0 then 0 else HoursTotal(tag, rs, first, hours - 1) + Count(tag, rs, Hour, first + hours - 1)
  }

  lemma {:induction false} TotalSteps(tag: string, rs: seq<Request>, first: int, hours: nat)
    requires rs != []
    ensures var here := Last(rs).tag == tag && first <= BucketOf(Hour, Last(rs).now) < first + hours;
      HoursTotal(tag, rs, first, hours)
        == HoursTotal(tag, Front(rs), first, hours) + if LastAdmitted(rs) && here then 1 else 0
  {
    if hours > 0 {
      TotalSteps(tag, rs, first, hours - 1);
    }
  }

  /** The day's count is the sum of the counts of its twenty-four hours. */
  lemma {:induction false} DayIsSumOfHours(tag: string, rs: seq<Request>, day: int)
    ensures Count(tag, rs, Day, day) == HoursTotal(tag, rs, 24 * day, 24)
  {
    if rs == [] {
      NoHours(tag, 24 * day, 24);
    } else {
      DayIsSumOfHours(tag, Front(rs), day);
      TotalSteps(tag, rs, 24 * day, 24);
      HourOfDay(Last(rs).now, day);
      hide BucketOf, LastAdmitted;
    }
  }

  lemma HourOfDay(now: int, day: int)
    ensures BucketOf(Day, now) == day <==> 24 * day <= BucketOf(Hour, now) < 24 * day + 24
  {
    Block(now, Span(Day), day);
    Block(now, Span(Hour), 24 * day);
    Block(now, Span(Hour), 24 * day + 24);
  }

  lemma {:induction false} NoHours(tag: string, first: int, hours: nat)
    ensures HoursTotal(tag, [], first, hours) == 0
  {
    if hours > 0 {
      NoHours(tag, first, hours - 1);
    }
  }

  // ---------------------------------------------------------------- when to retry

  const NS_PER_MS := 1_000_000

  /** From a clock reading in nanoseconds to the next bucket, in whole milliseconds. */
  function UntilNext(s: Scope, nowNs: int): int {
    var span := Span(s) * NS_PER_MS;
    ((nowNs / span + 1) * span - nowNs) / NS_PER_MS
  }

  /** `calcRetryAfter`. */
  function RetryAfterMs(scope: string, nowNs: int): int {
    if scope == "hour" then UntilNext(Hour, nowNs)
    else if scope == "day" then UntilNext(Day, nowNs)
    else 1000
  }

  /** `parseDecision`, on a reply of the script. */
  function ParseDecision(reply: Reply, nowNs: int): Decision {
    if reply.code == 0
    then Decision(false, 0, RetryAfterMs(reply.scope, nowNs), "quota_exceeded:" + reply.scope, None)
    else Decision(true, reply.value, 0, "quota_ok", None)
  }

  /** A clock reading in milliseconds, and what its nanoseconds add to it. */
  lemma Reading(nowNs: int)
    ensures nowNs == NS_PER_MS * (nowNs / NS_PER_MS) + nowNs % NS_PER_MS && 0 <= nowNs % NS_PER_MS < NS_PER_MS
  {
  }

  lemma Regroup(span: int, b: int)
    ensures (span * NS_PER_MS) * b == NS_PER_MS * (span * b)
    ensures (b + 1) * (span * NS_PER_MS) == NS_PER_MS * (span * b + span)
  {
  }

  lemma SameBucket(span: int, nowNs: int)
    requires span > 0
    ensures nowNs / (span * NS_PER_MS) == nowNs / NS_PER_MS / span
  {
    var ms := nowNs / NS_PER_MS;
    var b := ms / span;
    Reading(nowNs);
    Regroup(span, b);
    Block(ms, span, b);
    Block(nowNs, span * NS_PER_MS, b);
  }

  lemma Shortened(gap: int, part: int)
    requires 0 <= part < NS_PER_MS
    ensures (NS_PER_MS * gap - part) / NS_PER_MS == if part == 0 then gap else gap - 1
  {
  }

  lemma UntilNextIs(s: Scope, nowNs: int)
    ensures var ms, b := nowNs / NS_PER_MS, BucketOf(s, nowNs / NS_PER_MS);
      UntilNext(s, nowNs) == Span(s) * b + Span(s) - ms - if nowNs % NS_PER_MS == 0 then 0 else 1
    ensures Span(s) * BucketOf(s, nowNs / NS_PER_MS) <= nowNs / NS_PER_MS
    ensures nowNs / NS_PER_MS < Span(s) * BucketOf(s, nowNs / NS_PER_MS) + Span(s)
  {
    var ms, b := nowNs / NS_PER_MS, BucketOf(s, nowNs / NS_PER_MS);
    SameBucket(Span(s), nowNs);
    Reading(nowNs);
    Regroup(Span(s), b);
    Block(ms, Span(s), b);
    Shortened(Span(s) * b + Span(s) - ms, nowNs % NS_PER_MS);
    hide Span;
  }

  /** The announced delay ends on the first instant of the next bucket if and only if the clock reading was
      a whole millisecond; otherwise it ends in the last millisecond of the same bucket. */
  lemma RetryLandsOnNextBucket(s: Scope, nowNs: int)
    ensures var b, later := BucketOf(s, nowNs / NS_PER_MS), nowNs + UntilNext(s, nowNs) * NS_PER_MS;
      && nowNs / NS_PER_MS <= later / NS_PER_MS
      && (if nowNs % NS_PER_MS == 0 then later == NS_PER_MS * (Span(s) * (b + 1))
          else NS_PER_MS * (Span(s) * (b + 1) - 1) < later < NS_PER_MS * (Span(s) * (b + 1)))
      && BucketOf(s, later / NS_PER_MS) == b + if nowNs % NS_PER_MS == 0 then 1 else 0
  {
    var b, later := BucketOf(s, nowNs / NS_PER_MS), nowNs + UntilNext(s, nowNs) * NS_PER_MS;
    UntilNextIs(s, nowNs);
    Reading(nowNs);
    Reading(later);
    hide UntilNext, Span;
    assert Span(s) * (b + 1) == Span(s) * b + Span(s) == Span(s) * (b + 2) - Span(s);
    Block(later / NS_PER_MS, Span(s), b);
    Block(later / NS_PER_MS, Span(s), b + 1);
  }

  lemma {:induction false} NothingAhead(tag: string, rs: seq<Request>, s: Scope, bucket: int)
    requires forall r <- rs | r.tag == tag :: BucketOf(s, r.now) < bucket
    ensures Count(tag, rs, s, bucket) == 0
  {
    if rs != [] {
      assert Last(rs) in rs;
      NothingAhead(tag, Front(rs), s, bucket);
    }
  }

  lemma BucketsAdvance(s: Scope, a: int, b: int)
    requires a <= b
    ensures BucketOf(s, a) <= BucketOf(s, b)
  {
  }

  /** Requests of other tags, and denied ones, leave a tag's counts as they are. */
  lemma {:induction false} CountKept(tag: string, rs: seq<Request>, more: seq<Request>, s: Scope, b: int)
    requires forall q <- more :: q.tag != tag
    ensures Count(tag, rs + more, s, b) == Count(tag, rs, s, b)
    decreases |more|
  {
    if more == [] {
      assert rs + more == rs;
    } else {
      assert Front(rs + more) == rs + Front(more) && Last(rs + more) == Last(more) && Last(more) in more;
      CountKept(tag, rs, Front(more), s, b);
    }
  }

  lemma LagsPart(all: seq<Request>, n: nat, lag: int)
    requires Lags(all, lag) && n <= |all|
    ensures Lags(all[..n], lag)
  {
  }

  /** A denied request of a tag, followed by whatever others do, changes nothing for the tag. */
  lemma AfterDenial(rs: seq<Request>, r: Request, others: seq<Request>, later: Request)
    requires Lags(rs + [r] + others + [later], Slack(Hour) + 1)
    requires !Admits(After(rs), r) && later.tag == r.tag && forall q <- others :: q.tag != r.tag
    ensures Admits(After(rs + [r] + others), later) <==> HasRoom(rs, Hour, later) && HasRoom(rs, Day, later)
  {
    hide BucketOf, Admits, After;
    QuotaIsExact(rs + [r] + others, later);
    assert Front(rs + [r]) == rs;
    forall s: Scope
      ensures HasRoom(rs + [r] + others, s, later) <==> HasRoom(rs, s, later)
    {
      CountKept(r.tag, rs + [r], others, s, BucketOf(s, later.now));
    }
  }

  lemma DeniedNow(rs: seq<Request>, r: Request)
    requires Lags(rs + [r], Slack(Hour) + 1) && !Admits(After(rs), r)
    ensures ReplyTo(After(rs), r).code == 0
    ensures ReplyTo(After(rs), r).scope == if HasRoom(rs, Hour, r) then "day" else "hour"
    ensures !(HasRoom(rs, Hour, r) && HasRoom(rs, Day, r))
  {
    hide BucketOf, Counts, Count, After;
    LagsFront(rs + [r], Slack(Hour) + 1);
    assert Front(rs + [r]) == rs;
    CountersCount(rs, Hour);
    CountersCount(rs, Day);
    ReadsTrueCount(rs, Hour, r);
    ReadsTrueCount(rs, Day, r);
  }

  /** A new bucket has room for everyone. */
  lemma RoomAhead(rs: seq<Request>, s: Scope, r: Request, later: Request)
    requires later.tag == r.tag && (forall q <- rs | q.tag == r.tag :: q.now <= r.now)
    requires BucketOf(s, r.now) < BucketOf(s, later.now)
    ensures HasRoom(rs, s, later)
  {
    hide BucketOf;
    forall q | q in rs && q.tag == r.tag
      ensures BucketOf(s, q.now) < BucketOf(s, later.now)
    {
      BucketsAdvance(s, q.now, r.now);
    }
    NothingAhead(r.tag, rs, s, BucketOf(s, later.now));
  }

  /** The request a denied caller makes after exactly the announced delay. */
  function Retry(c: Counters, r: Request, nowNs: int): Request {
    r.(now := (nowNs + ParseDecision(ReplyTo(c, r), nowNs).retryAfterMs * NS_PER_MS) / NS_PER_MS)
  }

  /** None of the tag's requests so far has read a later clock. */
  predicate Latest(rs: seq<Request>, r: Request) {
    forall q <- rs | q.tag == r.tag :: q.now <= r.now
  }

  /** A caller who comes back after exactly the announced delay, others doing what they like meanwhile, is
      denied again unless the clock reading was a whole millisecond. If it was, and no earlier request of
      the tag read a later clock, the caller is admitted if and only if the day then has room. The day may
      not: the hour is named even when the day is exhausted too. A denial for the day leads to a new day. */
  lemma RetryAdmittedIff(rs: seq<Request>, r: Request, others: seq<Request>, nowNs: int)
    requires !Admits(After(rs), r) && r.now == nowNs / NS_PER_MS && forall q <- others :: q.tag != r.tag
    requires Lags(rs + [r] + others + [Retry(After(rs), r, nowNs)], Slack(Hour) + 1)
    ensures !ParseDecision(ReplyTo(After(rs), r), nowNs).allowed
    ensures var later := Retry(After(rs), r, nowNs);
      && (nowNs % NS_PER_MS != 0 ==> !Admits(After(rs + [r] + others), later))
      && (nowNs % NS_PER_MS == 0 && Latest(rs, r) ==>
            && (Admits(After(rs + [r] + others), later) <==> HasRoom(rs, Day, later))
            && (HasRoom(rs, Hour, r) ==> HasRoom(rs, Day, later)))
  {
    hide UntilNext, Admits, Span, BucketOf, Count, After, ReplyTo;
    var all := rs + [r] + others + [Retry(After(rs), r, nowNs)];
    assert all[..|rs| + 1] == rs + [r];
    LagsPart(all, |rs| + 1, Slack(Hour) + 1);
    DeniedNow(rs, r);
    var s := if HasRoom(rs, Hour, r) then Day else Hour;
    assert "day"[0] == 'd' && "hour"[0] == 'h';
    RetryLandsOnNextBucket(s, nowNs);
    var later := Retry(After(rs), r, nowNs);
    AfterDenial(rs, r, others, later);
    HourOfDay(r.now, BucketOf(Day, r.now));
    HourOfDay(later.now, BucketOf(Day, later.now));
    if nowNs % NS_PER_MS == 0 && Latest(rs, r) {
      RoomAhead(rs, s, r, later);
      if s == Day {
        RoomAhead(rs, Hour, r, later);
      }
    }
  }

  /** A request that fills a bucket of each given limit, made twice in the same millisecond. */
  lemma DeniedTwice(tag: string, perHour: int, perDay: int)
    requires perHour == 1 && (perDay == 0 || perDay == 1)
    ensures var r := Request(tag, 0, perHour, perDay);
      && Admits(After([]), r) && !Admits(After([r]), r) && ReplyTo(After([r]), r).scope == "hour"
      && Count(tag, [r], Hour, 0) == 1 && Count(tag, [r], Day, 0) == 1
  {
    var r := Request(tag, 0, perHour, perDay);
    assert Front([r]) == [] && [] + [r] == [r];
    assert BucketOf(Hour, 0) == 0 && BucketOf(Day, 0) == 0;
    assert After([r]) == Step(map[], r);
    StepAt(map[], r, Slot(Hour, tag, 0));
    StepAt(map[], r, Slot(Day, tag, 0));
    hide Step;
  }

  /** A caller denied a nanosecond into an hour comes back in the last millisecond of the same hour, and is
      denied again. */
  lemma FractionDenied(tag: string)
    ensures var r := Request(tag, 0, 1, 0);
      var later := Retry(After([r]), r, 1);
      later.now == 3_599_999 && !Admits(After([r]), r) && !Admits(After([r, r]), later)
  {
    var r := Request(tag, 0, 1, 0);
    DeniedTwice(tag, 1, 0);
    RetryOfHour([r], r, 1);
    hide After, Admits, ReplyTo, UntilNext, Count;
    assert [r] + [r] + [] == [r, r];
    RetryAdmittedIff([r], r, [], 1);
  }

  /** A caller whose hour and day are both exhausted is sent to the next hour, and denied there. */
  lemma ExhaustedDayDenied(tag: string)
    ensures var r := Request(tag, 0, 1, 1);
      var later := Retry(After([r]), r, 0);
      && ReplyTo(After([r]), r).scope == "hour" && later.now == 3_600_000
      && !Admits(After([r]), r) && !Admits(After([r, r]), later)
  {
    var r := Request(tag, 0, 1, 1);
    DeniedTwice(tag, 1, 1);
    RetryOfHour([r], r, 0);
    assert BucketOf(Day, 3_600_000) == 0;
    hide After, Admits, ReplyTo, UntilNext, Count;
    assert [r] + [r] + [] == [r, r];
    RetryAdmittedIff([r], r, [], 0);
  }

  lemma RetryOfHour(rs: seq<Request>, r: Request, nowNs: int)
    requires 0 <= nowNs <= 1 && ReplyTo(After(rs), r).scope == "hour" && !Admits(After(rs), r)
    ensures Retry(After(rs), r, nowNs).now == 3_600_000 - nowNs
  {
    hide After, Admits;
    UntilNextIs(Hour, nowNs);
    assert BucketOf(Hour, 0) == 0;
  }
}
