/** The machine a rule runs for each of its triples, and that the shared store runs it. */
module RuleMachines {
  import opened Basics
  import opened Config
  import opened RedisStore
  import opened Limiters
  import opened LimiterRuns
  import Scripts
  import T = TokenBucket
  import L = LeakyBucket
  import S = SlidingWindow

  ghost function TokenMachine(rule: Rule): T.Meter
    requires Runs(rule)
  {
    TokenMeter(rule).(ttl := Some(TokenTtl(rule.windowMs)))
  }

  ghost function LeakyMachine(rule: Rule): L.Drain
    requires Runs(rule)
  {
    LeakyDrain(rule).(ttl := Some(LeakyTtl(QueueSize(rule), rule.limit, rule.windowMs)))
  }

  ghost function SlidingMachine(rule: Rule): S.Window {
    SlidingSpan(rule).(ttl := Some(rule.windowMs + 1000))
  }

  /** What a triple's machine has stored; only the part of its own algorithm is ever looked at. */
  datatype State = State(token: Option<T.Bucket>, leaky: Option<L.Queue>, sliding: Option<S.Log>)

  const IDLE := State(None, None, None)

  /** A log that has not expired. */
  function KeptLog(w: S.Window, z: Option<S.Log>, now: int): Option<S.Log> {
    if z.Some? && w.ttl.Some? && now > z.value.last + w.ttl.value then None else z
  }

  /** The state once the clock has read `now`: what has expired is gone. */
  ghost function Rested(rule: Rule, st: State, now: int): State
    requires Runs(rule)
  {
    State(TokenMachine(rule).Seen(st.token, now), LeakyMachine(rule).Seen(st.leaky, now),
          KeptLog(SlidingMachine(rule), st.sliding, now))
  }

  /** The state after a request. */
  ghost function Moved(rule: Rule, st: State, now: int): State
    requires Runs(rule)
  {
    State(Some(TokenMachine(rule).Take(st.token, now)), Some(LeakyMachine(rule).Offer(st.leaky, now)),
          Some(SlidingMachine(rule).Offer(st.sliding, now)))
  }

  lemma RateIsPositive(rule: Rule)
    requires Runs(rule)
    ensures TokenMachine(rule).rate > 0.0
  {
    Scripts.MeterOfIsValid(rule.limit, rule.windowMs, rule.burst);
  }

  lemma RestedTwice(rule: Rule, st: State, a: int, b: int)
    requires Runs(rule) && a <= b
    ensures Rested(rule, Rested(rule, st, a), b) == Rested(rule, st, b)
    ensures Moved(rule, Rested(rule, st, a), b) == Moved(rule, st, b)
  {
    hide TokenMachine, LeakyMachine, SlidingMachine, Earned;
    var w := SlidingMachine(rule);
    assert w.Seen(KeptLog(w, st.sliding, a), b) == w.Seen(st.sliding, b);
    SameEntered(w, w, KeptLog(w, st.sliding, a), st.sliding, b);
    assert w.Offer(KeptLog(w, st.sliding, a), b) == w.Offer(st.sliding, b) by {
      hide S.Window.Seen;
    }
  }

  lemma MovedStays(rule: Rule, st: State, now: int)
    requires Runs(rule)
    ensures Rested(rule, Moved(rule, st, now), now) == Moved(rule, st, now)
  {
    hide Earned;
    assert TokenTtl(rule.windowMs) > 0;
    assert LeakyTtl(QueueSize(rule), rule.limit, rule.windowMs) > 0;
    hide TokenTtl, LeakyTtl;
  }

  // ---------------------------------------------------------------- state and store

  /** The entry a stored bucket, queue or log amounts to. */
  function TokenEntry(b: Option<T.Bucket>, ttl: int): Option<Entry> {
    match b
    case None => None
    case Some(k) => Some(Entry(Hash(map["tokens" := k.tokens], map["last_refill" := k.last]), Some(k.last + ttl)))
  }

  function LeakyEntry(q: Option<L.Queue>, ttl: int): Option<Entry> {
    match q
    case None => None
    case Some(k) => Some(Entry(Hash(map["level" := k.level], map["last_ts" := k.last]), Some(k.last + ttl)))
  }

  function SlidingEntry(z: Option<S.Log>, ttl: int): Option<Entry> {
    match z
    case None => None
    case Some(k) => Some(Entry(Scores(k.members), Some(k.last + ttl)))
  }

  /** What a reply of the machine makes of the decision; the leaky and sliding limiters give no hint. */
  ghost predicate Decided(s: Served, allowed: bool, remaining: int, retryAfterMs: int) {
    && s.err.None? && s.dec.err.None? && s.dec.allowed == allowed
    && s.dec.remaining == remaining && s.dec.retryAfterMs == retryAfterMs
    && s.dec.reason == (if allowed then "allowed" else "rate_limited")
  }

  lemma TokenCall(db: Db, down: set<string>, rule: Rule, key: string, b: Option<T.Bucket>, now: int)
    requires Runs(rule) && key != "" && key !in down && TokenMachine(rule).rate > 0.0
    requires EntryAt(db, key) == TokenEntry(b, TokenTtl(rule.windowMs))
    ensures var served, m := Serve(Live(db, now), down, TokenBucket, rule, key, now), TokenMachine(rule);
      var reply := m.Respond(b, now);
      && EntryAt(served.db, key) == TokenEntry(Some(m.Take(b, now)), TokenTtl(rule.windowMs))
      && Decided(served, reply.allowed, reply.remaining, if reply.resetMs > now then reply.resetMs - now else 0)
  {
    Scripts.MeterOfIsValid(rule.limit, rule.windowMs, rule.burst);
    var m, h := TokenMachine(rule), HashAt(Live(db, now), key, now);
    ExpiryUnseen(db, key, now);
    hide Earned, Wrap64;
    assert Scripts.BucketIn(h) == m.Seen(b, now);
    var k := m.Take(b, now);
    assert TokenMeter(rule).Take(Scripts.BucketIn(h), now) == k;
    assert Scripts.WithBucket(h, k) == Hash(map["tokens" := k.tokens], map["last_refill" := k.last]);
  }

  lemma LeakyCall(db: Db, down: set<string>, rule: Rule, key: string, q: Option<L.Queue>, now: int)
    requires Runs(rule) && key != "" && key !in down
    requires EntryAt(db, key) == LeakyEntry(q, LeakyTtl(QueueSize(rule), rule.limit, rule.windowMs))
    ensures var served, d := Serve(Live(db, now), down, LeakyBucket, rule, key, now), LeakyMachine(rule);
      var reply, ttl := d.Respond(q, now), LeakyTtl(QueueSize(rule), rule.limit, rule.windowMs);
      && EntryAt(served.db, key) == LeakyEntry(Some(d.Offer(q, now)), ttl)
      && Decided(served, reply.allowed, reply.remaining, 0)
  {
    hide Earned, LeakyTtl;
    var d, h := LeakyMachine(rule), HashAt(Live(db, now), key, now);
    ExpiryUnseen(db, key, now);
    var stored := Some(Scripts.QueueIn(h, now));
    assert LeakyDrain(rule).Drained(stored, now) == d.Drained(q, now);
    var k := d.Offer(q, now);
    assert Scripts.WithQueue(h, k) == Hash(map["level" := k.level], map["last_ts" := k.last]);
  }

  lemma SlidingCall(db: Db, down: set<string>, rule: Rule, key: string, z: Option<S.Log>, now: int)
    requires Runs(rule) && key != "" && key !in down && EntryAt(db, key) == SlidingEntry(z, rule.windowMs + 1000)
    ensures var served, w := Serve(Live(db, now), down, SlidingWindow, rule, key, now), SlidingMachine(rule);
      var reply := w.Respond(z, now);
      && EntryAt(served.db, key) == SlidingEntry(Some(w.Offer(z, now)), rule.windowMs + 1000)
      && Decided(served, reply.allowed, reply.remaining, 0)
  {
    SeenInStore(db, rule, key, z, now);
    hide S.Window.Entered, S.Window.Seen, ScoresAt, Get, ScoresOrMissing, Live;
    var scores := ScoresAt(Live(db, now), key, now);
    SameEntered(SlidingSpan(rule), SlidingMachine(rule), Some(S.Log(scores, now)), z, now);
  }

  lemma SeenInStore(db: Db, rule: Rule, key: string, z: Option<S.Log>, now: int)
    requires EntryAt(db, key) == SlidingEntry(z, rule.windowMs + 1000)
    ensures ScoresOrMissing(Live(db, now), key, now)
    ensures SlidingSpan(rule).Seen(Some(S.Log(ScoresAt(Live(db, now), key, now), now)), now)
         == SlidingMachine(rule).Seen(z, now)
  {
  }

  lemma SameEntered(v: S.Window, w: S.Window, y: Option<S.Log>, z: Option<S.Log>, now: int)
    requires v.windowMs == w.windowMs && v.limit == w.limit && v.Seen(y, now) == w.Seen(z, now)
    ensures v.Entered(y, now) == w.Entered(z, now)
    ensures v.Respond(y, now) == w.Respond(z, now) && v.Offer(y, now) == w.Offer(z, now)
  {
    assert v.Entered(y, now) == w.Entered(z, now);
  }

  /** What the key of a triple holds when its machine is in this state. */
  ghost predicate Holds(t: Triple, rule: Rule, st: State, entry: Option<Entry>)
    requires Runs(rule)
  {
    match t.algo
    case TokenBucket => entry == TokenEntry(st.token, TokenTtl(rule.windowMs))
    case LeakyBucket => entry == LeakyEntry(st.leaky, LeakyTtl(QueueSize(rule), rule.limit, rule.windowMs))
    case SlidingWindow => entry == SlidingEntry(st.sliding, rule.windowMs + 1000)
  }

  /** The decision of a request at `now` is what the triple's machine replies in this state. */
  ghost predicate Replies(t: Triple, rule: Rule, st: State, now: int, served: Served)
    requires Runs(rule) && TokenMachine(rule).rate > 0.0
  {
    match t.algo
    case TokenBucket =>
      var r := TokenMachine(rule).Respond(st.token, now);
      Decided(served, r.allowed, r.remaining, if r.resetMs > now then r.resetMs - now else 0)
    case LeakyBucket =>
      var r := LeakyMachine(rule).Respond(st.leaky, now);
      Decided(served, r.allowed, r.remaining, 0)
    case SlidingWindow =>
      var r := SlidingMachine(rule).Respond(st.sliding, now);
      Decided(served, r.allowed, r.remaining, 0)
  }

  lemma OneCall(prefix: string, t: Triple, rule: Rule, st: State, db: Db, c: Call)
    requires Runs(rule) && TokenMachine(rule).rate > 0.0 && Holds(t, rule, st, EntryAt(db, KeyOf(prefix, t)))
    requires c.triple == t && c.rule == rule && KeyOf(prefix, t) !in c.down
    ensures Replies(t, rule, st, c.now, ServeCall(prefix, Live(db, c.now), c))
    ensures Holds(t, rule, Moved(rule, st, c.now), EntryAt(ServeCall(prefix, Live(db, c.now), c).db, KeyOf(prefix, t)))
  {
    var key := KeyOf(prefix, t);
    assert |key| >= |prefix| + 1;
    hide Serve, Live, TokenTtl, LeakyTtl, Earned, TokenEntry, LeakyEntry, SlidingEntry, KeyOf, Decided;
    match t.algo
    case TokenBucket => TokenCall(db, c.down, rule, key, st.token, c.now);
    case LeakyBucket => LeakyCall(db, c.down, rule, key, st.leaky, c.now);
    case SlidingWindow => SlidingCall(db, c.down, rule, key, st.sliding, c.now);
  }

  /** Letting time pass takes the state and the key alike. */
  lemma OneTick(t: Triple, rule: Rule, st: State, db: Db, key: string, now: int)
    requires Runs(rule) && Holds(t, rule, st, EntryAt(db, key))
    ensures Holds(t, rule, Rested(rule, st, now), EntryAt(Live(db, now), key))
  {
    hide TokenTtl, LeakyTtl;
  }

  /** A call that cannot reach its key grants nothing and leaves the store as it is. */
  lemma Unreached(prefix: string, db: Db, c: Call)
    requires KeyOf(prefix, c.triple) in c.down
    ensures var served := ServeCall(prefix, db, c);
      served.db == db && served.err.Some? && !served.dec.allowed
  {
    hide KeyOf;
  }

  // ---------------------------------------------------------------- runs

  /** All calls of the triple are made under this rule. */
  ghost predicate UnderOneRule(cs: seq<Call>, t: Triple, rule: Rule) {
    forall c <- cs | c.triple == t :: c.rule == rule
  }

  /** A call of the triple that reaches its key. */
  predicate Touches(prefix: string, c: Call, t: Triple) {
    c.triple == t && KeyOf(prefix, t) !in c.down
  }

  /** The triple's state after a run of everybody's calls: its own requests move it, all others only take
      time. */
  ghost function StateAfter(prefix: string, rule: Rule, cs: seq<Call>, t: Triple): State
    requires Runs(rule)
  {
    if cs == [] then IDLE
    else
      var st, c := StateAfter(prefix, rule, Front(cs), t), Last(cs);
      if Touches(prefix, c, t) then Moved(rule, st, c.now) else Rested(rule, st, c.now)
  }

  /** The triple's own share of the store holds its machine's state, in every run and under any clock. */
  lemma {:induction false} StoreRunsMachine(prefix: string, t: Triple, rule: Rule, cs: seq<Call>)
    requires Runs(rule) && UnderOneRule(cs, t, rule)
    ensures Holds(t, rule, StateAfter(prefix, rule, cs, t), EntryAt(Ticked(prefix, map[], cs, t), KeyOf(prefix, t)))
  {
    hide KeyOf, ServeCall, Live, Moved, Rested, Replies;
    RateIsPositive(rule);
    if cs != [] {
      var front, c := Front(cs), Last(cs);
      assert c in cs && forall q <- front :: q in cs;
      StoreRunsMachine(prefix, t, rule, front);
      var db, st := Ticked(prefix, map[], front, t), StateAfter(prefix, rule, front, t);
      hide Holds, Ticked;
      TickedStep(prefix, cs, t);
      if Touches(prefix, c, t) {
        OneCall(prefix, t, rule, st, db, c);
      } else {
        OneTick(t, rule, st, db, KeyOf(prefix, t), c.now);
        if c.triple == t {
          Unreached(prefix, Live(db, c.now), c);
        }
      }
    }
  }

  lemma TickedStep(prefix: string, cs: seq<Call>, t: Triple)
    requires cs != []
    ensures var live := Live(Ticked(prefix, map[], Front(cs), t), Last(cs).now);
      Ticked(prefix, map[], cs, t) == if Last(cs).triple == t then ServeCall(prefix, live, Last(cs)).db else live
  {
  }

  /** In every run of everybody's calls, under any clock, a triple's decision is its machine's reply, or a
      refusal with an error when its key cannot be reached. */
  lemma OwnAnswer(prefix: string, t: Triple, rule: Rule, cs: seq<Call>, c: Call)
    requires Runs(rule) && Proper(cs + [c]) && UnderOneRule(cs + [c], t, rule) && c.triple == t
    ensures TokenMachine(rule).rate > 0.0
    ensures var answer := Answer(prefix, map[], cs, c);
      if Touches(prefix, c, t) then Replies(t, rule, StateAfter(prefix, rule, cs, t), c.now, answer)
      else answer.err.Some? && !answer.dec.allowed
  {
    assert c in cs + [c] && forall q <- cs :: q in cs + [c];
    hide KeyOf, ServeCall, Live, StateAfter, Holds, Ticked, TokenMachine, LeakyMachine, SlidingMachine, AfterCalls;
    RateIsPositive(rule);
    StoreRunsMachine(prefix, t, rule, cs);
    NonInterference(prefix, map[], cs, c);
    var db := Ticked(prefix, map[], cs, t);
    if Touches(prefix, c, t) {
      OneCall(prefix, t, rule, StateAfter(prefix, rule, cs, t), db, c);
    } else {
      Unreached(prefix, Live(AfterCalls(prefix, map[], cs), c.now), c);
    }
  }

  // ---------------------------------------------------------------- runs of one triple, and forward clocks

  /** When the triple's key was touched. */
  function OwnTimes(prefix: string, cs: seq<Call>, t: Triple): seq<int> {
    if cs == [] then []
    else OwnTimes(prefix, Front(cs), t) + if Touches(prefix, Last(cs), t) then [Last(cs).now] else []
  }

  /** The state after requests at these times and nothing else. */
  ghost function Pure(rule: Rule, ts: seq<int>): State
    requires Runs(rule)
  {
    State(TokenMachine(rule).After(None, ts), LeakyMachine(rule).After(None, ts), SlidingMachine(rule).After(ts))
  }

  lemma PureSteps(rule: Rule, ts: seq<int>, now: int)
    requires Runs(rule)
    ensures Pure(rule, ts + [now]) == Moved(rule, Pure(rule, ts), now) && Pure(rule, []) == IDLE
  {
    hide TokenMachine, LeakyMachine, SlidingMachine, T.Meter.Take, L.Drain.Offer, S.Window.Offer;
    assert Front(ts + [now]) == ts;
  }

  /** A triple alone, wherever the clock jumps, is in the state its requests lead to. */
  lemma {:induction false} AloneIsPure(prefix: string, rule: Rule, cs: seq<Call>, t: Triple)
    requires Runs(rule) && forall c <- cs :: Touches(prefix, c, t)
    ensures StateAfter(prefix, rule, cs, t) == Pure(rule, OwnTimes(prefix, cs, t))
  {
    hide Touches, Moved, Rested, Pure;
    PureSteps(rule, [], 0);
    if cs != [] {
      assert Last(cs) in cs && forall c <- Front(cs) :: c in cs;
      AloneIsPure(prefix, rule, Front(cs), t);
      PureSteps(rule, OwnTimes(prefix, Front(cs), t), Last(cs).now);
    }
  }

  /** Among others, under a clock that does not go back, it is in the state its requests lead to and the
      time since has left of it. */
  lemma {:induction false} OnwardIsPure(prefix: string, rule: Rule, cs: seq<Call>, t: Triple)
    requires Runs(rule) && Onward(cs) && cs != []
    ensures StateAfter(prefix, rule, cs, t) == Rested(rule, Pure(rule, OwnTimes(prefix, cs, t)), Last(cs).now)
  {
    hide Touches, Moved, Rested, Pure;
    PureSteps(rule, [], 0);
    var front, c := Front(cs), Last(cs);
    var ts := OwnTimes(prefix, front, t);
    PureSteps(rule, ts, c.now);
    assert ts + [] == ts;
    if front == [] {
      MovedStays(rule, IDLE, c.now);
    } else {
      OnwardIsPure(prefix, rule, front, t);
      assert Last(front).now <= c.now;
      RestedTwice(rule, Pure(rule, ts), Last(front).now, c.now);
      MovedStays(rule, Pure(rule, ts), c.now);
    }
  }
}
