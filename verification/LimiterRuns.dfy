/** Many triples sharing one store: every limiter key belongs to one script, and every triple
    (algorithm, rule, dimension hash) is limited as if it were alone. */
module LimiterRuns {
  import opened Basics
  import opened Config
  import opened RedisStore
  import opened Limiters
  import opened Text
  import Scripts
  import T = TokenBucket
  import L = LeakyBucket
  import S = SlidingWindow

  /** The limiters `main` configures. */
  const MAIN_LIMITERS :=
    map["token_bucket" := TokenBucket, "sliding_window" := SlidingWindow, "leaky_bucket" := LeakyBucket]

  /** The algorithm the engine names the key after: `normalizeAlgo` and the switch on its result. */
  function EngineAlgo(algo: string): Option<Algo> {
    var name := if NormalizeAlgo(algo) == "" then "token_bucket" else NormalizeAlgo(algo);
    if name == "token_bucket" then Some(TokenBucket)
    else if name == "sliding_window" then Some(SlidingWindow)
    else if name == "leaky_bucket" then Some(LeakyBucket)
    else None
  }

  /** The engine and the mux, each normalizing on its own, agree on the limiter. */
  lemma EngineAgreesWithMux(algo: string)
    ensures EngineAlgo(algo) == Route(MAIN_LIMITERS, "token_bucket", algo)
  {
  }

  /** The names of the algorithms, in any letter case and with spaces around them; no name is the token bucket. */
  lemma AlgoNames(algo: string)
    ensures var name := ToLower(TrimSpace(algo));
      && (EngineAlgo(algo) == Some(TokenBucket) <==> name == "" || name == "token_bucket")
      && (EngineAlgo(algo) == Some(SlidingWindow) <==> name == "sliding_window")
      && (EngineAlgo(algo) == Some(LeakyBucket) <==> name == "leaky_bucket")
  {
    assert "token_bucket"[0] == 't' && "sliding_window"[0] == 's' && "leaky_bucket"[0] == 'l';
    hide TrimSpace, ToLower;
  }

  datatype Triple = Triple(algo: Algo, ruleId: string, dimKey: string)

  function KeyOf(prefix: string, t: Triple): string {
    LimiterKey(prefix, t.algo, t.ruleId, t.dimKey)
  }

  /** One request reaching the limiter of its triple. The rule's parameters and the unreachable keys
      may differ from call to call. */
  datatype Call = Call(triple: Triple, rule: Rule, now: int, down: set<string>)

  ghost predicate Proper(cs: seq<Call>) {
    forall c <- cs :: IsHex(c.triple.dimKey)
  }

  ghost function ServeCall(prefix: string, db: Db, c: Call): Served {
    Serve(db, c.down, c.triple.algo, c.rule, KeyOf(prefix, c.triple), c.now)
  }

  /** What a call finds: the keys that have expired by then are gone. */
  ghost function Answer(prefix: string, db: Db, cs: seq<Call>, c: Call): Served
    decreases |cs|, 1
  {
    ServeCall(prefix, Live(AfterCalls(prefix, db, cs), c.now), c)
  }

  ghost function AfterCalls(prefix: string, db: Db, cs: seq<Call>): Db
    decreases |cs|, 0
  {
    if cs == [] then db else Answer(prefix, db, Front(cs), Last(cs)).db
  }

  // ---------------------------------------------------------------- one script per key

  /** What the script of `algo` leaves under a key it alone has written. */
  predicate WrittenBy(algo: Algo, v: Value) {
    match algo
    case TokenBucket => v.Hash? && v.amounts.Keys == {"tokens"} && v.stamps.Keys == {"last_refill"}
    case LeakyBucket => v.Hash? && v.amounts.Keys == {"level"} && v.stamps.Keys == {"last_ts"}
    case SlidingWindow => v.Scores?
  }

  ghost predicate WellTyped(prefix: string, db: Db) {
    forall t: Triple | IsHex(t.dimKey) && KeyOf(prefix, t) in db :: WrittenBy(t.algo, db[KeyOf(prefix, t)].value)
  }

  lemma ServeTouchesOneKey(db: Db, down: set<string>, algo: Algo, rule: Rule, key: string, now: int)
    ensures var db' := Serve(db, down, algo, rule, key, now).db;
      && db' - {key} == db - {key}
      && (key in db && WrittenBy(algo, db[key].value) && key in db' ==> WrittenBy(algo, db'[key].value))
      && (key !in db && key in db' ==> WrittenBy(algo, db'[key].value))
  {
  }

  lemma CallKeepsTypes(prefix: string, db: Db, c: Call)
    requires WellTyped(prefix, db) && IsHex(c.triple.dimKey)
    ensures WellTyped(prefix, ServeCall(prefix, db, c).db)
    ensures Typed(db, c.triple.algo, KeyOf(prefix, c.triple), c.now)
  {
    var key, db' := KeyOf(prefix, c.triple), ServeCall(prefix, db, c).db;
    ServeTouchesOneKey(db, c.down, c.triple.algo, c.rule, key, c.now);
    forall t: Triple | IsHex(t.dimKey) && KeyOf(prefix, t) in db'
      ensures WrittenBy(t.algo, db'[KeyOf(prefix, t)].value)
    {
      var k := KeyOf(prefix, t);
      if k == key {
        KeysAreInjective(prefix, t.algo, t.ruleId, t.dimKey, c.triple.algo, c.triple.ruleId, c.triple.dimKey);
      } else {
        assert k in db' - {key} && (db' - {key})[k] == (db - {key})[k];
      }
    }
  }

  /** In every run over a store without foreign values, each key is written by one script only, and
      no script ever meets a value of the wrong type. */
  lemma {:induction false} OneScriptPerKey(prefix: string, db: Db, cs: seq<Call>)
    requires WellTyped(prefix, db) && Proper(cs)
    ensures WellTyped(prefix, AfterCalls(prefix, db, cs))
    ensures cs != [] ==>
      Typed(Live(AfterCalls(prefix, db, Front(cs)), Last(cs).now),
            Last(cs).triple.algo, KeyOf(prefix, Last(cs).triple), Last(cs).now)
  {
    if cs != [] {
      OneScriptPerKey(prefix, db, Front(cs));
      assert Last(cs) in cs;
      CallKeepsTypes(prefix, Live(AfterCalls(prefix, db, Front(cs)), Last(cs).now), Last(cs));
      hide ServeCall, Typed;
    }
  }

  // ---------------------------------------------------------------- non-interference

  ghost predicate SameAt(key: string, a: Db, b: Db) {
    (key in a <==> key in b) && (key in a ==> a[key] == b[key])
  }

  /** A call looks at nothing but its own key. */
  lemma ServeIsLocal(a: Db, b: Db, down: set<string>, algo: Algo, rule: Rule, key: string, now: int)
    requires SameAt(key, a, b)
    ensures var x, y := Serve(a, down, algo, rule, key, now), Serve(b, down, algo, rule, key, now);
      x.dec == y.dec && x.err == y.err && SameAt(key, x.db, y.db)
  {
    assert Get(a, key, now) == Get(b, key, now);
    assert HashAt(a, key, now) == HashAt(b, key, now);
    assert ScoresAt(a, key, now) == ScoresAt(b, key, now);
  }

  /** The calls of one triple, in order. */
  function Own(cs: seq<Call>, t: Triple): seq<Call> {
    if cs == [] then []
    else Own(Front(cs), t) + if Last(cs).triple == t then [Last(cs)] else []
  }

  lemma Outside(a: Db, b: Db, touched: string, key: string)
    requires a - {touched} == b - {touched} && key != touched
    ensures SameAt(key, a, b)
  {
    assert key in a <==> key in a - {touched};
    assert key in b <==> key in b - {touched};
    if key in a {
      assert (a - {touched})[key] == (b - {touched})[key];
    }
  }

  /** The store a triple would see if the calls of others were only the passing of time. */
  ghost function Ticked(prefix: string, db: Db, cs: seq<Call>, t: Triple): Db {
    if cs == [] then db
    else
      var live := Live(Ticked(prefix, db, Front(cs), t), Last(cs).now);
      if Last(cs).triple == t then ServeCall(prefix, live, Last(cs)).db else live
  }

  lemma SameWhenLive(key: string, a: Db, b: Db, now: int)
    requires SameAt(key, a, b)
    ensures SameAt(key, Live(a, now), Live(b, now))
  {
  }

  lemma OthersCallsOnlyTakeTime(prefix: string, a: Db, c: Call, t: Triple)
    requires c.triple != t && IsHex(c.triple.dimKey) && IsHex(t.dimKey)
    ensures SameAt(KeyOf(prefix, t), ServeCall(prefix, a, c).db, a)
  {
    var key, other := KeyOf(prefix, t), KeyOf(prefix, c.triple);
    if other == key {
      KeysAreInjective(prefix, t.algo, t.ruleId, t.dimKey, c.triple.algo, c.triple.ruleId, c.triple.dimKey);
    }
    hide KeyOf, Serve;
    ServeTouchesOneKey(a, c.down, c.triple.algo, c.rule, other, c.now);
    Outside(ServeCall(prefix, a, c).db, a, other, key);
  }

  lemma {:induction false} TickedAgrees(prefix: string, db: Db, cs: seq<Call>, t: Triple)
    requires Proper(cs) && IsHex(t.dimKey)
    ensures SameAt(KeyOf(prefix, t), AfterCalls(prefix, db, cs), Ticked(prefix, db, cs, t))
  {
    if cs != [] {
      var front, c := Front(cs), Last(cs);
      assert c in cs && Proper(front);
      TickedAgrees(prefix, db, front, t);
      var a, b := AfterCalls(prefix, db, front), Ticked(prefix, db, front, t);
      SameWhenLive(KeyOf(prefix, t), a, b, c.now);
      if c.triple == t {
        SameCall(prefix, Live(a, c.now), Live(b, c.now), c);
      } else {
        OthersCallsOnlyTakeTime(prefix, Live(a, c.now), c, t);
      }
      hide KeyOf, ServeCall, Live;
    }
  }

  lemma SameCall(prefix: string, a: Db, b: Db, c: Call)
    requires SameAt(KeyOf(prefix, c.triple), a, b)
    ensures var x, y := ServeCall(prefix, a, c), ServeCall(prefix, b, c);
      x.dec == y.dec && x.err == y.err && SameAt(KeyOf(prefix, c.triple), x.db, y.db)
  {
    hide KeyOf, Serve;
    ServeIsLocal(a, b, c.down, c.triple.algo, c.rule, KeyOf(prefix, c.triple), c.now);
  }

  /** Other traffic never shows, in any run and under any clock: a triple gets the decision it would get if
      every other triple's call were only the passing of time. */
  lemma NonInterference(prefix: string, db: Db, cs: seq<Call>, c: Call)
    requires Proper(cs + [c])
    ensures var mixed, alone := Answer(prefix, db, cs, c),
                                ServeCall(prefix, Live(Ticked(prefix, db, cs, c.triple), c.now), c);
      mixed.dec == alone.dec && mixed.err == alone.err
  {
    assert c in cs + [c] && forall q <- cs :: q in cs + [c];
    hide KeyOf, ServeCall, Live;
    TickedAgrees(prefix, db, cs, c.triple);
    var a, b := AfterCalls(prefix, db, cs), Ticked(prefix, db, cs, c.triple);
    SameWhenLive(KeyOf(prefix, c.triple), a, b, c.now);
    SameCall(prefix, Live(a, c.now), Live(b, c.now), c);
  }

  /** No other triple's call reads a later clock than a call of this triple after it. */
  ghost predicate Steady(cs: seq<Call>, t: Triple) {
    forall i, j | 0 <= i < j < |cs| && cs[i].triple != t && cs[j].triple == t :: cs[i].now <= cs[j].now
  }

  /** The clock never goes back. */
  ghost predicate Onward(cs: seq<Call>) {
    forall i, j | 0 <= i < j < |cs| :: cs[i].now <= cs[j].now
  }

  lemma OnwardIsSteady(cs: seq<Call>, t: Triple)
    requires Onward(cs)
    ensures Steady(cs, t)
  {
  }

  /** The two stores agree on the key, except that the first may have dropped an entry which a foreign
      call has found expired. */
  ghost predicate SameOrExpired(key: string, a: Db, b: Db, cs: seq<Call>, t: Triple) {
    || SameAt(key, a, b)
    || (key !in a && key in b && b[key].expireAt.Some?
        && exists c <- cs :: c.triple != t && c.now > b[key].expireAt.value)
  }

  lemma OwnStep(prefix: string, a: Db, b: Db, cs: seq<Call>, c: Call)
    requires Steady(cs + [c], c.triple) && SameOrExpired(KeyOf(prefix, c.triple), a, b, cs, c.triple)
    ensures SameAt(KeyOf(prefix, c.triple), Live(a, c.now), Live(b, c.now))
  {
    var key := KeyOf(prefix, c.triple);
    if !SameAt(key, a, b) {
      var q :| q in cs && q.triple != c.triple && q.now > b[key].expireAt.value;
      var i :| 0 <= i < |cs| && cs[i] == q;
      assert (cs + [c])[i] == q && (cs + [c])[|cs|] == c;
    }
  }

  lemma ForeignStep(prefix: string, a: Db, b: Db, cs: seq<Call>, c: Call, t: Triple)
    requires c.triple != t && IsHex(c.triple.dimKey) && IsHex(t.dimKey)
    requires SameOrExpired(KeyOf(prefix, t), a, b, cs, t)
    ensures SameOrExpired(KeyOf(prefix, t), ServeCall(prefix, Live(a, c.now), c).db, b, cs + [c], t)
  {
    var key, other, live := KeyOf(prefix, t), KeyOf(prefix, c.triple), Live(a, c.now);
    if other == key {
      KeysAreInjective(prefix, t.algo, t.ruleId, t.dimKey, c.triple.algo, c.triple.ruleId, c.triple.dimKey);
    }
    hide KeyOf, Serve;
    ServeTouchesOneKey(live, c.down, c.triple.algo, c.rule, other, c.now);
    Outside(ServeCall(prefix, live, c).db, live, other, key);
    assert c in cs + [c] && forall q <- cs :: q in cs + [c];
  }

  lemma {:induction false} StoreOfOwn(prefix: string, db: Db, cs: seq<Call>, t: Triple)
    requires Proper(cs) && IsHex(t.dimKey) && Steady(cs, t)
    ensures SameOrExpired(KeyOf(prefix, t), AfterCalls(prefix, db, cs), AfterCalls(prefix, db, Own(cs, t)), cs, t)
  {
    if cs != [] {
      var front, c := Front(cs), Last(cs);
      assert c in cs && cs == front + [c];
      assert Steady(front, t);
      StoreOfOwn(prefix, db, front, t);
      var a, b := AfterCalls(prefix, db, front), AfterCalls(prefix, db, Own(front, t));
      hide KeyOf, ServeCall, Live, SameOrExpired;
      if c.triple == t {
        assert Front(Own(cs, t)) == Own(front, t) && Last(Own(cs, t)) == c;
        OwnStep(prefix, a, b, front, c);
        LocalStep(prefix, Live(a, c.now), Live(b, c.now), cs, c);
      } else {
        assert Own(cs, t) == Own(front, t);
        ForeignStep(prefix, a, b, front, c, t);
      }
    }
  }

  lemma LocalStep(prefix: string, a: Db, b: Db, cs: seq<Call>, c: Call)
    requires SameAt(KeyOf(prefix, c.triple), a, b)
    ensures var x, y := ServeCall(prefix, a, c), ServeCall(prefix, b, c);
      && x.dec == y.dec && x.err == y.err
      && SameOrExpired(KeyOf(prefix, c.triple), x.db, y.db, cs, c.triple)
  {
    ServeIsLocal(a, b, c.down, c.triple.algo, c.rule, KeyOf(prefix, c.triple), c.now);
    hide KeyOf, Serve;
  }

  /** Under such a clock a triple gets the decision it would get if only its own calls had ever been made,
      time standing still between them. */
  lemma AloneIfSteady(prefix: string, db: Db, cs: seq<Call>, c: Call)
    requires Proper(cs + [c]) && Steady(cs + [c], c.triple)
    ensures var mixed, alone := Answer(prefix, db, cs, c), Answer(prefix, db, Own(cs, c.triple), c);
      mixed.dec == alone.dec && mixed.err == alone.err
  {
    var all := cs + [c];
    assert all[|cs|] == c && Front(all) == cs && c in all;
    assert forall q <- cs :: q in all;
    assert Steady(cs, c.triple);
    StoreOfOwn(prefix, db, cs, c.triple);
    var a, b := AfterCalls(prefix, db, cs), AfterCalls(prefix, db, Own(cs, c.triple));
    OwnStep(prefix, a, b, cs, c);
    LocalStep(prefix, Live(a, c.now), Live(b, c.now), cs, c);
    hide *;
  }

  /** What matters is the clock and not who made it pass. A rule of one request per second denies a second
      request half a second after the first; but if Redis has meanwhile seen a clock past the key's expiry,
      two seconds on, the bucket is gone and the request is admitted. */
  lemma TimeShows(prefix: string, t: Triple, rule: Rule, foreign: Call)
    requires t.algo.TokenBucket? && IsHex(t.dimKey) && IsHex(foreign.triple.dimKey) && foreign.triple != t
    requires rule.limit == 1 && rule.windowMs == 1000 && rule.burst == 0 && foreign.now == 2001
    ensures var first, second := Call(t, rule, 0, {}), Call(t, rule, 500, {});
      && Answer(prefix, map[], [], first).dec.allowed
      && !Answer(prefix, map[], [first], second).dec.allowed
      && Answer(prefix, map[], [first, foreign], second).dec.allowed
  {
    var first, second, key := Call(t, rule, 0, {}), Call(t, rule, 500, {}), KeyOf(prefix, t);
    var empty: Db := map[];
    assert |key| >= |prefix| + 1 && Live(empty, 0) == empty && Proper([first, foreign] + [second]);
    hide Serve, KeyOf;
    assert [] + [first] == [first] && [first] + [foreign] == [first, foreign];
    OneMoreCall(prefix, empty, [], first, t);
    OneMoreCall(prefix, empty, [first], foreign, t);
    OnePerSecond(rule, key, AfterCalls(prefix, empty, [first]));
    NonInterference(prefix, empty, [first, foreign], second);
  }

  lemma OneMoreCall(prefix: string, db: Db, cs: seq<Call>, c: Call, t: Triple)
    ensures Answer(prefix, db, [], c) == ServeCall(prefix, Live(db, c.now), c)
    ensures AfterCalls(prefix, db, cs + [c]) == Answer(prefix, db, cs, c).db
    ensures Ticked(prefix, db, [], t) == db
    ensures var live := Live(Ticked(prefix, db, cs, t), c.now);
      Ticked(prefix, db, cs + [c], t) == if c.triple == t then ServeCall(prefix, live, c).db else live
  {
    hide ServeCall, Live;
    assert Front(cs + [c]) == cs;
  }

  lemma OnePerSecond(rule: Rule, key: string, db: Db)
    requires rule.limit == 1 && rule.windowMs == 1000 && rule.burst == 0 && key != ""
    requires db == Serve(map[], {}, TokenBucket, rule, key, 0).db
    ensures Serve(map[], {}, TokenBucket, rule, key, 0).dec.allowed && key in db && db[key].expireAt == Some(2000)
    ensures !Serve(Live(db, 500), {}, TokenBucket, rule, key, 500).dec.allowed
    ensures Serve(Live(Live(db, 2001), 500), {}, TokenBucket, rule, key, 500).dec.allowed
  {
    var m := TokenMeter(rule);
    assert m.rate == 1.0 / 1000.0 && Earned(500, m.rate) == 0.5;
    assert db[key].value == Hash(map["tokens" := 0.0], map["last_refill" := 0]);
    assert key !in Live(Live(db, 2001), 500);
  }
}
