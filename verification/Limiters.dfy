/** The Go side of the limiters: parameter choices, decision mapping, key names and dispatch. */
module Limiters {
  import opened Basics
  import opened Config
  import opened RedisStore
  import opened Text
  import T = TokenBucket
  import L = LeakyBucket
  import S = SlidingWindow
  import Scripts

  datatype Algo = TokenBucket | SlidingWindow | LeakyBucket

  // ---------------------------------------------------------------- parameters

  /** Two's complement 64-bit wrap-around. */
  function Wrap64(x: int): int {
    (x + 0x8000_0000_0000_0000) % 0x1_0000_0000_0000_0000 - 0x8000_0000_0000_0000
  }

  /** Twice the window, or the window itself where doubling it overflows. */
  function TokenTtl(windowMs: int): int {
    var ttl := Wrap64(windowMs * 2);
    if ttl <= 0 then windowMs else ttl
  }

  lemma TokenTtlAtLeastWindow(windowMs: int)
    requires 0 < windowMs < 0x8000_0000_0000_0000
    ensures TokenTtl(windowMs) == if windowMs < 0x4000_0000_0000_0000 then 2 * windowMs else windowMs
  {
  }

  function QueueSize(rule: Rule): int {
    if rule.burst <= 0 then rule.limit else rule.burst
  }

  /** The time a full queue takes to drain, at least a second, plus a second. */
  function LeakyTtl(maxQueue: int, limit: int, windowMs: int): int
    requires limit > 0
  {
    var drain := maxQueue * windowMs / limit;
    (if drain < 1000 then 1000 else drain) + 1000
  }

  /** The floating-point form of the drain time, exactly evaluated, is the integer quotient. */
  lemma DrainTime(maxQueue: int, limit: int, windowMs: int)
    requires limit > 0 && windowMs > 0 && maxQueue > 0
    ensures limit as real / windowMs as real > 0.0
    ensures (maxQueue as real / (limit as real / windowMs as real)).Floor == maxQueue * windowMs / limit
  {
    var rate := limit as real / windowMs as real;
    assert rate * windowMs as real == limit as real;
    assert rate > 0.0;
    var x := maxQueue as real / rate;
    assert x * rate == maxQueue as real;
    assert x * limit as real == maxQueue as real * windowMs as real by {
      assert x * (rate * windowMs as real) == (x * rate) * windowMs as real;
    }
    FloorOfQuotient(x, maxQueue * windowMs, limit);
  }

  lemma FloorOfQuotient(x: real, n: int, d: int)
    requires d > 0 && x * d as real == n as real
    ensures x.Floor == n / d
  {
    var k := n / d;
    assert k * d <= n < (k + 1) * d;
    RealScale(d, k, x);
    RealScale(d, k + 1, x);
  }

  lemma RealScale(d: int, k: int, x: real)
    requires d > 0
    ensures k as real <= x <==> (k * d) as real <= x * d as real
  {
    assert (k * d) as real == k as real * d as real;
    assert (x - k as real) * d as real == x * d as real - k as real * d as real;
  }

  // ---------------------------------------------------------------- one call

  /** A limiter call: the database it leaves, its decision, and the error it returned beside it. */
  datatype Served = Served(db: Db, dec: Decision, err: Option<string>)

  function Failed(db: Db, reason: string, err: string): Served {
    Served(db, Refusal(reason, Some(err)), Some(err))
  }

  function Judged(db: Db, allowed: bool, remaining: int, retryAfterMs: int): Served {
    Served(db, Decision(allowed, remaining, retryAfterMs, if allowed then "allowed" else "rate_limited", None), None)
  }

  predicate Runs(rule: Rule) {
    rule.windowMs > 0 && rule.limit > 0
  }

  function TokenMeter(rule: Rule): T.Meter
    requires Runs(rule)
  {
    Scripts.MeterOf(rule.limit, rule.windowMs, rule.burst)
  }

  function LeakyDrain(rule: Rule): L.Drain
    requires Runs(rule)
  {
    L.Drain(QueueSize(rule) as real, rule.limit as real / rule.windowMs as real, None)
  }

  function SlidingSpan(rule: Rule): S.Window {
    S.Window(rule.windowMs, rule.limit, None)
  }

  /** What one call of a limiter does to the database and decides, for every input. */
  ghost function Serve(db: Db, down: set<string>, algo: Algo, rule: Rule, key: string, now: int): Served {
    if !Runs(rule) then Failed(db, "invalid_rule", "invalid rule")
    else if key == "" then Failed(db, "empty_key", "empty key")
    else if key in down then Failed(db, "limiter_eval_failed", UNAVAILABLE)
    else if !Typed(db, algo, key, now) then Failed(db, "limiter_eval_failed", WRONG_TYPE)
    else
      match algo
      case TokenBucket => ServeToken(db, rule, key, now)
      case LeakyBucket => ServeLeaky(db, rule, key, now)
      case SlidingWindow => ServeSliding(db, rule, key, now)
  }

  predicate Typed(db: Db, algo: Algo, key: string, now: int) {
    if algo.SlidingWindow? then ScoresOrMissing(db, key, now) else HashOrMissing(db, key, now)
  }

  ghost function ServeToken(db: Db, rule: Rule, key: string, now: int): Served
    requires Runs(rule)
  {
    Scripts.MeterOfIsValid(rule.limit, rule.windowMs, rule.burst);
    var m, h := TokenMeter(rule), HashAt(db, key, now);
    var b := Scripts.BucketIn(h);
    var reply := m.Respond(b, now);
    Judged(db[key := Entry(Scripts.WithBucket(h, m.Take(b, now)), Some(now + TokenTtl(rule.windowMs)))],
           reply.allowed, reply.remaining, if reply.resetMs > now then reply.resetMs - now else 0)
  }

  ghost function ServeLeaky(db: Db, rule: Rule, key: string, now: int): Served
    requires Runs(rule)
  {
    var d, h := LeakyDrain(rule), HashAt(db, key, now);
    var q := Some(Scripts.QueueIn(h, now));
    var reply := d.Respond(q, now);
    Judged(db[key := Entry(Scripts.WithQueue(h, d.Offer(q, now)),
                           Some(now + LeakyTtl(QueueSize(rule), rule.limit, rule.windowMs)))],
           reply.allowed, reply.remaining, 0)
  }

  ghost function ServeSliding(db: Db, rule: Rule, key: string, now: int): Served
    requires Runs(rule)
  {
    var w := SlidingSpan(rule);
    var z := Some(S.Log(ScoresAt(db, key, now), now));
    var reply := w.Respond(z, now);
    Judged(db[key := Entry(Scores(w.Offer(z, now).members), Some(now + (rule.windowMs + 1000)))],
           reply.allowed, reply.remaining, 0)
  }

  method TokenBucketAllow(redis: Redis, rule: Rule, key: string, now: int)
    returns (dec: Decision, err: Option<string>)
    modifies redis`db
    ensures Served(redis.db, dec, err) == Serve(old(redis.db), redis.down, TokenBucket, rule, key, now)
  {
    if rule.windowMs <= 0 || rule.limit <= 0 {
      return Refusal("invalid_rule", Some("invalid rule")), Some("invalid rule");
    }
    if key == "" {
      return Refusal("empty_key", Some("empty key")), Some("empty key");
    }
    var ttlMs := Wrap64(rule.windowMs * 2);
    if ttlMs <= 0 {
      ttlMs := rule.windowMs;
    }
    var res := Scripts.TokenBucketScript(redis, key, rule.limit, rule.windowMs, rule.burst, now, ttlMs);
    if res.Err? {
      return Refusal("limiter_eval_failed", Some(res.error)), Some(res.error);
    }
    dec := Decision(res.value.allowed, res.value.remaining, 0, "allowed", None);
    if !dec.allowed {
      dec := dec.(reason := "rate_limited");
    }
    if res.value.resetMs > now {
      dec := dec.(retryAfterMs := res.value.resetMs - now);
    }
    err := None;
  }

  method LeakyBucketAllow(redis: Redis, rule: Rule, key: string, now: int)
    returns (dec: Decision, err: Option<string>)
    modifies redis`db
    ensures Served(redis.db, dec, err) == Serve(old(redis.db), redis.down, LeakyBucket, rule, key, now)
  {
    if rule.windowMs <= 0 || rule.limit <= 0 {
      return Refusal("invalid_rule", Some("invalid rule")), Some("invalid rule");
    }
    if key == "" {
      return Refusal("empty_key", Some("empty key")), Some("empty key");
    }
    var maxQueue := rule.burst;
    if maxQueue <= 0 {
      maxQueue := rule.limit;
    }
    var ratePerMs := rule.limit as real / rule.windowMs as real;
    DrainTime(maxQueue, rule.limit, rule.windowMs);
    var ttlMs := (maxQueue as real / ratePerMs).Floor;
    if ttlMs < 1000 {
      ttlMs := 1000;
    }
    ttlMs := ttlMs + 1000;
    var res := Scripts.LeakyScript(redis, key, ratePerMs, now, maxQueue, ttlMs);
    if res.Err? {
      return Refusal("limiter_eval_failed", Some(res.error)), Some(res.error);
    }
    dec := Decision(res.value.allowed, res.value.remaining, 0, "allowed", None);
    if !dec.allowed {
      dec := dec.(reason := "rate_limited");
    }
    err := None;
  }

  method SlidingWindowAllow(redis: Redis, rule: Rule, key: string, now: int)
    returns (dec: Decision, err: Option<string>)
    modifies redis`db
    ensures Served(redis.db, dec, err) == Serve(old(redis.db), redis.down, SlidingWindow, rule, key, now)
  {
    if rule.windowMs <= 0 || rule.limit <= 0 {
      return Refusal("invalid_rule", Some("invalid rule")), Some("invalid rule");
    }
    if key == "" {
      return Refusal("empty_key", Some("empty key")), Some("empty key");
    }
    var res := Scripts.SlidingScript(redis, key, now, rule.windowMs, rule.limit);
    if res.Err? {
      return Refusal("limiter_eval_failed", Some(res.error)), Some(res.error);
    }
    dec := Decision(res.value.allowed, res.value.remaining, 0, "allowed", None);
    if !dec.allowed {
      dec := dec.(reason := "rate_limited");
    }
    err := None;
  }

  // ---------------------------------------------------------------- dispatch

  function NormalizeAlgo(algo: string): string {
    ToLower(TrimSpace(algo))
  }

  /** The name a mux looks a rule's algorithm up under, and the limiter it finds there. */
  function NameFor(defaultAlgo: string, algo: string): string {
    if NormalizeAlgo(algo) == "" then defaultAlgo else NormalizeAlgo(algo)
  }

  function Route(limiters: map<string, Algo>, defaultAlgo: string, algo: string): Option<Algo> {
    var name := NameFor(defaultAlgo, algo);
    if name in limiters then Some(limiters[name]) else None
  }

  /** A call through a mux with these limiters. */
  ghost function ServeBy(limiters: map<string, Algo>, defaultAlgo: string, db: Db, down: set<string>,
                         rule: Rule, key: string, now: int): Served {
    match Route(limiters, defaultAlgo, rule.algo)
    case None =>
      Served(db, Refusal("unsupported_algorithm", None),
             Some("unsupported algorithm: " + NameFor(defaultAlgo, rule.algo)))
    case Some(algo) => Serve(db, down, algo, rule, key, now)
  }

  /** `Mux`. The constructor normalizes a copy of the map's keys and then stores the map it was given. */
  class Mux {
    const defaultAlgo: string
    const limiters: map<string, Algo>

    constructor (defaultAlgo: string, limiters: map<string, Algo>)
      requires limiters != map[]
      ensures this.limiters == limiters
      ensures this.defaultAlgo == NormalizeAlgo(if TrimSpace(defaultAlgo) == "" then "token_bucket" else defaultAlgo)
    {
      this.limiters := limiters;
      this.defaultAlgo := NormalizeAlgo(if TrimSpace(defaultAlgo) == "" then "token_bucket" else defaultAlgo);
    }

    method Allow(redis: Redis, rule: Rule, key: string, now: int) returns (dec: Decision, err: Option<string>)
      modifies redis`db
      ensures Served(redis.db, dec, err)
           == ServeBy(limiters, defaultAlgo, old(redis.db), redis.down, rule, key, now)
    {
      var algo := NormalizeAlgo(rule.algo);
      if algo == "" {
        algo := defaultAlgo;
      }
      if algo !in limiters {
        return Refusal("unsupported_algorithm", None), Some("unsupported algorithm: " + algo);
      }
      hide NormalizeAlgo, Serve;
      match limiters[algo]
      case TokenBucket => dec, err := TokenBucketAllow(redis, rule, key, now);
      case SlidingWindow => dec, err := SlidingWindowAllow(redis, rule, key, now);
      case LeakyBucket => dec, err := LeakyBucketAllow(redis, rule, key, now);
    }
  }

  /** Every spelling of a name finds the limiter registered under it. */
  ghost predicate Findable(limiters: map<string, Algo>, defaultAlgo: string, name: string)
    requires name in limiters
  {
    forall algo | NormalizeAlgo(algo) == NormalizeAlgo(name) ::
      Route(limiters, defaultAlgo, algo) == Some(limiters[name])
  }

  /** The normalized spelling of a name is registered for the same limiter. */
  predicate Normalized(limiters: map<string, Algo>, name: string)
    requires name in limiters
  {
    NormalizeAlgo(name) in limiters && limiters[NormalizeAlgo(name)] == limiters[name]
  }

  /** Rules find the registered limiters, in any letter case, if and only if every name's normalized
      spelling is registered too, and for the same limiter: the normalized copy is never looked at. */
  lemma FoundIffNormalized(limiters: map<string, Algo>, defaultAlgo: string)
    ensures (forall name <- limiters | NormalizeAlgo(name) != "" :: Findable(limiters, defaultAlgo, name))
       <==> (forall name <- limiters | NormalizeAlgo(name) != "" :: Normalized(limiters, name))
  {
    hide NormalizeAlgo;
    forall name <- limiters | NormalizeAlgo(name) != ""
      ensures Findable(limiters, defaultAlgo, name) <==> Normalized(limiters, name)
    {
      if Findable(limiters, defaultAlgo, name) {
        assert Route(limiters, defaultAlgo, name) == Some(limiters[name]);
      }
    }
  }

  /** A limiter registered in mixed case is found under no spelling at all. */
  lemma MixedCaseIsLost(defaultAlgo: string, algo: string)
    requires NormalizeAlgo(algo) == NormalizeAlgo("Token_Bucket")
    ensures Route(map["Token_Bucket" := TokenBucket], defaultAlgo, algo) == None
  {
    assert TrimSpace("Token_Bucket") == "Token_Bucket";
    assert NormalizeAlgo("Token_Bucket")[0] == 't';
  }

  // ---------------------------------------------------------------- keys

  function Tag(algo: Algo): string {
    match algo
    case TokenBucket => "tb"
    case SlidingWindow => "sw"
    case LeakyBucket => "lb"
  }

  /** `KeyTB`, `KeySW` and `KeyLB`. */
  function LimiterKey(prefix: string, algo: Algo, ruleId: string, dimKey: string): string {
    prefix + ":" + Tag(algo) + ":{" + ruleId + "}:" + dimKey
  }

  /** The dimension hash is printed in hexadecimal. */
  predicate IsHex(s: string) {
    forall c <- s :: '0' <= c <= '9' || 'a' <= c <= 'f'
  }

  /** The last colon of a key marks where the hash begins. */
  lemma ColonBeforeHash(r1: string, d1: string, r2: string, d2: string)
    requires IsHex(d2) && |d1| < |d2|
    ensures r1 + "}:" + d1 != r2 + "}:" + d2
  {
    var s1, s2 := r1 + "}:" + d1, r2 + "}:" + d2;
    if |s1| == |s2| {
      var i := |s1| - |d1| - 1;
      assert s1[i] == ':';
      assert s2[i] == d2[i - |r2| - 2];
      assert d2[i - |r2| - 2] in d2;
    }
  }

  lemma SplitAtLastColon(r1: string, d1: string, r2: string, d2: string)
    requires IsHex(d1) && IsHex(d2)
    requires r1 + "}:" + d1 == r2 + "}:" + d2
    ensures r1 == r2 && d1 == d2
  {
    var s1, s2 := r1 + "}:" + d1, r2 + "}:" + d2;
    if |d1| < |d2| {
      ColonBeforeHash(r1, d1, r2, d2);
    } else if |d2| < |d1| {
      ColonBeforeHash(r2, d2, r1, d1);
    } else {
      assert r1 == s1[..|r1|] && r2 == s2[..|r2|];
      assert d1 == s1[|r1| + 2..] && d2 == s2[|r2| + 2..];
    }
  }

  /** No two triples share a key, whatever characters the rule names contain. */
  lemma KeysAreInjective(prefix: string, a1: Algo, r1: string, d1: string, a2: Algo, r2: string, d2: string)
    requires IsHex(d1) && IsHex(d2)
    requires LimiterKey(prefix, a1, r1, d1) == LimiterKey(prefix, a2, r2, d2)
    ensures a1 == a2 && r1 == r2 && d1 == d2
  {
    var k1, k2 := LimiterKey(prefix, a1, r1, d1), LimiterKey(prefix, a2, r2, d2);
    var n := |prefix|;
    assert k1[n + 1] == Tag(a1)[0] && k2[n + 1] == Tag(a2)[0];
    assert a1 == a2;
    assert r1 + "}:" + d1 == k1[n + 5..];
    assert r2 + "}:" + d2 == k2[n + 5..];
    SplitAtLastColon(r1, d1, r2, d2);
  }
}
