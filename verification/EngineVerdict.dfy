/** What the engine's loop over the rules amounts to, independent of the order of the rules. */
module EngineVerdict {
  import opened Basics
  import opened Config
  import opened RedisStore
  import opened Engine
  import Limiters
  import LimiterRuns
  import IPList

  /** What a rule says about a request, judged on a given store. */
  datatype Ruling = Erred | Denied | Passed(remaining: int)

  function RulingOf(o: Outcome): Ruling {
    if o.err.Some? then Erred else if o.dec.allowed then Passed(o.dec.remaining) else Denied
  }

  ghost function RulingOn(env: Env, db: Db, rule: Rule): Ruling {
    RulingOf(ChargeRule(env, World(db, map[]), rule))
  }

  /** A rule lets the request through: it allows it, or it fails under fail-open. */
  ghost predicate LetsThrough(env: Env, db: Db, rule: Rule) {
    var r := RulingOn(env, db, rule);
    r.Passed? || (r.Erred? && env.failOpen)
  }

  /** The list cache works with the engine's own prefix, as the constructor arranges. */
  ghost predicate Consistent(env: Env) {
    env.settings.Valid() && env.settings.prefix == env.prefix
  }

  ghost predicate Keyed(env: Env, rule: Rule) {
    rule.enabled && RuleKey(env, rule).Some?
  }

  /** No two enabled rules of the list charge the same key. */
  ghost predicate KeysDistinct(env: Env, rules: seq<Rule>) {
    && (forall r <- rules | Keyed(env, r) :: multiset(rules)[r] == 1)
    && (forall r <- rules, q <- rules | Keyed(env, r) && Keyed(env, q) && r != q :: RuleKey(env, r) != RuleKey(env, q))
  }

  /** Distinct rule names are enough, as long as dimension hashes are hexadecimal. */
  lemma DistinctNamesSuffice(env: Env, rules: seq<Rule>)
    requires forall text :: Limiters.IsHex(env.hash(text))
    requires forall i, j | 0 <= i < j < |rules| :: rules[i].ruleId != rules[j].ruleId
    ensures KeysDistinct(env, rules)
  {
    forall r <- rules ensures multiset(rules)[r] == 1 {
      var i :| 0 <= i < |rules| && rules[i] == r;
      assert rules == rules[..i] + [r] + rules[i + 1..];
      assert r !in rules[..i] && r !in rules[i + 1..];
    }
    forall r <- rules, q <- rules | Keyed(env, r) && Keyed(env, q) && r != q
      ensures RuleKey(env, r) != RuleKey(env, q)
    {
      if RuleKey(env, r) == RuleKey(env, q) {
        Limiters.KeysAreInjective(env.prefix,
          LimiterRuns.EngineAlgo(r.algo).value, r.ruleId, DimKey(env, r),
          LimiterRuns.EngineAlgo(q.algo).value, q.ruleId, DimKey(env, q));
      }
    }
  }

  // ---------------------------------------------------------------- one rule

  lemma LimiterKeysStandApart(prefix: string, algo: Limiters.Algo, ruleId: string, dimKey: string, ip: string)
    ensures Limiters.LimiterKey(prefix, algo, ruleId, dimKey) != IPList.KeyHot(prefix, ip)
    ensures Limiters.LimiterKey(prefix, algo, ruleId, dimKey) != IPList.KeyBan(prefix, ip)
  {
    var n, key := |prefix|, Limiters.LimiterKey(prefix, algo, ruleId, dimKey);
    assert key[n + 1] == Limiters.Tag(algo)[0];
    assert IPList.KeyHot(prefix, ip)[n + 1] == 'h' && IPList.KeyBan(prefix, ip)[n + 1] == 'b';
  }

  /** Counting a denial and banning an address leave every limiter key alone. */
  lemma DenialTouchesNoLimiter(env: Env, cache: IPList.LocalCache, db: Db, rule: Rule, key: string)
    requires RuleKey(env, rule) == Some(key) && Consistent(env)
    ensures
      LimiterRuns.SameAt(key, IPList.Record(env.settings, cache, db, env.down, env.Ip(), env.now).db, db)
  {
    var algo, dimKey := LimiterRuns.EngineAlgo(rule.algo).value, DimKey(env, rule);
    LimiterKeysStandApart(env.prefix, algo, rule.ruleId, dimKey, env.Ip());
    hide IPList.KeyHot, IPList.KeyBan, IPList.TempKey, RuleKey;
  }

  /** The limiter call behind a rule whose key is known. */
  ghost function ServeRule(env: Env, db: Db, rule: Rule): Limiters.Served
    requires RuleKey(env, rule).Some?
  {
    Limiters.ServeBy(env.limiters, env.defaultAlgo, db, env.down, rule, RuleKey(env, rule).value, env.now)
  }

  lemma RuleCallIsLocal(env: Env, a: Db, b: Db, rule: Rule)
    requires RuleKey(env, rule).Some? && LimiterRuns.SameAt(RuleKey(env, rule).value, a, b)
    ensures var x, y := ServeRule(env, a, rule), ServeRule(env, b, rule);
      x.dec == y.dec && x.err == y.err && LimiterRuns.SameAt(RuleKey(env, rule).value, x.db, y.db)
  {
    hide Limiters.Serve, RuleKey;
    var route := Limiters.Route(env.limiters, env.defaultAlgo, rule.algo);
    if route.Some? {
      LimiterRuns.ServeIsLocal(a, b, env.down, route.value, rule, RuleKey(env, rule).value, env.now);
    }
  }

  lemma RuleCallTouchesOneKey(env: Env, db: Db, rule: Rule)
    requires RuleKey(env, rule).Some?
    ensures ServeRule(env, db, rule).db - {RuleKey(env, rule).value} == db - {RuleKey(env, rule).value}
  {
    hide Limiters.Serve, RuleKey;
    var route := Limiters.Route(env.limiters, env.defaultAlgo, rule.algo);
    if route.Some? {
      LimiterRuns.ServeTouchesOneKey(db, env.down, route.value, rule, RuleKey(env, rule).value, env.now);
    }
  }

  ghost predicate Reaches(env: Env, rule: Rule) {
    env.connected && RuleKey(env, rule).Some?
  }

  /** A rule that reaches its limiter reports what the limiter said and leaves what it left. */
  lemma ChargeShape(env: Env, w: World, rule: Rule)
    requires Consistent(env) && Reaches(env, rule)
    ensures var o, served := ChargeRule(env, w, rule), ServeRule(env, w.db, rule);
      && o.err == served.err && o.dec.allowed == served.dec.allowed && o.dec.remaining == served.dec.remaining
      && (o.err.None? ==> o.dec == served.dec)
      && LimiterRuns.SameAt(RuleKey(env, rule).value, o.world.db, served.db)
  {
    var served := ServeRule(env, w.db, rule);
    DenialTouchesNoLimiter(env, w.cache, served.db, rule, RuleKey(env, rule).value);
    hide Limiters.ServeBy, IPList.Record;
  }

  /** A rule that does not reach its limiter fails, whatever the store, and leaves it alone. */
  lemma UnreachedFails(env: Env, w: World, rule: Rule)
    requires !Reaches(env, rule)
    ensures ChargeRule(env, w, rule).err.Some? && ChargeRule(env, w, rule).world == w
  {
  }

  /** A rule looks at its own key only: neither the list cache nor the other keys matter to it. */
  lemma RulingIsLocal(env: Env, w: World, db: Db, rule: Rule)
    requires Consistent(env)
    requires RuleKey(env, rule).Some? ==> LimiterRuns.SameAt(RuleKey(env, rule).value, w.db, db)
    ensures var o := ChargeRule(env, w, rule);
      && RulingOn(env, db, rule) == RulingOf(o)
      && ChargeRule(env, World(db, map[]), rule).err == o.err
      && (o.err.None? ==> ChargeRule(env, World(db, map[]), rule).dec == o.dec)
      && (RuleKey(env, rule).Some? ==>
            LimiterRuns.SameAt(RuleKey(env, rule).value, o.world.db, ChargeRule(env, World(db, map[]), rule).world.db))
  {
    if Reaches(env, rule) {
      ChargeShape(env, w, rule);
      ChargeShape(env, World(db, map[]), rule);
      RuleCallIsLocal(env, w.db, db, rule);
      hide ChargeRule, ServeRule, RuleKey;
    } else {
      UnreachedFails(env, w, rule);
      UnreachedFails(env, World(db, map[]), rule);
    }
  }

  /** Charging a rule changes no other rule's key. */
  lemma ChargeLeavesOthers(env: Env, w: World, rule: Rule, other: Rule)
    requires Consistent(env) && RuleKey(env, other).Some? && RuleKey(env, rule) != RuleKey(env, other)
    ensures LimiterRuns.SameAt(RuleKey(env, other).value, ChargeRule(env, w, rule).world.db, w.db)
  {
    if Reaches(env, rule) {
      var key := RuleKey(env, rule).value;
      RuleCallTouchesOneKey(env, w.db, rule);
      var db := ServeRule(env, w.db, rule).db;
      DenialTouchesNoLimiter(env, w.cache, db, other, RuleKey(env, other).value);
      hide Limiters.ServeBy, IPList.Record, RuleKey;
      LimiterRuns.Outside(db, w.db, key, RuleKey(env, other).value);
    } else {
      UnreachedFails(env, w, rule);
    }
  }

  // ---------------------------------------------------------------- all the rules

  lemma TailDistinct(env: Env, rules: seq<Rule>)
    requires rules != [] && KeysDistinct(env, rules)
    ensures KeysDistinct(env, rules[1..])
    ensures forall r <- rules[1..] | Keyed(env, r) && Keyed(env, rules[0]) :: RuleKey(env, r) != RuleKey(env, rules[0])
  {
    var head, tail := rules[0], rules[1..];
    assert rules == [head] + tail;
    assert multiset(rules) == multiset{head} + multiset(tail);
    forall r <- tail | Keyed(env, r)
      ensures multiset(tail)[r] == 1 && (Keyed(env, head) ==> RuleKey(env, r) != RuleKey(env, head))
    {
      assert r in rules && head in rules;
    }
    forall r <- tail, q <- tail | Keyed(env, r) && Keyed(env, q) && r != q
      ensures RuleKey(env, r) != RuleKey(env, q)
    {
      assert r in rules && q in rules;
    }
  }

  /** The keys of these rules still hold what they held in `db`. */
  ghost predicate Untouched(env: Env, w: World, db: Db, rules: seq<Rule>) {
    forall r <- rules | Keyed(env, r) :: LimiterRuns.SameAt(RuleKey(env, r).value, w.db, db)
  }

  lemma StillUntouched(env: Env, w: World, db: Db, rules: seq<Rule>)
    requires Consistent(env) && rules != [] && rules[0].enabled
    requires KeysDistinct(env, rules) && Untouched(env, w, db, rules)
    ensures KeysDistinct(env, rules[1..])
    ensures Untouched(env, ChargeRule(env, w, rules[0]).world, db, rules[1..])
  {
    TailDistinct(env, rules);
    hide ChargeRule, RuleKey;
    forall r <- rules[1..] | Keyed(env, r)
      ensures LimiterRuns.SameAt(RuleKey(env, r).value, ChargeRule(env, w, rules[0]).world.db, db)
    {
      assert r in rules;
      ChargeLeavesOthers(env, w, rules[0], r);
    }
  }

  lemma SkipUntouched(env: Env, w: World, db: Db, rules: seq<Rule>)
    requires rules != [] && KeysDistinct(env, rules) && Untouched(env, w, db, rules)
    ensures KeysDistinct(env, rules[1..]) && Untouched(env, w, db, rules[1..])
  {
    TailDistinct(env, rules);
    assert forall r <- rules[1..] :: r in rules;
  }

  /** The tally of rulings all judged on one store. */
  ghost function Gathered(env: Env, db: Db, rules: seq<Rule>, t: Tally): Tally {
    if rules == [] then t
    else
      var rest := rules[1..];
      if !rules[0].enabled then Gathered(env, db, rest, t)
      else
        match RulingOn(env, db, rules[0])
        case Erred => Gathered(env, db, rest, t.(anyError := true, anyRule := true))
        case Passed(x) => Gathered(env, db, rest, Note(t, x))
        case Denied => t
  }

  ghost predicate AllLetThrough(env: Env, db: Db, rules: seq<Rule>) {
    forall r <- rules | r.enabled :: LetsThrough(env, db, r)
  }

  lemma HeadAndTail(env: Env, db: Db, rules: seq<Rule>)
    requires rules != []
    ensures AllLetThrough(env, db, rules) <==>
      (rules[0].enabled ==> LetsThrough(env, db, rules[0])) && AllLetThrough(env, db, rules[1..])
  {
    hide LetsThrough;
    assert rules == [rules[0]] + rules[1..] && (forall r :: r in rules <==> r == rules[0] || r in rules[1..]);
  }

  lemma HeadUntouched(env: Env, w: World, db: Db, rules: seq<Rule>)
    requires rules != [] && rules[0].enabled && Untouched(env, w, db, rules)
    ensures RuleKey(env, rules[0]).Some? ==> LimiterRuns.SameAt(RuleKey(env, rules[0]).value, w.db, db)
  {
    hide RuleKey;
    assert RuleKey(env, rules[0]).Some? ==> Keyed(env, rules[0]);
  }

  lemma LetsThroughIf(env: Env, db: Db, rule: Rule)
    ensures LetsThrough(env, db, rule) <==>
      RulingOn(env, db, rule).Passed? || (RulingOn(env, db, rule).Erred? && env.failOpen)
  {
  }

  /** The loop decides as if every rule were judged on the store the request found. */
  lemma {:induction false} LoopVerdict(env: Env, w: World, db: Db, rules: seq<Rule>, t: Tally, only: bool)
    requires Consistent(env) && KeysDistinct(env, rules) && Untouched(env, w, db, rules)
    requires only ==> |rules| <= 1
    ensures var o := ChargeRules(env, w, rules, t, only);
      && (o.dec.allowed <==> AllLetThrough(env, db, rules) && !(only && rules != [] && !rules[0].enabled))
      && (o.dec.allowed ==> o.dec == Conclude(env, Gathered(env, db, rules, t)))
    decreases |rules|
  {
    hide ChargeRule, RuleKey, RulingOn, KeysDistinct, Untouched, Consistent, LetsThrough;
    if rules != [] {
      var head, tail := rules[0], rules[1..];
      HeadAndTail(env, db, rules);
      if head.enabled {
        HeadUntouched(env, w, db, rules);
        RulingIsLocal(env, w, db, head);
        StillUntouched(env, w, db, rules);
        LetsThroughIf(env, db, head);
        var o := ChargeRule(env, w, head);
        if o.err.Some? {
          LoopVerdict(env, o.world, db, tail, t.(anyError := true, anyRule := true), only);
        } else if o.dec.allowed {
          LoopVerdict(env, o.world, db, tail, Note(t, o.dec.remaining), only);
        }
      } else if !only {
        SkipUntouched(env, w, db, rules);
        LoopVerdict(env, w, db, tail, t, only);
      }
    }
    hide AllLetThrough;
  }

  lemma {:induction false} LoopLeavesOthers(env: Env, w: World, rules: seq<Rule>, t: Tally, only: bool, other: Rule)
    requires Consistent(env) && RuleKey(env, other).Some?
    requires forall r <- rules | r.enabled :: RuleKey(env, r) != RuleKey(env, other)
    ensures LimiterRuns.SameAt(RuleKey(env, other).value, ChargeRules(env, w, rules, t, only).world.db, w.db)
    decreases |rules|
  {
    hide ChargeRule, RuleKey;
    if rules != [] {
      var head, tail := rules[0], rules[1..];
      assert rules == [head] + tail && (forall r :: r in rules <==> r == head || r in tail);
      if head.enabled {
        ChargeLeavesOthers(env, w, head, other);
        var o := ChargeRule(env, w, head);
        LoopLeavesOthers(env, o.world, tail, t.(anyError := true, anyRule := true), only, other);
        LoopLeavesOthers(env, o.world, tail, Note(t, o.dec.remaining), only, other);
      } else {
        LoopLeavesOthers(env, w, tail, t, only, other);
      }
    }
  }

  /** The key of rule `i` holds what one charge leaves if every enabled rule before it let the request
      through, and what it held before otherwise. */
  ghost predicate ChargedInTurn(env: Env, after: Db, db: Db, rules: seq<Rule>, i: nat)
    requires i < |rules| && RuleKey(env, rules[i]).Some?
  {
    LimiterRuns.SameAt(RuleKey(env, rules[i]).value, after,
      if AllLetThrough(env, db, rules[..i]) then ChargeRule(env, World(db, map[]), rules[i]).world.db else db)
  }

  lemma FirstCharge(env: Env, w: World, db: Db, rules: seq<Rule>, t: Tally, only: bool)
    requires Consistent(env) && KeysDistinct(env, rules) && Untouched(env, w, db, rules)
    requires rules != [] && Keyed(env, rules[0])
    ensures ChargedInTurn(env, ChargeRules(env, w, rules, t, only).world.db, db, rules, 0)
  {
    var head, tail := rules[0], rules[1..];
    TailDistinct(env, rules);
    RulingIsLocal(env, w, db, head);
    hide ChargeRule, RuleKey, RulingOn, KeysDistinct;
    forall r <- tail | r.enabled ensures RuleKey(env, r) != RuleKey(env, head) {
      assert RuleKey(env, r).Some? ==> Keyed(env, r);
    }
    var o := ChargeRule(env, w, head);
    LoopLeavesOthers(env, o.world, tail, t.(anyError := true, anyRule := true), only, head);
    LoopLeavesOthers(env, o.world, tail, Note(t, o.dec.remaining), only, head);
  }

  lemma PrefixLetsThrough(env: Env, db: Db, rules: seq<Rule>, i: nat)
    requires 0 < i <= |rules|
    ensures AllLetThrough(env, db, rules[..i]) <==>
      (rules[0].enabled ==> LetsThrough(env, db, rules[0])) && AllLetThrough(env, db, rules[1..][..i - 1])
  {
    hide LetsThrough;
    assert rules[..i] == [rules[0]] + rules[1..][..i - 1];
    assert forall r :: r in rules[..i] <==> r == rules[0] || r in rules[1..][..i - 1];
  }

  lemma ChargedLater(env: Env, after: Db, db: Db, rules: seq<Rule>, i: nat)
    requires 0 < i < |rules| && RuleKey(env, rules[i]).Some?
    ensures rules[1..][i - 1] == rules[i]
    ensures !rules[0].enabled || LetsThrough(env, db, rules[0]) ==>
      (ChargedInTurn(env, after, db, rules, i) <==> ChargedInTurn(env, after, db, rules[1..], i - 1))
    ensures rules[0].enabled && !LetsThrough(env, db, rules[0]) ==>
      (ChargedInTurn(env, after, db, rules, i) <==> LimiterRuns.SameAt(RuleKey(env, rules[i]).value, after, db))
  {
    hide ChargeRule, RuleKey, RulingOn, AllLetThrough;
    PrefixLetsThrough(env, db, rules, i);
  }

  lemma LaterStands(env: Env, w: World, db: Db, rules: seq<Rule>, i: nat)
    requires KeysDistinct(env, rules) && Untouched(env, w, db, rules)
    requires 0 < i < |rules| && Keyed(env, rules[i])
    ensures rules[0].enabled ==> RuleKey(env, rules[0]) != RuleKey(env, rules[i])
    ensures LimiterRuns.SameAt(RuleKey(env, rules[i]).value, w.db, db)
  {
    TailDistinct(env, rules);
    hide RuleKey;
    assert rules[i] == rules[1..][i - 1];
    assert rules[0].enabled && RuleKey(env, rules[0]).Some? ==> Keyed(env, rules[0]);
  }

  /** Exactly the enabled rules up to and including the first stop are charged, each once. */
  lemma {:induction false} LoopCharges(env: Env, w: World, db: Db, rules: seq<Rule>, t: Tally, only: bool, i: nat)
    requires Consistent(env) && KeysDistinct(env, rules) && Untouched(env, w, db, rules)
    requires only ==> |rules| <= 1
    requires i < |rules| && Keyed(env, rules[i])
    ensures ChargedInTurn(env, ChargeRules(env, w, rules, t, only).world.db, db, rules, i)
    decreases |rules|
  {
    hide ChargeRule, RuleKey, RulingOn, KeysDistinct, Untouched, Consistent, LetsThrough, ChargedInTurn;
    if i == 0 {
      FirstCharge(env, w, db, rules, t, only);
    } else {
      var head, tail := rules[0], rules[1..];
      ChargedLater(env, ChargeRules(env, w, rules, t, only).world.db, db, rules, i);
      SkipUntouched(env, w, db, rules);
      LaterStands(env, w, db, rules, i);
      if head.enabled {
        HeadUntouched(env, w, db, rules);
        RulingIsLocal(env, w, db, head);
        StillUntouched(env, w, db, rules);
        LetsThroughIf(env, db, head);
        ChargeLeavesOthers(env, w, head, rules[i]);
        var o := ChargeRule(env, w, head);
        if o.err.Some? && env.failOpen {
          LoopCharges(env, o.world, db, tail, t.(anyError := true, anyRule := true), only, i - 1);
        } else if o.err.None? && o.dec.allowed {
          LoopCharges(env, o.world, db, tail, Note(t, o.dec.remaining), only, i - 1);
        }
      } else {
        LoopCharges(env, w, db, tail, t, only, i - 1);
      }
    }
  }

  /** What a tally gathered over rules that all let the request through says about them. */
  ghost predicate Sums(env: Env, db: Db, rules: seq<Rule>, t: Tally, g: Tally) {
    && (g.anyRule <==> t.anyRule || exists r <- rules :: r.enabled)
    && (g.anyError <==> t.anyError || exists r <- rules :: r.enabled && RulingOn(env, db, r).Erred?)
    && (forall r <- rules | r.enabled && Left(env, db, r) >= 0 :: g.least.Some? && g.least.value <= Left(env, db, r))
    && (t.least.Some? ==> g.least.Some? && g.least.value <= t.least.value)
    && (g.least.Some? ==>
          g.least == t.least || exists r <- rules :: r.enabled && Left(env, db, r) == g.least.value >= 0)
  }

  /** The remaining quota a passed rule reports, or -1. */
  ghost function Left(env: Env, db: Db, rule: Rule): int {
    match RulingOn(env, db, rule)
    case Passed(x) => if x >= 0 then x else -1
    case _ => -1
  }

  /** The tally after one more rule that lets the request through. */
  ghost function Noted(env: Env, db: Db, rule: Rule, t: Tally): Tally {
    if !rule.enabled then t
    else match RulingOn(env, db, rule)
      case Passed(x) => Note(t, x)
      case _ => t.(anyError := true, anyRule := true)
  }

  lemma SumsGrow(env: Env, db: Db, rules: seq<Rule>, t: Tally, g: Tally)
    requires rules != [] && (rules[0].enabled ==> LetsThrough(env, db, rules[0]))
    requires Sums(env, db, rules[1..], Noted(env, db, rules[0], t), g)
    ensures Sums(env, db, rules, t, g)
  {
    hide RulingOn;
    var head, tail := rules[0], rules[1..];
    assert rules == [head] + tail && (forall r :: r in rules <==> r == head || r in tail);
  }

  lemma {:induction false} GatheredSums(env: Env, db: Db, rules: seq<Rule>, t: Tally)
    requires AllLetThrough(env, db, rules)
    ensures Sums(env, db, rules, t, Gathered(env, db, rules, t))
    decreases |rules|
  {
    hide RulingOn;
    if rules != [] {
      HeadAndTail(env, db, rules);
      GatheredSums(env, db, rules[1..], Noted(env, db, rules[0], t));
      SumsGrow(env, db, rules, t, Gathered(env, db, rules, t));
      hide Sums, AllLetThrough;
    }
  }

  // ---------------------------------------------------------------- the request

  /** The lists leave the request to the rules: it has no address, or they do not decide about it, or they
      cannot be reached and the policy is to go on. */
  ghost predicate NoListVerdict(env: Env, w: World) {
    || env.Ip() == ""
    || (if env.connected
        then !IPList.Check(env.settings, w.cache, w.db, env.down, env.Ip(), env.now).handled
        else env.failOpen)
  }

  /** The tally the loop starts with. */
  function Start(env: Env): Tally {
    Tally(env.Ip() != "" && !env.connected, false, None)
  }

  /** The verdict on a request the lists leave open. It is allowed if and only if every enabled rule
      lets it through (a single disabled rule is refused). So a denial wins even under fail-open,
      under fail-closed an allowed request was allowed by every enabled rule, and the remaining quota
      reported is the smallest non-negative one. */
  lemma Verdict(env: Env, w: World, rules: seq<Rule>)
    requires Consistent(env) && NoListVerdict(env, w) && KeysDistinct(env, rules) && rules != []
    ensures var dec := Allow(env, w, rules).dec;
      && (dec.allowed <==> AllLetThrough(env, w.db, rules) && !(|rules| == 1 && !rules[0].enabled))
      && (dec.allowed ==> forall r <- rules | r.enabled ::
            RulingOn(env, w.db, r) != Denied && (!env.failOpen ==> RulingOn(env, w.db, r).Passed?))
      && (dec.allowed && (exists r <- rules :: r.enabled && Left(env, w.db, r) >= 0) ==>
            && (forall r <- rules | r.enabled && Left(env, w.db, r) >= 0 :: dec.remaining <= Left(env, w.db, r))
            && (exists r <- rules :: r.enabled && Left(env, w.db, r) == dec.remaining))
  {
    hide ChargeRule, RuleKey, RulingOn, IPList.Check;
    var db := w.db;
    LoopVerdict(env, AfterLists(env, w), db, rules, Start(env), |rules| == 1);
    if AllLetThrough(env, db, rules) {
      GatheredSums(env, db, rules, Start(env));
    }
  }

  ghost function AfterLists(env: Env, w: World): World {
    if env.Ip() == "" || !env.connected then w
    else World(w.db, IPList.Check(env.settings, w.cache, w.db, env.down, env.Ip(), env.now).cache)
  }

  /** The order of the rules does not matter to whether a request is allowed, nor, when it is, to
      anything in the decision. */
  lemma OrderIrrelevant(env: Env, w: World, rules: seq<Rule>, shuffled: seq<Rule>)
    requires Consistent(env) && KeysDistinct(env, rules) && multiset(rules) == multiset(shuffled)
    ensures var a, b := Allow(env, w, rules).dec, Allow(env, w, shuffled).dec;
      (a.allowed <==> b.allowed) && (a.allowed ==> a == b)
  {
    SameMembers(env, w.db, rules, shuffled);
    hide ChargeRule, RuleKey, RulingOn, IPList.Check, KeysDistinct, AllLetThrough, Sums, Gathered;
    if rules != [] && NoListVerdict(env, w) {
      var db, only := w.db, |rules| == 1;
      LoopVerdict(env, AfterLists(env, w), db, rules, Start(env), only);
      LoopVerdict(env, AfterLists(env, w), db, shuffled, Start(env), only);
      if AllLetThrough(env, db, rules) {
        GatheredSums(env, db, rules, Start(env));
        GatheredSums(env, db, shuffled, Start(env));
        var g, h := Gathered(env, db, rules, Start(env)), Gathered(env, db, shuffled, Start(env));
        SameSums(env, db, rules, shuffled, g, h);
      }
    }
  }

  lemma SameMembers(env: Env, db: Db, rules: seq<Rule>, shuffled: seq<Rule>)
    requires multiset(rules) == multiset(shuffled) && KeysDistinct(env, rules)
    ensures |rules| == |shuffled| && (forall r :: r in rules <==> r in shuffled)
    ensures KeysDistinct(env, shuffled) && (AllLetThrough(env, db, rules) <==> AllLetThrough(env, db, shuffled))
    ensures |rules| == 1 ==> rules[0] == shuffled[0]
  {
    hide Keyed, LetsThrough, RuleKey;
    assert |rules| == |multiset(rules)| == |multiset(shuffled)| == |shuffled|;
    forall r
      ensures r in rules <==> r in shuffled
    {
      assert r in rules <==> r in multiset(rules);
      assert r in shuffled <==> r in multiset(shuffled);
    }
    if |rules| == 1 {
      assert rules[0] in shuffled;
    }
  }

  lemma SameSums(env: Env, db: Db, rules: seq<Rule>, shuffled: seq<Rule>, g: Tally, h: Tally)
    requires forall r :: r in rules <==> r in shuffled
    requires Sums(env, db, rules, Start(env), g) && Sums(env, db, shuffled, Start(env), h)
    ensures g == h
  {
    hide Left, RulingOn;
    if g.least.Some? {
      var r :| r in rules && r.enabled && Left(env, db, r) == g.least.value >= 0;
      assert h.least.Some? && h.least.value <= g.least.value;
    }
    if h.least.Some? {
      var r :| r in shuffled && r.enabled && Left(env, db, r) == h.least.value >= 0;
      assert g.least.Some? && g.least.value <= h.least.value;
    }
  }

  /** On the whole request: which keys are charged, and that none is when the lists decide. */
  lemma Charges(env: Env, w: World, rules: seq<Rule>, i: nat)
    requires Consistent(env) && KeysDistinct(env, rules) && i < |rules| && Keyed(env, rules[i])
    ensures if NoListVerdict(env, w) then ChargedInTurn(env, Allow(env, w, rules).world.db, w.db, rules, i)
            else Allow(env, w, rules).world.db == w.db
  {
    hide ChargeRule, RuleKey, RulingOn, IPList.Check, KeysDistinct;
    if NoListVerdict(env, w) {
      LoopCharges(env, AfterLists(env, w), w.db, rules, Start(env), |rules| == 1, i);
    }
  }
}
