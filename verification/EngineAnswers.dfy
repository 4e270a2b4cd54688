/** What the engine answers to a whole request, in terms of the request, the store and the list cache. */
module EngineAnswers {
  import opened Basics
  import opened Config
  import opened RedisStore
  import opened Text
  import opened Engine
  import opened EngineVerdict
  import Dims
  import IPList
  import Limiters
  import LimiterRuns

  // ---------------------------------------------------------------- which bucket a request is charged to

  lemma PrefixOut(p: string, a: string, b: string)
    ensures p + a == p + b <==> a == b
  {
    assert a == (p + a)[|p|..] && b == (p + b)[|p|..];
  }

  /** Two requests are charged to the same bucket of a rule if and only if the printed lists of their values of the
      rule's dimensions are the same. */
  lemma SameBucketIff(env: Env, other: map<string, string>, rule: Rule)
    requires LimiterRuns.EngineAlgo(rule.algo).Some?
    requires Dims.HasAll(rule.dims, env.dims) && Dims.HasAll(rule.dims, other)
    requires Dims.Injective(env.hash)
    ensures RuleKey(env, rule).Some? && RuleKey(env.(dims := other), rule).Some?
    ensures RuleKey(env, rule) == RuleKey(env.(dims := other), rule)
       <==> Dims.Printed(Dims.Extracted(rule.dims, env.dims)) == Dims.Printed(Dims.Extracted(rule.dims, other))
  {
    hide Dims.Extracted, Dims.Printed;
    var algo := LimiterRuns.EngineAlgo(rule.algo).value;
    PrefixOut(env.prefix + ":" + Limiters.Tag(algo) + ":{" + rule.ruleId + "}:",
              DimKey(env, rule), DimKey(env.(dims := other), rule));
  }

  /** So callers have a bucket each for every combination of values, if the rule has at most one dimension or no
      value has a space in it. */
  lemma OwnBuckets(env: Env, other: map<string, string>, rule: Rule)
    requires LimiterRuns.EngineAlgo(rule.algo).Some?
    requires forall d <- rule.dims :: d in env.dims && d in other
    requires Dims.Injective(env.hash)
    requires |rule.dims| <= 1 || forall d <- rule.dims :: ' ' !in env.dims[d] && ' ' !in other[d]
    ensures RuleKey(env, rule) == RuleKey(env.(dims := other), rule)
       <==> forall d <- rule.dims :: env.dims[d] == other[d]
  {
    hide Dims.Printed, RuleKey;
    SameBucketIff(env, other, rule);
    Dims.ApartByValues(rule.dims, env.dims, other, env.hash);
  }

  /** No two requests with different values share a bucket of the rule, however the values are chosen. */
  ghost predicate NeverShares(env: Env, rule: Rule) {
    forall a: map<string, string>, b: map<string, string> | Dims.HasAll(rule.dims, a) && Dims.HasAll(rule.dims, b) ::
      RuleKey(env.(dims := a), rule) == RuleKey(env.(dims := b), rule) ==> Dims.SameValues(rule.dims, a, b)
  }

  /** For a rule that names each of its dimensions once that is so if and only if it has at most one of them. */
  lemma NeverSharesIff(env: Env, rule: Rule)
    requires LimiterRuns.EngineAlgo(rule.algo).Some? && Dims.Distinct(rule.dims) && Dims.Injective(env.hash)
    ensures NeverShares(env, rule) <==> |rule.dims| <= 1
  {
    hide Dims.Printed, Dims.Extracted, RuleKey, Dims.SameValues;
    Dims.TellsApartIff(rule.dims, env.hash);
    forall a: map<string, string>, b: map<string, string> | Dims.HasAll(rule.dims, a) && Dims.HasAll(rule.dims, b)
      ensures RuleKey(env.(dims := a), rule) == RuleKey(env.(dims := b), rule)
         <==> env.hash(Dims.Printed(Dims.Extracted(rule.dims, a)))
              == env.hash(Dims.Printed(Dims.Extracted(rule.dims, b)))
    {
      SameBucketIff(env.(dims := a), b, rule);
      assert env.(dims := a).(dims := b) == env.(dims := b);
    }
  }

  // ---------------------------------------------------------------- when the lists decide

  ghost predicate Barred(env: Env, w: World) {
    IPList.Barred(env.settings, w.cache, w.db, env.down, env.Ip(), env.now)
  }

  ghost predicate Welcome(env: Env, w: World) {
    IPList.Welcome(env.settings, w.cache, w.db, env.Ip(), env.now)
  }

  lemma AddressOf(env: Env, ip: string)
    requires "ip" in env.dims && ip == TrimSpace(env.dims["ip"])
    ensures env.Ip() == ip
  {
  }

  /** A request with an address: whoever is barred is refused and whoever is welcome and not barred is allowed,
      whatever the rules say and without a charge; about everybody else the rules decide. */
  lemma ListsDecide(env: Env, w: World, rules: seq<Rule>, ip: string)
    requires env.connected && rules != [] && "ip" in env.dims && ip == TrimSpace(env.dims["ip"]) != ""
    ensures var o := Allow(env, w, rules);
      var barred := IPList.Barred(env.settings, w.cache, w.db, env.down, ip, env.now);
      var welcome := IPList.Welcome(env.settings, w.cache, w.db, ip, env.now);
      && (barred ==> !o.dec.allowed && o.err.None? && o.world.db == w.db)
      && (!barred && welcome ==> o.dec.allowed && o.err.None? && o.world.db == w.db)
      && (!barred && !welcome ==> o == ChargeRules(env, AfterLists(env, w), rules, Start(env), |rules| == 1))
  {
    hide IPList.Check, IPList.Barred, IPList.Welcome, ChargeRules, TrimSpace;
    IPList.ListsAnswer(env.settings, w.cache, w.db, env.down, ip, env.now);
  }

  /** The lists leave a request to the rules if and only if it has no address, or its address is neither barred
      nor welcome, or there is no store and the policy is fail-open. */
  lemma LeftOpenIff(env: Env, w: World)
    ensures NoListVerdict(env, w) <==>
      || env.Ip() == ""
      || (if env.connected then !Barred(env, w) && !Welcome(env, w) else env.failOpen)
  {
    hide IPList.Check, IPList.Barred, IPList.Welcome, TrimSpace;
    if env.Ip() != "" {
      IPList.ListsAnswer(env.settings, w.cache, w.db, env.down, env.Ip(), env.now);
    }
  }

  /** Exactly which requests are allowed. */
  lemma AllowedIff(env: Env, w: World, rules: seq<Rule>)
    requires Consistent(env) && KeysDistinct(env, rules)
    ensures var listed := env.Ip() != "" && env.connected;
      Allow(env, w, rules).dec.allowed <==>
        || rules == []
        || (listed && !Barred(env, w) && Welcome(env, w))
        || ((if listed then !Barred(env, w) && !Welcome(env, w) else env.Ip() == "" || env.failOpen)
            && AllLetThrough(env, w.db, rules) && !(|rules| == 1 && !rules[0].enabled))
  {
    hide IPList.Check, IPList.Barred, IPList.Welcome, TrimSpace, AllLetThrough, ChargeRules, KeysDistinct;
    LeftOpenIff(env, w);
    if env.Ip() != "" && env.connected && rules != [] {
      ListsDecide(env, w, rules, env.Ip());
    }
    if rules != [] && NoListVerdict(env, w) {
      Verdict(env, w, rules);
    }
    hide NoListVerdict;
  }

  // ---------------------------------------------------------------- what else is in the answer

  /** An allowed request that the rules decided is told the least remaining quota, no delay, and whether anything
      failed on the way. */
  lemma AllowedAnswer(env: Env, w: World, rules: seq<Rule>)
    requires Consistent(env) && KeysDistinct(env, rules) && rules != [] && NoListVerdict(env, w)
    requires Allow(env, w, rules).dec.allowed
    ensures var dec := Allow(env, w, rules).dec;
      var ruled, counted := exists r <- rules :: r.enabled, exists r <- rules :: r.enabled && Left(env, w.db, r) >= 0;
      var failed := (env.Ip() != "" && !env.connected)
        || exists r <- rules :: r.enabled && RulingOn(env, w.db, r).Erred?;
      && dec.retryAfterMs == 0 && dec.err.None?
      && dec.reason == (if !ruled then "no_enabled_rules" else if failed then "fail_open" else "allowed")
      && (!counted ==> dec.remaining == 0)
  {
    hide ChargeRule, RuleKey, RulingOn, IPList.Check, TrimSpace;
    var db := w.db;
    LoopVerdict(env, AfterLists(env, w), db, rules, Start(env), |rules| == 1);
    GatheredSums(env, db, rules, Start(env));
    ErrorsNeedFailOpen(env, db, rules);
  }

  lemma ErrorsNeedFailOpen(env: Env, db: Db, rules: seq<Rule>)
    requires AllLetThrough(env, db, rules)
    ensures (exists r <- rules :: r.enabled && RulingOn(env, db, r).Erred?) ==> env.failOpen
  {
    hide RulingOn;
  }

  /** A request the rules refuse gets the answer of the first enabled rule that does not let it through: the
      limiter's own, with its delay, or under fail-closed a refusal that carries the error. */
  lemma {:induction false} LoopStops(env: Env, w: World, db: Db, rules: seq<Rule>, t: Tally, only: bool, i: nat)
    requires Consistent(env) && KeysDistinct(env, rules) && Untouched(env, w, db, rules) && (only ==> |rules| <= 1)
    requires i < |rules| && rules[i].enabled && AllLetThrough(env, db, rules[..i]) && !LetsThrough(env, db, rules[i])
    ensures var o, stop := ChargeRules(env, w, rules, t, only), ChargeRule(env, World(db, map[]), rules[i]);
      && o.err.None?
      && o.dec == if stop.err.Some? then Refusal("fail_closed", stop.err) else stop.dec
    decreases |rules|
  {
    hide ChargeRule, RuleKey, RulingOn, KeysDistinct, Untouched, Consistent, LetsThrough;
    var head, tail := rules[0], rules[1..];
    if head.enabled {
      HeadUntouched(env, w, db, rules);
      RulingIsLocal(env, w, db, head);
      LetsThroughIf(env, db, head);
    }
    if i > 0 {
      PrefixLetsThrough(env, db, rules, i);
      assert tail[i - 1] == rules[i];
      SkipUntouched(env, w, db, rules);
      if head.enabled {
        StillUntouched(env, w, db, rules);
        var o := ChargeRule(env, w, head);
        LoopStops(env, o.world, db, tail,
                  if o.err.Some? then t.(anyError := true, anyRule := true) else Note(t, o.dec.remaining), only, i - 1);
      } else {
        LoopStops(env, w, db, tail, t, only, i - 1);
      }
    }
    hide AllLetThrough;
  }

  lemma RefusedAnswer(env: Env, w: World, rules: seq<Rule>, i: nat)
    requires Consistent(env) && KeysDistinct(env, rules) && NoListVerdict(env, w)
    requires i < |rules| && rules[i].enabled
    requires AllLetThrough(env, w.db, rules[..i]) && !LetsThrough(env, w.db, rules[i])
    ensures var o := Allow(env, w, rules);
      && o.err.None?
      && (if Reaches(env, rules[i]) && ServeRule(env, w.db, rules[i]).err.None?
          then o.dec == ServeRule(env, w.db, rules[i]).dec
          else o.dec.reason == "fail_closed" && o.dec.err.Some? && o.dec.retryAfterMs == 0)
  {
    hide ChargeRule, RuleKey, RulingOn, IPList.Check, AllLetThrough, LetsThrough, ServeRule, ChargeRules;
    LoopStops(env, AfterLists(env, w), w.db, rules, Start(env), |rules| == 1, i);
    if Reaches(env, rules[i]) {
      ChargeShape(env, World(w.db, map[]), rules[i]);
    } else {
      UnreachedFails(env, World(w.db, map[]), rules[i]);
    }
  }

  lemma {:induction false} LoopErrorIff(env: Env, w: World, rules: seq<Rule>, t: Tally, only: bool)
    requires only ==> |rules| <= 1
    ensures ChargeRules(env, w, rules, t, only).err.Some? <==> only && rules != [] && !rules[0].enabled
    decreases |rules|
  {
    hide ChargeRule, ChargeRules;
    ChargeRulesStep(env, w, rules, t, only);
    if rules != [] {
      var o, tail := ChargeRule(env, w, rules[0]), rules[1..];
      LoopErrorIff(env, w, tail, t, only);
      LoopErrorIff(env, o.world, tail, t.(anyError := true, anyRule := true), only);
      LoopErrorIff(env, o.world, tail, Note(t, o.dec.remaining), only);
    }
  }

  /** The call itself fails only for a single rule that is disabled; every other failure is in the decision. */
  lemma ErrorIff(env: Env, w: World, rules: seq<Rule>)
    ensures var o := Allow(env, w, rules);
      && (o.err.Some? <==> NoListVerdict(env, w) && |rules| == 1 && !rules[0].enabled)
      && (o.err.Some? ==> o.dec == Refusal("rule_disabled", None))
  {
    hide ChargeRules, IPList.Check, TrimSpace;
    if rules != [] && NoListVerdict(env, w) {
      var only := |rules| == 1;
      LoopErrorIff(env, AfterLists(env, w), rules, Start(env), only);
      ChargeRulesStep(env, AfterLists(env, w), rules, Start(env), only);
    }
  }

  /** Without a store a request with an address is refused under fail-closed, with the reason. */
  lemma StoreMissing(env: Env, w: World, rules: seq<Rule>)
    requires !env.connected && env.Ip() != "" && !env.failOpen && rules != []
    ensures Allow(env, w, rules) == Outcome(w, Decision(false, 0, 0, "fail_closed", Some("repo is nil")), None)
    ensures Allow(env, w, []) == Outcome(w, Decision(true, 0, 0, "no_rules", None), None)
  {
    hide TrimSpace, ChargeRules, IPList.Check;
  }
}
