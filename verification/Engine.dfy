/** The engine: address lists first, then the rules in order under a fail policy. */
module Engine {
  import opened Basics
  import opened Config
  import opened RedisStore
  import opened Text
  import Dims
  import Limiters
  import LimiterRuns
  import IPList

  // ---------------------------------------------------------------- specification

  /** What a request brings and meets: its dimensions, the clock and the unreachable keys. */
  datatype Env = Env(
    prefix: string,
    settings: IPList.Settings,
    hash: string -> string,
    limiters: map<string, Limiters.Algo>,
    defaultAlgo: string,
    failOpen: bool,
    connected: bool,
    dims: map<string, string>,
    now: int,
    down: set<string>)
  {
    function Ip(): string {
      if "ip" in dims then TrimSpace(dims["ip"]) else ""
    }
  }

  /** The shared store and the engine's own list cache. */
  datatype World = World(db: Db, cache: IPList.LocalCache)

  datatype Outcome = Outcome(world: World, dec: Decision, err: Option<string>)

  /** The key a rule charges, when its dimensions are all present and its algorithm is known. */
  function RuleKey(env: Env, rule: Rule): Option<string> {
    var algo := LimiterRuns.EngineAlgo(rule.algo);
    if algo.None? || !Dims.HasAll(rule.dims, env.dims) then None
    else Some(Limiters.LimiterKey(env.prefix, algo.value, rule.ruleId, DimKey(env, rule)))
  }

  function DimKey(env: Env, rule: Rule): string
    requires Dims.HasAll(rule.dims, env.dims)
  {
    env.hash(Dims.Printed(Dims.Extracted(rule.dims, env.dims)))
  }

  /** What becomes of a rule once its limiter has answered. */
  ghost function Settled(env: Env, w: World, served: Limiters.Served): Outcome {
    if served.err.Some? then Outcome(w.(db := served.db), served.dec.(err := served.err), served.err)
    else if !served.dec.allowed && env.Ip() != "" && env.settings.Valid() then
      var r := IPList.Record(env.settings, w.cache, served.db, env.down, env.Ip(), env.now);
      Outcome(World(r.db, r.cache), served.dec, None)
    else Outcome(w.(db := served.db), served.dec, None)
  }

  /** One enabled rule. */
  ghost function ChargeRule(env: Env, w: World, rule: Rule): Outcome {
    if !env.connected then Outcome(w, Refusal("repo_unavailable", Some("repo is nil")), Some("repo is nil"))
    else if !Dims.HasAll(rule.dims, env.dims) then
      Outcome(w, Refusal("dim_hash_failed", Some("missing required dimension")), Some("missing required dimension"))
    else if LimiterRuns.EngineAlgo(rule.algo).None? then
      Outcome(w, Refusal("unsupported_algorithm", Some("unsupported algorithm")), Some("unsupported algorithm"))
    else
      Settled(env, w,
              Limiters.ServeBy(env.limiters, env.defaultAlgo, w.db, env.down, rule, RuleKey(env, rule).value, env.now))
  }

  lemma ChargeSettles(env: Env, w: World, rule: Rule, key: string)
    requires env.connected && RuleKey(env, rule) == Some(key)
    ensures var served := Limiters.ServeBy(env.limiters, env.defaultAlgo, w.db, env.down, rule, key, env.now);
      ChargeRule(env, w, rule) == Settled(env, w, served)
  {
    hide Limiters.ServeBy, Settled, Limiters.LimiterKey, LimiterRuns.EngineAlgo;
  }

  /** What the loop over the rules has gathered so far. */
  datatype Tally = Tally(anyError: bool, anyRule: bool, least: Option<int>)

  function Note(t: Tally, remaining: int): Tally {
    t.(anyRule := true,
       least := if remaining >= 0 && (t.least.None? || remaining < t.least.value) then Some(remaining) else t.least)
  }

  function Conclude(env: Env, t: Tally): Decision {
    if !t.anyRule then Grant("no_enabled_rules")
    else Decision(true, if t.least.Some? then t.least.value else 0, 0,
                  if t.anyError && env.failOpen then "fail_open" else "allowed", None)
  }

  /** The rules from some point on; `only` says that the whole list has one rule. */
  ghost function ChargeRules(env: Env, w: World, rules: seq<Rule>, t: Tally, only: bool): Outcome
    decreases |rules|
  {
    if rules == [] then Outcome(w, Conclude(env, t), None)
    else if !rules[0].enabled then
      if only then Outcome(w, Refusal("rule_disabled", None), Some("rule is disabled"))
      else ChargeRules(env, w, rules[1..], t, only)
    else
      var o := ChargeRule(env, w, rules[0]);
      if o.err.Some? then
        if env.failOpen then ChargeRules(env, o.world, rules[1..], t.(anyError := true, anyRule := true), only)
        else Outcome(o.world, Refusal("fail_closed", o.err), None)
      else if !o.dec.allowed then o
      else ChargeRules(env, o.world, rules[1..], Note(t, o.dec.remaining), only)
  }

  lemma ChargeRulesStep(env: Env, w: World, rules: seq<Rule>, t: Tally, only: bool)
    ensures ChargeRules(env, w, rules, t, only) ==
      if rules == [] then Outcome(w, Conclude(env, t), None)
      else if !rules[0].enabled then
        (if only then Outcome(w, Refusal("rule_disabled", None), Some("rule is disabled"))
         else ChargeRules(env, w, rules[1..], t, only))
      else
        var o := ChargeRule(env, w, rules[0]);
        if o.err.Some? then
          (if env.failOpen then ChargeRules(env, o.world, rules[1..], t.(anyError := true, anyRule := true), only)
           else Outcome(o.world, Refusal("fail_closed", o.err), None))
        else if !o.dec.allowed then o
        else ChargeRules(env, o.world, rules[1..], Note(t, o.dec.remaining), only)
  {
    hide ChargeRule;
  }

  /** The whole request. */
  ghost function Allow(env: Env, w: World, rules: seq<Rule>): Outcome {
    if rules == [] then Outcome(w, Grant("no_rules"), None)
    else if env.Ip() != "" && !env.connected then
      if env.failOpen then ChargeRules(env, w, rules, Tally(true, false, None), |rules| == 1)
      else Outcome(w, Refusal("fail_closed", Some("repo is nil")), None)
    else
      var c := if env.Ip() != "" then IPList.Check(env.settings, w.cache, w.db, env.down, env.Ip(), env.now)
               else IPList.Checked(w.cache, IPList.UNDECIDED, false);
      if c.handled then Outcome(World(w.db, c.cache), c.dec, None)
      else ChargeRules(env, World(w.db, c.cache), rules, Tally(false, false, None), |rules| == 1)
  }

  // ---------------------------------------------------------------- the engine itself

  class Engine {
    const prefix: string
    const repo: Redis?
    const ipCache: IPList.IPListCache?
    const limiter: Limiters.Mux
    const failPolicy: string
    const hash: string -> string

    constructor (prefix: string, rdb: Redis?, limiter: Limiters.Mux, failPolicy: string, hash: string -> string)
      ensures this.prefix == prefix && repo == rdb && this.hash == hash && this.limiter == limiter
      ensures Wired() && (rdb != null ==> fresh(ipCache) && ipCache.localCache == map[])
      ensures this.failPolicy == if ToLower(TrimSpace(failPolicy)) == "fail-open" then "fail-open" else "fail-closed"
    {
      this.prefix := prefix;
      this.repo := rdb;
      this.limiter := limiter;
      this.hash := hash;
      var policy := ToLower(TrimSpace(failPolicy));
      if policy != "fail-open" && policy != "fail-closed" {
        policy := "fail-closed";
      }
      this.failPolicy := policy;
      if rdb != null {
        var cache := new IPList.IPListCache(rdb, prefix);
        this.ipCache := cache;
      } else {
        this.ipCache := null;
      }
    }

    /** The engine has a list cache exactly when it has a store, and both use its prefix. */
    ghost predicate Wired() {
      && (repo == null <==> ipCache == null)
      && (ipCache != null ==> ipCache.redis == repo && ipCache.settings == IPList.Defaults(prefix))
      && (failPolicy == "fail-open" || failPolicy == "fail-closed")
    }

    ghost function EnvOf(dims: map<string, string>, now: int): Env
      reads repo
    {
      Env(prefix, IPList.Defaults(prefix), hash, limiter.limiters, limiter.defaultAlgo, failPolicy == "fail-open",
          repo != null, dims, now, if repo != null then repo.down else {})
    }

    ghost function WorldOf(): World
      reads repo, ipCache
    {
      World(if repo != null then repo.db else map[], if ipCache != null then ipCache.localCache else map[])
    }

    method AllowRule(rule: Rule, dims: map<string, string>, now: int)
      returns (dec: Decision, err: Option<string>)
      requires Wired()
      modifies if repo != null then {repo} else {}, if ipCache != null then {ipCache} else {}
      ensures repo != null ==> repo.down == old(repo.down)
      ensures Outcome(WorldOf(), dec, err) == ChargeRule(EnvOf(dims, now), old(WorldOf()), rule)
      ensures repo == null || (exists d <- rule.dims :: d !in dims) || LimiterRuns.EngineAlgo(rule.algo).None? ==>
        err.Some? && !dec.allowed && WorldOf() == old(WorldOf())
      ensures repo != null && Dims.HasAll(rule.dims, dims) && LimiterRuns.EngineAlgo(rule.algo).Some? ==>
        var dimKey := hash(Dims.Printed(Dims.Extracted(rule.dims, dims)));
        var key := Limiters.LimiterKey(prefix, LimiterRuns.EngineAlgo(rule.algo).value, rule.ruleId, dimKey);
        var served := Limiters.ServeBy(limiter.limiters, limiter.defaultAlgo, old(repo.db), repo.down, rule, key, now);
        err == served.err && dec.allowed == served.dec.allowed && dec.remaining == served.dec.remaining
    {
      if repo == null {
        return Refusal("repo_unavailable", Some("repo is nil")), Some("repo is nil");
      }
      var dimKey := Dims.HashDims(rule.dims, dims, hash);
      if dimKey.None? {
        return Refusal("dim_hash_failed", Some("missing required dimension")), Some("missing required dimension");
      }
      var algo := LimiterRuns.EngineAlgo(rule.algo);
      if algo.None? {
        return Refusal("unsupported_algorithm", Some("unsupported algorithm")), Some("unsupported algorithm");
      }
      var key := Limiters.LimiterKey(prefix, algo.value, rule.ruleId, dimKey.value);
      ChargeSettles(EnvOf(dims, now), WorldOf(), rule, key);
      hide ChargeRule, RuleKey, Limiters.ServeBy, IPList.Record, TrimSpace, Limiters.LimiterKey, LimiterRuns.EngineAlgo;
      dec, err := limiter.Allow(repo, rule, key, now);
      if err.Some? {
        return dec.(err := err), err;
      }
      if !dec.allowed {
        var ip := if "ip" in dims then TrimSpace(dims["ip"]) else "";
        if ip != "" {
          var _ := ipCache.RecordDeny(ip, now);
        }
      }
    }

    method CheckIPLists(dims: map<string, string>, now: int)
      returns (dec: Decision, handled: bool, err: Option<string>)
      requires Wired()
      modifies if ipCache != null then {ipCache} else {}
      ensures repo != null ==> repo.down == old(repo.down) && repo.db == old(repo.db)
      ensures var env, w := EnvOf(dims, now), old(WorldOf());
        if env.Ip() == "" || repo == null then
          WorldOf() == w && !handled && err == if env.Ip() == "" then None else Some("repo is nil")
        else (
          err.None? && WorldOf().db == w.db
          && IPList.Checked(WorldOf().cache, dec, handled)
               == IPList.Check(env.settings, w.cache, w.db, env.down, env.Ip(), now))
    {
      hide IPList.Check;
      var ip := if "ip" in dims then TrimSpace(dims["ip"]) else "";
      if ip == "" {
        return IPList.UNDECIDED, false, None;
      }
      if ipCache != null {
        dec, handled := ipCache.CheckIP(ip, now);
        return dec, handled, None;
      }
      return IPList.UNDECIDED, false, Some("repo is nil");
    }

    /** The loop over the rules, after the lists gave no verdict. */
    method ChargeInOrder(rules: seq<Rule>, dims: map<string, string>, now: int, listError: bool)
      returns (dec: Decision, err: Option<string>)
      requires Wired()
      modifies if repo != null then {repo} else {}, if ipCache != null then {ipCache} else {}
      ensures repo != null ==> repo.down == old(repo.down)
      ensures Outcome(WorldOf(), dec, err)
           == ChargeRules(EnvOf(dims, now), old(WorldOf()), rules, Tally(listError, false, None), |rules| == 1)
    {
      hide ChargeRule, ChargeRules, WorldOf;
      ghost var env, start := EnvOf(dims, now), Tally(listError, false, None);
      ghost var goal := ChargeRules(env, WorldOf(), rules, start, |rules| == 1);
      var anyError, anyRule := listError, false;
      var least: Option<int> := None;
      var i := 0;
      assert rules[0..] == rules;
      while i < |rules|
        invariant 0 <= i <= |rules|
        invariant EnvOf(dims, now) == env
        invariant ChargeRules(env, WorldOf(), rules[i..], Tally(anyError, anyRule, least), |rules| == 1) == goal
      {
        ChargeRulesStep(env, WorldOf(), rules[i..], Tally(anyError, anyRule, least), |rules| == 1);
        var rule := rules[i];
        i := i + 1;
        assert rules[i - 1..][1..] == rules[i..];
        if !rule.enabled {
          if |rules| == 1 {
            return Refusal("rule_disabled", None), Some("rule is disabled");
          }
          continue;
        }
        anyRule := true;
        dec, err := AllowRule(rule, dims, now);
        if err.Some? {
          anyError := true;
          if failPolicy == "fail-open" {
            continue;
          }
          return Refusal("fail_closed", err), None;
        }
        if !dec.allowed {
          return dec, None;
        }
        if dec.remaining >= 0 {
          if least.None? || dec.remaining < least.value {
            least := Some(dec.remaining);
          }
        }
      }
      ChargeRulesStep(env, WorldOf(), rules[i..], Tally(anyError, anyRule, least), |rules| == 1);
      if !anyRule {
        return Grant("no_enabled_rules"), None;
      }
      dec := Decision(true, if least.Some? then least.value else 0, 0, "allowed", None);
      if anyError && failPolicy == "fail-open" {
        dec := dec.(reason := "fail_open");
      }
      err := None;
    }

    method AllowRules(rules: seq<Rule>, dims: map<string, string>, now: int)
      returns (dec: Decision, err: Option<string>)
      requires Wired()
      modifies if repo != null then {repo} else {}, if ipCache != null then {ipCache} else {}
      ensures Outcome(WorldOf(), dec, err) == Allow(EnvOf(dims, now), old(WorldOf()), rules)
    {
      hide ChargeRules, IPList.Check, TrimSpace;
      if rules == [] {
        return Grant("no_rules"), None;
      }
      var handled, listErr;
      dec, handled, listErr := CheckIPLists(dims, now);
      if listErr.Some? {
        if failPolicy == "fail-closed" {
          return Refusal("fail_closed", listErr), None;
        }
      }
      if handled {
        return dec, None;
      }
      dec, err := ChargeInOrder(rules, dims, now, listErr.Some?);
    }
  }
}
