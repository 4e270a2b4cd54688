/** Runs of whole engine requests on many nodes over one Redis: what a rule guarantees about the requests the
    engine allows. */
module EngineRuns {
  import opened Basics
  import opened Config
  import opened RedisStore
  import opened Engine
  import opened EngineVerdict
  import opened LimiterRuns
  import Limiters
  import IPList
  import MixedRuns
  import RuleLimits
  import RuleMachines
  import S = SlidingWindow

  /** What all nodes share: the key prefix, the dimension hash and the fail policy; the limiters are main's. */
  datatype Site = Site(prefix: string, hash: string -> string, failOpen: bool)

  /** A request to a node's engine, an invalidation of a node's list cache, or a change of the lists; each at
      a reading of the shared clock. */
  datatype Event =
    | Visit(now: int, node: nat, dims: map<string, string>, rules: seq<Rule>, down: set<string>)
    | Told(now: int, node: nat)
    | Listed(now: int, black: set<string>, white: set<string>)

  datatype System = System(db: Db, caches: seq<IPList.LocalCache>)

  function EnvOf(site: Site, e: Event): Env
    requires e.Visit?
  {
    Env(site.prefix, IPList.Defaults(site.prefix), site.hash, MAIN_LIMITERS, "token_bucket", site.failOpen,
        true, e.dims, e.now, e.down)
  }

  /** The world a request finds: what Redis still holds, and its node's cache. */
  function WorldAt(s: System, e: Event): World
    requires e.Visit? && e.node < |s.caches|
  {
    World(Live(s.db, e.now), s.caches[e.node])
  }

  ghost function Next(site: Site, s: System, e: Event): (n: System)
    ensures |n.caches| == |s.caches|
  {
    var live := s.(db := Live(s.db, e.now));
    match e
    case Visit(_, node, _, rules, _) =>
      if node >= |s.caches| then live
      else
        var o := Allow(EnvOf(site, e), WorldAt(s, e), rules);
        System(o.world.db, s.caches[node := o.world.cache])
    case Told(_, node) => if node >= |s.caches| then live else live.(caches := s.caches[node := map[]])
    case Listed(_, black, white) =>
      live.(db := live.db[IPList.KeyBlacklist(site.prefix) := Entry(Names(black), None)]
                         [IPList.KeyWhitelist(site.prefix) := Entry(Names(white), None)])
  }

  ghost function Run(site: Site, s: System, es: seq<Event>): (n: System)
    ensures |n.caches| == |s.caches|
  {
    if es == [] then s else Next(site, Run(site, s, Front(es)), Last(es))
  }

  /** The clock never goes back. */
  ghost predicate Forwards(es: seq<Event>) {
    forall i, j | 0 <= i < j < |es| :: es[i].now <= es[j].now
  }

  ghost predicate Hexadecimal(site: Site) {
    forall text :: Limiters.IsHex(site.hash(text))
  }

  // ---------------------------------------------------------------- limiter calls of a request

  /** The triple a rule charges. */
  function TripleOf(env: Env, rule: Rule): Option<Triple> {
    if RuleKey(env, rule).None? then None
    else Some(Triple(EngineAlgo(rule.algo).value, rule.ruleId, DimKey(env, rule)))
  }

  ghost predicate MainEnv(env: Env) {
    && Consistent(env) && env.connected && env.limiters == MAIN_LIMITERS && env.defaultAlgo == "token_bucket"
    && (forall text :: Limiters.IsHex(env.hash(text)))
  }

  /** The calls a loop over rules makes to the limiter of one triple. */
  ghost function CallsFor(env: Env, w: World, rules: seq<Rule>, t: Triple): seq<Call>
    decreases |rules|
  {
    if rules == [] then []
    else if !rules[0].enabled then CallsFor(env, w, rules[1..], t)
    else
      var o := ChargeRule(env, w, rules[0]);
      var stops := if o.err.Some? then !env.failOpen else !o.dec.allowed;
      Mine(env, rules[0], t) + if stops then [] else CallsFor(env, o.world, rules[1..], t)
  }

  ghost function Mine(env: Env, rule: Rule, t: Triple): seq<Call> {
    if TripleOf(env, rule) == Some(t) then [Call(t, rule, env.now, env.down)] else []
  }

  /** Two stores agree on a key for everyone whose clock reads `now`. */
  ghost predicate Agree(key: string, a: Db, b: Db, now: int) {
    SameAt(key, Live(a, now), Live(b, now))
  }

  lemma AgreeLater(key: string, a: Db, b: Db, now: int, later: int)
    requires Agree(key, a, b, now) && now <= later
    ensures Agree(key, a, b, later) && Agree(key, Live(a, later), b, later)
  {
  }

  lemma AgreeThrough(key: string, a: Db, b: Db, c: Db, now: int)
    requires SameAt(key, a, b) && Agree(key, b, c, now)
    ensures Agree(key, a, c, now)
  {
  }

  /** A limiter cannot tell whether expired keys have been removed. */
  lemma ServeSeesLive(db: Db, down: set<string>, algo: Limiters.Algo, rule: Rule, key: string, now: int)
    ensures var x := Limiters.Serve(db, down, algo, rule, key, now);
      var y := Limiters.Serve(Live(db, now), down, algo, rule, key, now);
      x.dec == y.dec && x.err == y.err && Agree(key, x.db, y.db, now)
  {
    hide HashAt, ScoresAt, HashOrMissing, ScoresOrMissing, Agree, Live;
    hide Limiters.ServeToken, Limiters.ServeLeaky, Limiters.ServeSliding;
    SeenAlike(db, key, now);
    AgreeWithLive(key, db, now);
    if Limiters.Runs(rule) {
      TokenSeesLive(db, rule, key, now);
      LeakySeesLive(db, rule, key, now);
      SlidingSeesLive(db, rule, key, now);
    }
  }

  lemma TokenSeesLive(db: Db, rule: Rule, key: string, now: int)
    requires Limiters.Runs(rule)
    ensures var x, y := Limiters.ServeToken(db, rule, key, now), Limiters.ServeToken(Live(db, now), rule, key, now);
      x.dec == y.dec && x.err == y.err && Agree(key, x.db, y.db, now)
  {
    SeenAlike(db, key, now);
    hide HashAt, Earned, Limiters.TokenTtl, Limiters.TokenMeter;
  }

  lemma LeakySeesLive(db: Db, rule: Rule, key: string, now: int)
    requires Limiters.Runs(rule)
    ensures var x, y := Limiters.ServeLeaky(db, rule, key, now), Limiters.ServeLeaky(Live(db, now), rule, key, now);
      x.dec == y.dec && x.err == y.err && Agree(key, x.db, y.db, now)
  {
    SeenAlike(db, key, now);
    hide HashAt, Earned, Limiters.LeakyTtl, Limiters.LeakyDrain;
  }

  lemma SlidingSeesLive(db: Db, rule: Rule, key: string, now: int)
    requires Limiters.Runs(rule)
    ensures var x, y := Limiters.ServeSliding(db, rule, key, now), Limiters.ServeSliding(Live(db, now), rule, key, now);
      x.dec == y.dec && x.err == y.err && Agree(key, x.db, y.db, now)
  {
    SeenAlike(db, key, now);
    hide ScoresAt, Limiters.SlidingSpan;
  }

  lemma SeenAlike(db: Db, key: string, now: int)
    ensures HashAt(db, key, now) == HashAt(Live(db, now), key, now)
    ensures ScoresAt(db, key, now) == ScoresAt(Live(db, now), key, now)
    ensures HashOrMissing(db, key, now) == HashOrMissing(Live(db, now), key, now)
    ensures ScoresOrMissing(db, key, now) == ScoresOrMissing(Live(db, now), key, now)
  {
    ExpiryUnseen(db, key, now);
  }

  lemma AgreeWithLive(key: string, db: Db, now: int)
    ensures Agree(key, db, Live(db, now), now)
  {
  }

  lemma KeyIsOf(env: Env, rule: Rule)
    requires TripleOf(env, rule).Some?
    ensures RuleKey(env, rule) == Some(KeyOf(env.prefix, TripleOf(env, rule).value))
  {
  }

  lemma RecordTouchesNoLimiter(env: Env, cache: IPList.LocalCache, db: Db, t: Triple)
    requires Consistent(env)
    ensures SameAt(KeyOf(env.prefix, t), IPList.Record(env.settings, cache, db, env.down, env.Ip(), env.now).db, db)
  {
    LimiterKeysStandApart(env.prefix, t.algo, t.ruleId, t.dimKey, env.Ip());
    hide IPList.KeyHot, IPList.KeyBan, IPList.TempKey;
  }

  /** Charging a rule of the triple is a call to its limiter. */
  lemma OwnCharge(env: Env, w: World, rule: Rule, t: Triple, cs: seq<Call>)
    requires MainEnv(env) && TripleOf(env, rule) == Some(t)
    requires Agree(KeyOf(env.prefix, t), w.db, AfterCalls(env.prefix, map[], cs), env.now)
    ensures var o, c := ChargeRule(env, w, rule), Call(t, rule, env.now, env.down);
      var answer := Answer(env.prefix, map[], cs, c);
      && o.err == answer.err && o.dec.allowed == answer.dec.allowed
      && Agree(KeyOf(env.prefix, t), o.world.db, AfterCalls(env.prefix, map[], cs + [c]), env.now)
  {
    var key, c := KeyOf(env.prefix, t), Call(t, rule, env.now, env.down);
    KeyIsOf(env, rule);
    EngineAgreesWithMux(rule.algo);
    ChargeShape(env, w, rule);
    OneMoreCall(env.prefix, map[], cs, c, t);
    hide Limiters.Serve, KeyOf, ChargeRule, AfterCalls, Answer;
    var b := AfterCalls(env.prefix, map[], cs);
    ServeSeesLive(w.db, env.down, t.algo, rule, key, env.now);
    ServeIsLocal(Live(w.db, env.now), Live(b, env.now), env.down, t.algo, rule, key, env.now);
  }

  /** Charging any other rule leaves the triple's key alone. */
  lemma ForeignCharge(env: Env, w: World, rule: Rule, t: Triple)
    requires MainEnv(env) && Limiters.IsHex(t.dimKey) && TripleOf(env, rule) != Some(t)
    ensures SameAt(KeyOf(env.prefix, t), ChargeRule(env, w, rule).world.db, w.db)
  {
    var key := KeyOf(env.prefix, t);
    if Reaches(env, rule) {
      var own := TripleOf(env, rule).value;
      KeyIsOf(env, rule);
      if KeyOf(env.prefix, own) == key {
        Limiters.KeysAreInjective(env.prefix, own.algo, own.ruleId, own.dimKey, t.algo, t.ruleId, t.dimKey);
      }
      hide Limiters.ServeBy, IPList.Record, KeyOf, RuleKey;
      RuleCallTouchesOneKey(env, w.db, rule);
      var served := ServeRule(env, w.db, rule);
      Outside(served.db, w.db, KeyOf(env.prefix, own), key);
      RecordTouchesNoLimiter(env, w.cache, served.db, t);
    } else {
      UnreachedFails(env, w, rule);
    }
  }

  lemma {:induction false} GrantedJoins(prefix: string, before: seq<Call>, a: seq<Call>, b: seq<Call>, t: Triple)
    ensures MixedRuns.Granted(prefix, before, a + b, t)
         == MixedRuns.Granted(prefix, before, a, t) + MixedRuns.Granted(prefix, before + a, b, t)
    decreases |b|
  {
    hide Answer;
    if b == [] {
      assert a + b == a;
    } else {
      assert Front(a + b) == a + Front(b) && before + (a + Front(b)) == before + a + Front(b);
      GrantedJoins(prefix, before, a, Front(b), t);
    }
  }

  /** An enabled rule of the list charges the triple. */
  ghost predicate Involves(env: Env, rules: seq<Rule>, t: Triple) {
    exists r <- rules :: r.enabled && TripleOf(env, r) == Some(t)
  }

  /** Rules charging the triple are all the same rule. */
  ghost predicate OneRule(env: Env, rules: seq<Rule>, t: Triple, rule: Rule) {
    forall r <- rules | r.enabled && TripleOf(env, r) == Some(t) :: r == rule
  }

  lemma OneRuleTail(env: Env, rules: seq<Rule>, t: Triple, rule: Rule)
    requires rules != []
    ensures OneRule(env, rules, t, rule) ==>
      OneRule(env, rules[1..], t, rule) && (rules[0].enabled && TripleOf(env, rules[0]) == Some(t) ==> rules[0] == rule)
    ensures Involves(env, rules, t) <==>
      (rules[0].enabled && TripleOf(env, rules[0]) == Some(t)) || Involves(env, rules[1..], t)
  {
    hide TripleOf;
    assert rules == [rules[0]] + rules[1..];
    assert forall r :: r in rules <==> r == rules[0] || r in rules[1..];
  }

  lemma {:induction false} CallsShape(env: Env, w: World, rules: seq<Rule>, t: Triple, rule: Rule)
    requires OneRule(env, rules, t, rule)
    ensures forall c <- CallsFor(env, w, rules, t) :: c == Call(t, rule, env.now, env.down)
    decreases |rules|
  {
    hide ChargeRule, TripleOf, OneRule;
    if rules != [] {
      OneRuleTail(env, rules, t, rule);
      CallsShape(env, w, rules[1..], t, rule);
      CallsShape(env, ChargeRule(env, w, rules[0]).world, rules[1..], t, rule);
    }
  }

  // ---------------------------------------------------------------- the loop over the rules

  lemma {:induction false} LoopAgrees(env: Env, w: World, rules: seq<Rule>, tally: Tally, only: bool,
                                      t: Triple, cs: seq<Call>)
    requires MainEnv(env) && Limiters.IsHex(t.dimKey) && (only ==> |rules| <= 1)
    requires Agree(KeyOf(env.prefix, t), w.db, AfterCalls(env.prefix, map[], cs), env.now)
    ensures Agree(KeyOf(env.prefix, t), ChargeRules(env, w, rules, tally, only).world.db,
                  AfterCalls(env.prefix, map[], cs + CallsFor(env, w, rules, t)), env.now)
    decreases |rules|
  {
    hide ChargeRule, ChargeRules, AfterCalls, Agree, KeyOf, TripleOf, MainEnv;
    ChargeRulesStep(env, w, rules, tally, only);
    if rules == [] {
      assert cs + CallsFor(env, w, rules, t) == cs;
    } else if !rules[0].enabled {
      LoopAgrees(env, w, rules[1..], tally, only, t, cs);
      if only {
        assert rules[1..] == [] && cs + CallsFor(env, w, rules, t) == cs;
      }
    } else {
      var head, tail := rules[0], rules[1..];
      var o, mine := ChargeRule(env, w, head), Mine(env, head, t);
      if TripleOf(env, head) == Some(t) {
        OwnCharge(env, w, head, t, cs);
      } else {
        ForeignCharge(env, w, head, t);
        AgreeThrough(KeyOf(env.prefix, t), o.world.db, w.db, AfterCalls(env.prefix, map[], cs), env.now);
        assert cs + mine == cs;
      }
      var rest := CallsFor(env, o.world, tail, t);
      assert cs + (mine + rest) == cs + mine + rest && cs + (mine + []) == cs + mine;
      LoopAgrees(env, o.world, tail, tally.(anyError := true, anyRule := true), only, t, cs + mine);
      LoopAgrees(env, o.world, tail, Note(tally, o.dec.remaining), only, t, cs + mine);
    }
  }

  /** Everything about the triple's calls so far that its machine needs to be told. */
  ghost predicate Ready(env: Env, t: Triple, rule: Rule, cs: seq<Call>) {
    MixedRuns.Fits(cs, t, rule) && (!env.failOpen || KeyOf(env.prefix, t) !in env.down)
  }

  lemma FitsMore(cs: seq<Call>, t: Triple, rule: Rule, c: Call)
    requires MixedRuns.Fits(cs, t, rule) && c.triple == t && c.rule == rule
    ensures MixedRuns.Fits(cs + [c], t, rule)
  {
    hide Limiters.IsHex;
  }

  lemma GrantedOne(prefix: string, cs: seq<Call>, c: Call, t: Triple)
    requires c.triple == t
    ensures MixedRuns.Granted(prefix, cs, [c], t) == if Answer(prefix, map[], cs, c).dec.allowed then 1 else 0
  {
    hide Answer;
    assert Front([c]) == [] && cs + [] == cs && MixedRuns.Granted(prefix, cs, [], t) == 0;
  }

  /** A reachable limiter of a rule that runs gives no error. */
  lemma NoError(prefix: string, t: Triple, rule: Rule, cs: seq<Call>, c: Call)
    requires MixedRuns.Fits(cs + [c], t, rule) && c.triple == t && KeyOf(prefix, t) !in c.down
    ensures Answer(prefix, map[], cs, c).err.None?
  {
    hide KeyOf, Answer, RuleMachines.TokenMachine, RuleMachines.LeakyMachine, RuleMachines.SlidingMachine;
    RuleMachines.OwnAnswer(prefix, t, rule, cs, c);
  }

  /** If the loop allows a request, the rules of the triple were granted. */
  lemma {:induction false} LoopGrants(env: Env, w: World, rules: seq<Rule>, tally: Tally, only: bool,
                                      t: Triple, rule: Rule, cs: seq<Call>)
    requires MainEnv(env) && Ready(env, t, rule, cs) && OneRule(env, rules, t, rule)
    requires Agree(KeyOf(env.prefix, t), w.db, AfterCalls(env.prefix, map[], cs), env.now)
    requires ChargeRules(env, w, rules, tally, only).dec.allowed && Involves(env, rules, t)
    ensures MixedRuns.Granted(env.prefix, cs, CallsFor(env, w, rules, t), t) >= 1
    decreases |rules|
  {
    hide ChargeRule, ChargeRules, AfterCalls, Agree, KeyOf, TripleOf, MainEnv, OneRule, Involves, Answer;
    hide MixedRuns.Fits, MixedRuns.Granted;
    ChargeRulesStep(env, w, rules, tally, only);
    NoneInvolved(env, t);
    if rules != [] {
      var head, tail := rules[0], rules[1..];
      OneRuleTail(env, rules, t, rule);
      if !head.enabled {
        LoopGrants(env, w, tail, tally, only, t, rule, cs);
      } else {
        var o := ChargeRule(env, w, head);
        var next := if o.err.Some? then tally.(anyError := true, anyRule := true) else Note(tally, o.dec.remaining);
        var rest := CallsFor(env, o.world, tail, t);
        if TripleOf(env, head) == Some(t) {
          var c := Call(t, head, env.now, env.down);
          OwnCharge(env, w, head, t, cs);
          FitsMore(cs, t, rule, c);
          GrantedOne(env.prefix, cs, c, t);
          GrantedJoins(env.prefix, cs, [c], rest, t);
          if o.err.Some? {
            NoError(env.prefix, t, rule, cs, c);
          }
        } else {
          FitsHex(cs, t, rule);
          ForeignCharge(env, w, head, t);
          AgreeThrough(KeyOf(env.prefix, t), o.world.db, w.db, AfterCalls(env.prefix, map[], cs), env.now);
          LoopGrants(env, o.world, tail, next, only, t, rule, cs);
          assert [] + rest == rest;
        }
      }
    }
  }

  lemma FitsHex(cs: seq<Call>, t: Triple, rule: Rule)
    requires MixedRuns.Fits(cs, t, rule)
    ensures Limiters.IsHex(t.dimKey)
  {
  }

  lemma NoneInvolved(env: Env, t: Triple)
    ensures !Involves(env, [], t)
  {
  }

  // ---------------------------------------------------------------- runs

  /** The calls an event makes to the limiter of a triple; a request the lists decide makes none. */
  ghost function CallsOf(site: Site, s: System, e: Event, t: Triple): seq<Call> {
    if !e.Visit? || e.node >= |s.caches| || !NoListVerdict(EnvOf(site, e), WorldAt(s, e)) then []
    else CallsFor(EnvOf(site, e), AfterLists(EnvOf(site, e), WorldAt(s, e)), e.rules, t)
  }

  /** The calls made in a stretch of events, after other events. */
  ghost function Calls(site: Site, s: System, before: seq<Event>, stretch: seq<Event>, t: Triple): seq<Call> {
    if stretch == [] then []
    else
      Calls(site, s, before, Front(stretch), t)
      + CallsOf(site, Run(site, s, before + Front(stretch)), Last(stretch), t)
  }

  lemma EnvIsMain(site: Site, e: Event)
    requires Hexadecimal(site) && e.Visit?
    ensures MainEnv(EnvOf(site, e))
  {
  }

  lemma ListsStandApart(prefix: string, t: Triple)
    ensures KeyOf(prefix, t) != IPList.KeyBlacklist(prefix) && KeyOf(prefix, t) != IPList.KeyWhitelist(prefix)
  {
    var n, key := |prefix|, KeyOf(prefix, t);
    assert key[n + 1] == Limiters.Tag(t.algo)[0];
    assert IPList.KeyBlacklist(prefix)[n + 1] == 'b' && IPList.KeyWhitelist(prefix)[n + 1] == 'w';
  }

  /** What an allowed or denied request does to the store, in terms of the loop. */
  lemma VisitIsLoop(env: Env, w: World, rules: seq<Rule>)
    requires env.connected
    ensures NoListVerdict(env, w) && rules != [] ==>
      Allow(env, w, rules) == ChargeRules(env, AfterLists(env, w), rules, Start(env), |rules| == 1)
    ensures !NoListVerdict(env, w) || rules == [] ==> Allow(env, w, rules).world.db == w.db
    ensures AfterLists(env, w).db == w.db
  {
    hide ChargeRules, IPList.Check;
  }

  lemma EventAgrees(site: Site, s: System, e: Event, t: Triple, cs: seq<Call>)
    requires Hexadecimal(site) && Limiters.IsHex(t.dimKey)
    requires Agree(KeyOf(site.prefix, t), s.db, AfterCalls(site.prefix, map[], cs), e.now)
    ensures Agree(KeyOf(site.prefix, t), Next(site, s, e).db,
                  AfterCalls(site.prefix, map[], cs + CallsOf(site, s, e, t)), e.now)
  {
    var key, live := KeyOf(site.prefix, t), Live(s.db, e.now);
    assert cs + [] == cs;
    AgreeLater(key, s.db, AfterCalls(site.prefix, map[], cs), e.now, e.now);
    match e
    case Visit(_, node, _, rules, _) =>
      if node < |s.caches| {
        var env, w := EnvOf(site, e), WorldAt(s, e);
        EnvIsMain(site, e);
        hide ChargeRules, IPList.Check, Allow, NoListVerdict, AfterLists, KeyOf, AfterCalls, Agree, MainEnv, Start;
        VisitIsLoop(env, w, rules);
        if NoListVerdict(env, w) {
          LoopAgrees(env, AfterLists(env, w), rules, Start(env), |rules| == 1, t, cs);
        }
      }
    case Told(_, node) =>
    case Listed(_, black, white) =>
      ListsStandApart(site.prefix, t);
      hide KeyOf, AfterCalls, Live;
      assert SameAt(key, Next(site, s, e).db, live);
      AgreeThrough(key, Next(site, s, e).db, live, AfterCalls(site.prefix, map[], cs), e.now);
  }

  /** On every run the triple's key holds what its calls alone would have left. */
  lemma {:induction false} RunAgrees(site: Site, s: System, es: seq<Event>, t: Triple)
    requires Hexadecimal(site) && Limiters.IsHex(t.dimKey) && Forwards(es) && KeyOf(site.prefix, t) !in s.db
    ensures forall now | es != [] ==> Last(es).now <= now ::
      Agree(KeyOf(site.prefix, t), Run(site, s, es).db,
            AfterCalls(site.prefix, map[], Calls(site, s, [], es, t)), now)
  {
    hide KeyOf, Next, CallsOf, Agree, Hexadecimal;
    if es == [] {
      forall now {
        NothingAgrees(site, s, t, now);
      }
    } else {
      var front, e := Front(es), Last(es);
      var cs := Calls(site, s, [], front, t);
      RunAgrees(site, s, front, t);
      assert front != [] ==> Last(front).now <= e.now;
      assert [] + front == front;
      EventAgrees(site, Run(site, s, front), e, t, cs);
      forall now | e.now <= now {
        AgreeLater(KeyOf(site.prefix, t), Run(site, s, es).db,
                   AfterCalls(site.prefix, map[], Calls(site, s, [], es, t)), e.now, now);
      }
    }
  }

  lemma NothingAgrees(site: Site, s: System, t: Triple, now: int)
    requires KeyOf(site.prefix, t) !in s.db
    ensures Agree(KeyOf(site.prefix, t), Run(site, s, []).db,
                  AfterCalls(site.prefix, map[], Calls(site, s, [], [], t)), now)
  {
    hide KeyOf;
  }

  // ---------------------------------------------------------------- what the engine allows

  /** All rules that charge the triple, in all requests, are this rule. */
  ghost predicate UnderRule(site: Site, es: seq<Event>, t: Triple, rule: Rule) {
    forall e <- es | e.Visit? :: OneRule(EnvOf(site, e), e.rules, t, rule)
  }

  /** The request is allowed by its rules, one of which charges the triple; under fail-open, requests that
      cannot reach the triple's key do not count. */
  ghost predicate AllowedBy(site: Site, s: System, e: Event, t: Triple) {
    && e.Visit? && e.node < |s.caches| && NoListVerdict(EnvOf(site, e), WorldAt(s, e))
    && Allow(EnvOf(site, e), WorldAt(s, e), e.rules).dec.allowed && Involves(EnvOf(site, e), e.rules, t)
    && (!site.failOpen || KeyOf(site.prefix, t) !in e.down)
  }

  /** How many requests of a stretch are allowed on account of the triple. */
  ghost function AllowedIn(site: Site, s: System, before: seq<Event>, stretch: seq<Event>, t: Triple): nat {
    if stretch == [] then 0
    else
      var allowed := AllowedBy(site, Run(site, s, before + Front(stretch)), Last(stretch), t);
      AllowedIn(site, s, before, Front(stretch), t) + if allowed then 1 else 0
  }

  lemma EventGrants(site: Site, s: System, e: Event, t: Triple, rule: Rule, cs: seq<Call>)
    requires Hexadecimal(site) && MixedRuns.Fits(cs, t, rule) && AllowedBy(site, s, e, t)
    requires OneRule(EnvOf(site, e), e.rules, t, rule)
    requires Agree(KeyOf(site.prefix, t), s.db, AfterCalls(site.prefix, map[], cs), e.now)
    ensures MixedRuns.Granted(site.prefix, cs, CallsOf(site, s, e, t), t) >= 1
  {
    var env, w, key := EnvOf(site, e), WorldAt(s, e), KeyOf(site.prefix, t);
    EnvIsMain(site, e);
    NoneInvolved(env, t);
    hide ChargeRules, IPList.Check, Allow, NoListVerdict, AfterLists, KeyOf, AfterCalls, Agree, MainEnv;
    hide OneRule, Involves, MixedRuns.Fits, MixedRuns.Granted, Start;
    AgreeLater(key, s.db, AfterCalls(site.prefix, map[], cs), e.now, e.now);
    VisitIsLoop(env, w, e.rules);
    LoopGrants(env, AfterLists(env, w), e.rules, Start(env), |e.rules| == 1, t, rule, cs);
  }

  lemma CallsOfShape(site: Site, s: System, e: Event, t: Triple, rule: Rule)
    requires e.Visit? ==> OneRule(EnvOf(site, e), e.rules, t, rule)
    ensures forall c <- CallsOf(site, s, e, t) :: c.triple == t && c.rule == rule && c.now == e.now
  {
    hide NoListVerdict, AfterLists, OneRule, CallsFor;
    if e.Visit? && e.node < |s.caches| {
      CallsShape(EnvOf(site, e), AfterLists(EnvOf(site, e), WorldAt(s, e)), e.rules, t, rule);
    }
  }

  /** The calls of a stretch, in order and within its time. */
  lemma {:induction false} CallsInOrder(site: Site, s: System, before: seq<Event>, stretch: seq<Event>,
                                        t: Triple, rule: Rule)
    requires Forwards(stretch) && UnderRule(site, stretch, t, rule)
    ensures var cs := Calls(site, s, before, stretch, t);
      && (forall c <- cs :: c.triple == t && c.rule == rule) && Onward(cs)
      && (forall c <- cs :: stretch != [] && stretch[0].now <= c.now <= Last(stretch).now)
    decreases |stretch|
  {
    hide CallsOf, OneRule;
    if stretch != [] {
      var front, e := Front(stretch), Last(stretch);
      assert e in stretch && forall q <- front :: q in stretch;
      CallsInOrder(site, s, before, front, t, rule);
      CallsOfShape(site, Run(site, s, before + front), e, t, rule);
      assert front != [] ==> front[0] == stretch[0] && Last(front).now <= e.now;
      OnwardJoin(Calls(site, s, before, front, t), CallsOf(site, Run(site, s, before + front), e, t), e.now);
    }
  }

  lemma OnwardJoin(a: seq<Call>, b: seq<Call>, now: int)
    requires Onward(a) && (forall c <- a :: c.now <= now) && (forall c <- b :: c.now == now)
    ensures Onward(a + b)
  {
    forall i, j | 0 <= i < j < |a + b|
      ensures (a + b)[i].now <= (a + b)[j].now
    {
      assert i < |a| ==> (a + b)[i] in a;
      assert i >= |a| ==> (a + b)[i] in b;
      assert j >= |a| ==> (a + b)[j] in b;
    }
  }

  lemma {:induction false} CallsJoin(site: Site, s: System, before: seq<Event>, stretch: seq<Event>, t: Triple)
    ensures Calls(site, s, [], before + stretch, t)
         == Calls(site, s, [], before, t) + Calls(site, s, before, stretch, t)
    decreases |stretch|
  {
    hide CallsOf, Run;
    if stretch == [] {
      assert before + stretch == before;
    } else {
      var all := before + Front(stretch);
      assert Front(before + stretch) == all && [] + all == all;
      CallsJoin(site, s, before, Front(stretch), t);
    }
  }

  lemma FitsCalls(cs: seq<Call>, t: Triple, rule: Rule)
    requires Limiters.Runs(rule) && Limiters.IsHex(t.dimKey) && forall c <- cs :: c.triple == t && c.rule == rule
    ensures MixedRuns.Fits(cs, t, rule)
  {
    hide Limiters.IsHex;
  }

  lemma UnderPart(site: Site, a: seq<Event>, b: seq<Event>, t: Triple, rule: Rule)
    requires Forwards(a + b) && UnderRule(site, a + b, t, rule)
    ensures Forwards(a) && UnderRule(site, a, t, rule)
  {
    assert a == (a + b)[..|a|];
    assert forall e <- a :: e in a + b;
    hide OneRule;
  }

  /** The engine allows on account of a triple no more requests than the triple's limiter grants. */
  lemma {:induction false} AllowedIsGranted(site: Site, s: System, before: seq<Event>, stretch: seq<Event>,
                                            t: Triple, rule: Rule)
    requires Hexadecimal(site) && Limiters.Runs(rule) && Limiters.IsHex(t.dimKey) && KeyOf(site.prefix, t) !in s.db
    requires Forwards(before + stretch) && UnderRule(site, before + stretch, t, rule)
    ensures AllowedIn(site, s, before, stretch, t)
         <= MixedRuns.Granted(site.prefix, Calls(site, s, [], before, t),
                              Calls(site, s, before, stretch, t), t)
    decreases |stretch|
  {
    if stretch != [] {
      var front, e := Front(stretch), Last(stretch);
      var all := before + front;
      assert before + stretch == all + [e];
      UnderPart(site, all, [e], t, rule);
      AllowedIsGranted(site, s, before, front, t, rule);
      LastAllowed(site, s, all, e, t, rule);
      CallsJoin(site, s, before, front, t);
      hide *;
      GrantedJoins(site.prefix, Calls(site, s, [], before, t), Calls(site, s, before, front, t),
                   CallsOf(site, Run(site, s, all), e, t), t);
    }
  }

  lemma LastAllowed(site: Site, s: System, es: seq<Event>, e: Event, t: Triple, rule: Rule)
    requires Hexadecimal(site) && Limiters.Runs(rule) && Limiters.IsHex(t.dimKey) && KeyOf(site.prefix, t) !in s.db
    requires Forwards(es + [e]) && UnderRule(site, es + [e], t, rule)
    ensures AllowedBy(site, Run(site, s, es), e, t) ==>
      MixedRuns.Granted(site.prefix, Calls(site, s, [], es, t),
                        CallsOf(site, Run(site, s, es), e, t), t) >= 1
  {
    hide Hexadecimal, OneRule, KeyOf, Agree, Run, CallsOf, AfterCalls, MixedRuns.Granted, MixedRuns.Fits, Calls;
    UnderPart(site, es, [e], t, rule);
    CallsInOrder(site, s, [], es, t, rule);
    FitsCalls(Calls(site, s, [], es, t), t, rule);
    RunAgrees(site, s, es, t);
    assert e in es + [e];
    assert es != [] ==> (es + [e])[|es| - 1] == Last(es) && (es + [e])[|es|] == e;
    if AllowedBy(site, Run(site, s, es), e, t) {
      EventGrants(site, Run(site, s, es), e, t, rule, Calls(site, s, [], es, t));
    }
    hide AllowedBy;
  }

  // ---------------------------------------------------------------- the bounds

  /** What a run has to be for the bounds: it starts without the triple's key, the clock goes forward, the
      dimension hash is hexadecimal, and the triple is always charged under the same rule. */
  ghost predicate Regular(site: Site, s: System, before: seq<Event>, stretch: seq<Event>, t: Triple, rule: Rule) {
    && KeyOf(site.prefix, t) !in s.db && Hexadecimal(site) && Limiters.Runs(rule) && Limiters.IsHex(t.dimKey)
    && stretch != [] && Forwards(before + stretch) && UnderRule(site, before + stretch, t, rule)
  }

  lemma LaterPart(site: Site, a: seq<Event>, b: seq<Event>, t: Triple, rule: Rule)
    requires Forwards(a + b) && UnderRule(site, a + b, t, rule) && b != []
    ensures Forwards(b) && UnderRule(site, b, t, rule) && b[0].now <= Last(b).now
    ensures Last(a + b) == Last(b) && (a + b)[0].now <= b[0].now
  {
    hide OneRule;
    assert b == (a + b)[|a|..] && (a + b)[|a|] == b[0] && (a + b)[|a + b| - 1] == Last(b);
    assert forall e <- b :: e in a + b;
  }

  lemma CallsAreRegular(site: Site, s: System, before: seq<Event>, stretch: seq<Event>, t: Triple, rule: Rule)
    requires Regular(site, s, before, stretch, t, rule)
    ensures var cs, ds := Calls(site, s, [], before, t), Calls(site, s, before, stretch, t);
      && MixedRuns.Fits(cs + ds, t, rule) && Onward(cs + ds) && stretch[0].now <= Last(stretch).now
      && (ds != [] ==> stretch[0].now <= ds[0].now && Last(ds).now <= Last(stretch).now)
      && (forall c <- cs + ds :: (before + stretch)[0].now <= c.now)
  {
    hide OneRule, Calls, Hexadecimal, Limiters.IsHex, Limiters.Runs, MixedRuns.Fits, Forwards, UnderRule, Onward;
    var all := before + stretch;
    LaterPart(site, before, stretch, t, rule);
    CallsInOrder(site, s, [], all, t, rule);
    CallsInOrder(site, s, before, stretch, t, rule);
    CallsJoin(site, s, before, stretch, t);
    FitsCalls(Calls(site, s, [], all, t), t, rule);
  }

  /** In any interval of length `D` of any run of whole requests, on any number of nodes, the engine allows on
      account of one triple at most `limit + burst + D * limit / window` requests, for a token bucket rule
      whose evictions are unobservable. */
  lemma TokenBound(site: Site, s: System, before: seq<Event>, stretch: seq<Event>, t: Triple, rule: Rule)
    requires Regular(site, s, before, stretch, t, rule) && t.algo.TokenBucket?
    requires RuleLimits.FitsInt64(rule) && Limiters.Runs(rule) && RuleLimits.RefillsInTime(rule)
    ensures AllowedIn(site, s, before, stretch, t) as real
         <= Max(0.0, (rule.limit + rule.burst) as real)
            + Earned(Last(stretch).now - stretch[0].now, rule.limit as real / rule.windowMs as real)
  {
    hide Calls, AllowedIn, MixedRuns.Granted, RuleLimits.RefillsInTime, Earned, OneRule, MixedRuns.Fits, Onward;
    var rate := rule.limit as real / rule.windowMs as real;
    var cs, ds := Calls(site, s, [], before, t), Calls(site, s, before, stretch, t);
    AllowedIsGranted(site, s, before, stretch, t, rule);
    CallsAreRegular(site, s, before, stretch, t, rule);
    PositiveRate(rule);
    EarnedSign(Last(stretch).now - stretch[0].now, rate);
    if ds == [] {
      NoneGranted(site.prefix, cs, t);
    } else {
      MixedRuns.TokenBound(site.prefix, t, rule, cs, ds);
      EarnedGrows(Last(ds).now - ds[0].now, Last(stretch).now - stretch[0].now, rate);
    }
  }

  /** Likewise fewer than `q + 1 + D * limit / window` for a leaky bucket rule. */
  lemma LeakyBound(site: Site, s: System, before: seq<Event>, stretch: seq<Event>, t: Triple, rule: Rule)
    requires Regular(site, s, before, stretch, t, rule) && t.algo.LeakyBucket?
    requires Limiters.Runs(rule) && RuleLimits.DrainsInTime(rule)
    ensures AllowedIn(site, s, before, stretch, t) as real
          < ((if rule.burst > 0 then rule.burst else rule.limit) + 1) as real
            + Earned(Last(stretch).now - stretch[0].now, rule.limit as real / rule.windowMs as real)
  {
    hide Calls, AllowedIn, MixedRuns.Granted, RuleLimits.DrainsInTime, Earned, OneRule, MixedRuns.Fits, Onward;
    var rate := rule.limit as real / rule.windowMs as real;
    var cs, ds := Calls(site, s, [], before, t), Calls(site, s, before, stretch, t);
    AllowedIsGranted(site, s, before, stretch, t, rule);
    CallsAreRegular(site, s, before, stretch, t, rule);
    PositiveRate(rule);
    EarnedSign(Last(stretch).now - stretch[0].now, rate);
    if ds == [] {
      NoneGranted(site.prefix, cs, t);
    } else {
      MixedRuns.LeakyBound(site.prefix, t, rule, cs, ds);
      EarnedGrows(Last(ds).now - ds[0].now, Last(stretch).now - stretch[0].now, rate);
    }
  }

  /** Likewise at most `m * min(limit, window)` in any window for a sliding window rule whose key is touched at
      most `m` times in any millisecond. */
  lemma SlidingBound(site: Site, s: System, before: seq<Event>, stretch: seq<Event>, t: Triple, rule: Rule, m: nat)
    requires Regular(site, s, before, stretch, t, rule) && t.algo.SlidingWindow? && (before + stretch)[0].now >= 0
    requires var cs := Calls(site, s, [], before, t) + Calls(site, s, before, stretch, t);
      S.AtMostPerMs(RuleMachines.OwnTimes(site.prefix, cs, t), m)
    requires Last(stretch).now - stretch[0].now < rule.windowMs
    ensures AllowedIn(site, s, before, stretch, t) <= m * Smaller(rule.limit, rule.windowMs)
  {
    hide Calls, AllowedIn, MixedRuns.Granted, OneRule, MixedRuns.Fits, Onward, RuleMachines.OwnTimes, S.AtMostPerMs;
    var cs, ds := Calls(site, s, [], before, t), Calls(site, s, before, stretch, t);
    AllowedIsGranted(site, s, before, stretch, t, rule);
    CallsAreRegular(site, s, before, stretch, t, rule);
    if ds == [] {
      NoneGranted(site.prefix, cs, t);
      Scale(m, 0, Smaller(rule.limit, rule.windowMs));
    } else {
      MixedRuns.SlidingBound(site.prefix, t, rule, cs, ds, m);
    }
  }

  lemma PositiveRate(rule: Rule)
    requires Limiters.Runs(rule)
    ensures rule.limit as real / rule.windowMs as real > 0.0 && Limiters.QueueSize(rule) > 0
  {
  }

  lemma NoneGranted(prefix: string, cs: seq<Call>, t: Triple)
    ensures MixedRuns.Granted(prefix, cs, [], t) == 0
  {
  }
}
