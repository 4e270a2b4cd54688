/** Bans on the level of whole engine requests: an address is banned only after its requests were often
    enough told that they are over a limit. */
module EngineBans {
  import opened Basics
  import opened Config
  import opened RedisStore
  import opened Engine
  import opened EngineRuns
  import opened EngineVerdict
  import opened LimiterRuns
  import opened IPList

  /** The refusal of a limiter, free of errors. */
  ghost predicate OverLimit(o: Outcome) {
    o.err.None? && o.dec.err.None? && !o.dec.allowed && o.dec.reason == "rate_limited"
  }

  /** A request of an address that is refused as over a limit. */
  ghost predicate Limited(site: Site, s: System, e: Event, a: string) {
    && e.Visit? && e.node < |s.caches| && EnvOf(site, e).Ip() == a
    && OverLimit(Allow(EnvOf(site, e), WorldAt(s, e), e.rules))
  }

  /** How many requests of an address are refused as over a limit in a closed stretch of time. */
  ghost function LimitedWithin(site: Site, s: System, es: seq<Event>, a: string, from: int, to: int): nat {
    if es == [] then 0
    else
      var limited := Limited(site, Run(site, s, Front(es)), Last(es), a) && from <= Last(es).now <= to;
      LimitedWithin(site, s, Front(es), a, from, to) + if limited then 1 else 0
  }

  // ---------------------------------------------------------------- what a request does to counters and bans

  /** The address's counter was incremented. */
  ghost predicate Counted(prefix: string, before: Db, after: Db, a: string, now: int) {
    var hot := KeyHot(prefix, a);
    && CountOrMissing(before, hot, now)
    && EntryAt(after, hot) == Some(Incremented(before, hot, now, Defaults(prefix).hotWindow))
  }

  ghost predicate Full(prefix: string, db: Db, a: string) {
    var hot := KeyHot(prefix, a);
    hot in db && db[hot].value.Count? && db[hot].value.n >= Defaults(prefix).hotThreshold
  }

  /** The counter changes only by an increment for a refused request of the address, and the ban is written only
      together with an increment that makes the counter full. */
  ghost predicate Moves(prefix: string, before: Db, after: Db, a: string, now: int, limited: bool) {
    && (SameAt(KeyHot(prefix, a), after, before) || (limited && Counted(prefix, before, after, a, now)))
    && (SameAt(KeyBan(prefix, a), after, before)
        || (limited && Counted(prefix, before, after, a, now) && Full(prefix, after, a)))
  }

  lemma MovesFrom(prefix: string, before: Db, same: Db, after: Db, a: string, now: int, limited: bool)
    requires Moves(prefix, before, same, a, now, false) && Moves(prefix, same, after, a, now, limited)
    ensures Moves(prefix, before, after, a, now, limited)
  {
    hide KeyHot, KeyBan, Full;
  }

  lemma RecordMoves(s: Settings, cache: LocalCache, db: Db, down: set<string>, ip: string, a: string, now: int)
    requires s == Defaults(s.prefix)
    ensures Moves(s.prefix, db, Record(s, cache, db, down, ip, now).db, a, now, a == ip)
  {
    hide KeyHot, KeyBan, TempKey;
    SharedKeysDistinct(s.prefix, a, ip);
    SharedKeysDistinct(s.prefix, ip, a);
    SharedKeysDistinct(s.prefix, ip, ip);
  }

  lemma ServedShape(env: Env, db: Db, rule: Rule)
    requires RuleKey(env, rule).Some?
    ensures var r := ServeRule(env, db, rule);
      r.err.None? && !r.dec.allowed ==> r.dec.err.None? && r.dec.reason == "rate_limited"
  {
    hide RuleKey, HashAt, ScoresAt, Limiters.TokenMeter, Limiters.LeakyDrain, Limiters.SlidingSpan;
  }

  lemma LimiterMovesNothing(env: Env, db: Db, rule: Rule, a: string)
    requires RuleKey(env, rule).Some?
    ensures Moves(env.prefix, db, ServeRule(env, db, rule).db, a, env.now, false)
  {
    var t := TripleOf(env, rule).value;
    KeyIsOf(env, rule);
    RuleCallTouchesOneKey(env, db, rule);
    LimiterKeysStandApart(env.prefix, t.algo, t.ruleId, t.dimKey, a);
    var after, key := ServeRule(env, db, rule).db, KeyOf(env.prefix, t);
    Outside(after, db, key, KeyHot(env.prefix, a));
    Outside(after, db, key, KeyBan(env.prefix, a));
  }

  lemma ChargeMoves(env: Env, w: World, rule: Rule, a: string)
    requires env.settings == Defaults(env.prefix)
    ensures var o := ChargeRule(env, w, rule);
      Moves(env.prefix, w.db, o.world.db, a, env.now, env.Ip() == a && OverLimit(o))
  {
    if Reaches(env, rule) {
      ServedShape(env, w.db, rule);
      LimiterMovesNothing(env, w.db, rule, a);
      var served := ServeRule(env, w.db, rule);
      RecordMoves(env.settings, w.cache, served.db, env.down, env.Ip(), a, env.now);
      hide Limiters.ServeBy, Record, Moves, RuleKey;
      if served.err.None? && !served.dec.allowed && env.Ip() != "" {
        MovesFrom(env.prefix, w.db, served.db, ChargeRule(env, w, rule).world.db, a, env.now, env.Ip() == a);
      } else {
        Widened(env.prefix, w.db, ChargeRule(env, w, rule).world.db, a, env.now, env.Ip() == a);
      }
    } else {
      UnreachedFails(env, w, rule);
    }
  }

  lemma Widened(prefix: string, before: Db, after: Db, a: string, now: int, limited: bool)
    requires Moves(prefix, before, after, a, now, false)
    ensures Moves(prefix, before, after, a, now, limited)
  {
  }

  lemma {:induction false} LoopMoves(env: Env, w: World, rules: seq<Rule>, tally: Tally, only: bool, a: string)
    requires env.settings == Defaults(env.prefix)
    ensures var o := ChargeRules(env, w, rules, tally, only);
      Moves(env.prefix, w.db, o.world.db, a, env.now, env.Ip() == a && OverLimit(o))
    decreases |rules|
  {
    ChargeRulesStep(env, w, rules, tally, only);
    hide ChargeRule, ChargeRules;
    if rules != [] {
      if !rules[0].enabled {
        LoopMoves(env, w, rules[1..], tally, only, a);
      } else {
        var o := ChargeRule(env, w, rules[0]);
        ChargeMoves(env, w, rules[0], a);
        LoopMoves(env, o.world, rules[1..], tally.(anyError := true, anyRule := true), only, a);
        LoopMoves(env, o.world, rules[1..], Note(tally, o.dec.remaining), only, a);
        var end := ChargeRules(env, w, rules, tally, only);
        if o.err.Some? || o.dec.allowed {
          MovesFrom(env.prefix, w.db, o.world.db, end.world.db, a, env.now, env.Ip() == a && OverLimit(end));
        }
      }
    }
  }

  lemma EventMoves(site: Site, s: System, e: Event, a: string)
    ensures Moves(site.prefix, Live(s.db, e.now), Next(site, s, e).db, a, e.now, Limited(site, s, e, a))
  {
    hide KeyHot, KeyBan, KeyBlacklist, KeyWhitelist, ChargeRules, Check, Allow;
    match e
    case Visit(now, node, dims, rules, down) =>
      if node < |s.caches| {
        var env, w := EnvOf(site, e), WorldAt(s, e);
        VisitIsLoop(env, w, rules);
        LoopMoves(env, AfterLists(env, w), rules, Start(env), |rules| == 1, a);
      }
    case Told(_, node) =>
    case Listed(_, black, white) =>
      SharedKeysDistinct(site.prefix, a, a);
  }

  // ---------------------------------------------------------------- counters are backed

  /** The counter of an address is backed by as many refused requests inside the counter's own window, which
      began no later than the last event. */
  ghost predicate Backed(site: Site, s: System, es: seq<Event>, a: string) {
    var db, hot, window := Run(site, s, es).db, KeyHot(site.prefix, a), Defaults(site.prefix).hotWindow;
    hot in db ==>
      && es != [] && db[hot].value.Count? && db[hot].expireAt.Some?
      && var end := db[hot].expireAt.value;
         end - window <= Last(es).now && db[hot].value.n <= LimitedWithin(site, s, es, a, end - window, end)
  }

  lemma OneMoreEvent(site: Site, s: System, es: seq<Event>, e: Event, a: string, from: int, to: int)
    ensures var limited := Limited(site, Run(site, s, es), e, a) && from <= e.now <= to;
      LimitedWithin(site, s, es + [e], a, from, to)
        == LimitedWithin(site, s, es, a, from, to) + if limited then 1 else 0
  {
    hide Run, Limited;
    assert Front(es + [e]) == es;
  }

  lemma StepBacked(site: Site, s: System, es: seq<Event>, e: Event, a: string)
    requires Backed(site, s, es, a) && (es != [] ==> Last(es).now <= e.now)
    ensures Backed(site, s, es + [e], a)
  {
    hide Run, Limited, LimitedWithin, KeyHot, KeyBan, Next, Full;
    var db, hot, window := Run(site, s, es + [e]).db, KeyHot(site.prefix, a), Defaults(site.prefix).hotWindow;
    EventMoves(site, Run(site, s, es), e, a);
    RunOn(site, s, es, e);
    if hot in db && db[hot].expireAt.Some? {
      var end := db[hot].expireAt.value;
      OneMoreEvent(site, s, es, e, a, end - window, end);
    }
  }

  lemma RunOn(site: Site, s: System, es: seq<Event>, e: Event)
    ensures Run(site, s, es + [e]) == Next(site, Run(site, s, es), e)
  {
    hide Next;
    assert Front(es + [e]) == es;
  }

  lemma NothingBacked(site: Site, s: System, a: string)
    requires KeyHot(site.prefix, a) !in s.db
    ensures Backed(site, s, [], a)
  {
    hide KeyHot;
  }

  lemma {:induction false} RunBacked(site: Site, s: System, es: seq<Event>, a: string)
    requires Forwards(es) && KeyHot(site.prefix, a) !in s.db
    ensures Backed(site, s, es, a)
  {
    hide Backed;
    if es == [] {
      NothingBacked(site, s, a);
    } else {
      RunBacked(site, s, Front(es), a);
      StepBacked(site, s, Front(es), Last(es), a);
      assert Front(es) + [Last(es)] == es;
    }
  }

  /** Whenever the ban of an address is written, at least ten requests of that address, this one among them, were
      refused as over a limit within one minute that is still running: in every run of whole requests, on any
      number of nodes, that starts without the address's counter. */
  lemma BansAreEarned(site: Site, s: System, es: seq<Event>, e: Event, a: string) returns (from: int)
    requires Forwards(es + [e]) && KeyHot(site.prefix, a) !in s.db
    requires !SameAt(KeyBan(site.prefix, a), Next(site, Run(site, s, es), e).db, Live(Run(site, s, es).db, e.now))
    ensures Limited(site, Run(site, s, es), e, a)
    ensures from <= e.now <= from + 60_000
    ensures LimitedWithin(site, s, es + [e], a, from, from + 60_000) >= 10
  {
    hide Run, Limited, LimitedWithin, KeyHot, KeyBan, Next;
    RunBacked(site, s, es + [e], a);
    EventMoves(site, Run(site, s, es), e, a);
    RunOn(site, s, es, e);
    from := Run(site, s, es + [e]).db[KeyHot(site.prefix, a)].expireAt.value - Defaults(site.prefix).hotWindow;
  }

  // ---------------------------------------------------------------- and every full counter bans

  lemma ListsNeverLimit(s: Settings, cache: LocalCache, db: Db, down: set<string>, ip: string, now: int)
    ensures Check(s, cache, db, down, ip, now).dec.reason != "rate_limited"
  {
    hide TempKey, BlackKey, WhiteKey, KeyBan, KeyBlacklist, KeyWhitelist, InSet, Exists, NamesOrMissing, Fresh, Touched;
    assert "rate_limited"[0] == 'r' && "temp_blacklist_check_failed"[0] == 't' && "blacklist_check_failed"[0] == 'b';
    assert "whitelist_check_failed"[0] == 'w' && "ip_in_temp_blacklist_l1"[0] == 'i';
    assert "ip_in_temp_blacklist_l2"[0] == 'i' && "ip_in_blacklist_l1"[0] == 'i' && "ip_in_blacklist_l2"[0] == 'i';
    assert "ip_in_whitelist_l1"[0] == 'i' && "ip_in_whitelist_l2"[0] == 'i';
  }

  /** A refused request was left to the rules. */
  lemma LimitedByRules(site: Site, s: System, e: Event, a: string)
    requires Limited(site, s, e, a)
    ensures NoListVerdict(EnvOf(site, e), WorldAt(s, e)) && e.rules != []
  {
    var env, w := EnvOf(site, e), WorldAt(s, e);
    ListsNeverLimit(env.settings, w.cache, w.db, env.down, env.Ip(), env.now);
    hide Check, ChargeRules;
    assert "rate_limited"[0] == 'r' && "no_rules"[0] == 'n';
  }

  /** What a refused request leaves: its denial, recorded on a store whose counter and ban it has not touched. */
  ghost predicate Records(env: Env, w: World, after: World, db: Db, a: string) {
    && SameAt(KeyHot(env.prefix, a), db, w.db) && SameAt(KeyBan(env.prefix, a), db, w.db) && env.settings.Valid()
    && var r := Record(env.settings, w.cache, db, env.down, a, env.now); after == World(r.db, r.cache)
  }

  lemma ChargeRecords(env: Env, w: World, rule: Rule, a: string) returns (db: Db)
    requires env.settings == Defaults(env.prefix) && env.Ip() == a != "" && env.connected
    ensures var o := ChargeRule(env, w, rule);
      && (o.err.None? && !o.dec.allowed ==> Records(env, w, o.world, db, a))
      && (o.err.Some? || o.dec.allowed ==>
            SameAt(KeyHot(env.prefix, a), o.world.db, w.db) && SameAt(KeyBan(env.prefix, a), o.world.db, w.db)
            && o.world.cache == w.cache)
  {
    hide KeyHot, KeyBan, Record, RuleKey;
    db := w.db;
    if Reaches(env, rule) {
      LimiterMovesNothing(env, w.db, rule, a);
      db := ServeRule(env, w.db, rule).db;
      hide Limiters.ServeBy;
    } else {
      UnreachedFails(env, w, rule);
    }
  }

  lemma {:induction false} LoopRecords(env: Env, w: World, rules: seq<Rule>, tally: Tally, only: bool, a: string)
    returns (db: Db)
    requires env.settings == Defaults(env.prefix) && env.Ip() == a != "" && env.connected
    requires OverLimit(ChargeRules(env, w, rules, tally, only))
    ensures Records(env, w, ChargeRules(env, w, rules, tally, only).world, db, a)
    decreases |rules|
  {
    hide ChargeRule, ChargeRules, Record, KeyHot, KeyBan;
    ChargeRulesStep(env, w, rules, tally, only);
    if rules == [] {
      assert false;
    } else if !rules[0].enabled {
      db := LoopRecords(env, w, rules[1..], tally, only, a);
    } else {
      var o := ChargeRule(env, w, rules[0]);
      db := ChargeRecords(env, w, rules[0], a);
      if o.err.Some? {
        db := LoopRecords(env, o.world, rules[1..], tally.(anyError := true, anyRule := true), only, a);
      } else if o.dec.allowed {
        db := LoopRecords(env, o.world, rules[1..], Note(tally, o.dec.remaining), only, a);
      }
    }
  }

  /** How many denials the counter of an address shows. */
  function Shown(prefix: string, db: Db, a: string, now: int): int {
    match Get(db, KeyHot(prefix, a), now)
    case Some(Count(n)) => n
    case _ => 0
  }

  /** A refused request whose counter can be reached adds one to it; the one that makes ten, or more, writes the
      ban for ten minutes, and an earlier one does not. */
  lemma RefusalCounts(site: Site, s: System, e: Event, a: string)
    requires Limited(site, s, e, a) && a != "" && KeyHot(site.prefix, a) !in e.down
    requires CountOrMissing(s.db, KeyHot(site.prefix, a), e.now)
    ensures var after, n := Next(site, s, e).db, Shown(site.prefix, s.db, a, e.now);
      var hot, ban := KeyHot(site.prefix, a), KeyBan(site.prefix, a);
      && hot in after && after[hot].value == Count(n + 1)
      && (Get(s.db, hot, e.now).None? ==> after[hot].expireAt == Some(e.now + 60_000))
      && (Get(s.db, hot, e.now).Some? ==> hot in s.db && after[hot].expireAt == s.db[hot].expireAt)
      && (n + 1 >= 10 ==> ban in after && after[ban] == Entry(Count(1), Some(e.now + 600_000)))
      && (n + 1 < 10 ==> SameAt(ban, after, Live(s.db, e.now)))
  {
    var env, w := EnvOf(site, e), WorldAt(s, e);
    var hot, ban := KeyHot(site.prefix, a), KeyBan(site.prefix, a);
    LimitedByRules(site, s, e, a);
    VisitIsLoop(env, w, e.rules);
    hide ChargeRules, Check, Allow, KeyHot, KeyBan, TempKey, Record, NoListVerdict, AfterLists, Limited;
    OpenAndReached(site, s, e, a);
    var db := LoopRecords(env, AfterLists(env, w), e.rules, Start(env), |e.rules| == 1, a);
    BansIff(env.settings, AfterLists(env, w).cache, db, env.down, a, env.now);
    ExpiryUnseen(s.db, hot, e.now);
    RecordedBan(env, AfterLists(env, w).cache, db, a);
  }

  lemma RecordedBan(env: Env, cache: LocalCache, db: Db, a: string)
    requires env.settings.Valid()
    ensures var r := Record(env.settings, cache, db, env.down, a, env.now);
      !r.banned ==> SameAt(KeyBan(env.settings.prefix, a), r.db, db)
  {
    hide KeyHot, KeyBan, TempKey;
    SharedKeysDistinct(env.settings.prefix, a, a);
  }

  lemma OpenAndReached(site: Site, s: System, e: Event, a: string)
    requires Limited(site, s, e, a) && a != "" && NoListVerdict(EnvOf(site, e), WorldAt(s, e))
    ensures var env, w := EnvOf(site, e), WorldAt(s, e);
      && KeyBan(site.prefix, a) !in e.down && Get(w.db, KeyBan(site.prefix, a), e.now).None?
      && !Says(AfterLists(env, w).cache, TempKey(a), true, e.now)
      && OverLimit(Allow(env, w, e.rules)) && env.Ip() == a
      && Next(site, s, e).db == Allow(env, w, e.rules).world.db
  {
    hide Allow, KeyBan, KeyHot, KeyBlacklist, KeyWhitelist, TempKey, BlackKey, WhiteKey;
    LocalKeysDistinct(a, a);
  }

  /** A ban that is in force stays as it is until it runs out: no request of the address reaches the limiters. */
  lemma BanStays(site: Site, s: System, e: Event, a: string, until: int)
    requires a != "" && e.now <= until
    requires KeyBan(site.prefix, a) in s.db && s.db[KeyBan(site.prefix, a)].expireAt == Some(until)
    ensures SameAt(KeyBan(site.prefix, a), Next(site, s, e).db, s.db)
    ensures e.Visit? && e.node < |s.caches| && EnvOf(site, e).Ip() == a && e.rules != [] ==>
      !Allow(EnvOf(site, e), WorldAt(s, e), e.rules).dec.allowed
  {
    hide KeyBan, KeyHot, Limited, NoListVerdict, Check, ChargeRules;
    EventMoves(site, s, e, a);
    if e.Visit? && e.node < |s.caches| && EnvOf(site, e).Ip() == a {
      var env, w := EnvOf(site, e), WorldAt(s, e);
      NeverHidesABan(env.settings, w.cache, w.db, env.down, a, e.now);
      ListsHandle(env, w);
      if Limited(site, s, e, a) {
        LimitedByRules(site, s, e, a);
      }
    }
    NotLimited(site, s, e, a);
  }

  lemma ListsHandle(env: Env, w: World)
    ensures NoListVerdict(env, w) && env.Ip() != "" && env.connected ==>
      !Check(env.settings, w.cache, w.db, env.down, env.Ip(), env.now).handled
  {
    hide Check;
  }

  lemma NotLimited(site: Site, s: System, e: Event, a: string)
    ensures Limited(site, s, e, a) ==> e.Visit? && e.node < |s.caches| && EnvOf(site, e).Ip() == a
  {
    hide Allow;
  }

  lemma {:induction false} BanLasts(site: Site, s: System, es: seq<Event>, a: string, until: int)
    requires a != "" && forall e <- es :: e.now <= until
    requires KeyBan(site.prefix, a) in s.db && s.db[KeyBan(site.prefix, a)].expireAt == Some(until)
    ensures SameAt(KeyBan(site.prefix, a), Run(site, s, es).db, s.db)
  {
    hide KeyBan, Next;
    if es != [] {
      assert Last(es) in es && forall e <- Front(es) :: e in es;
      BanLasts(site, s, Front(es), a, until);
      BanStays(site, Run(site, s, Front(es)), Last(es), a, until);
    }
  }

  /** The tenth refusal of an address within a counter's minute bans it: for the next ten minutes, on every node,
      whatever happens meanwhile, every request of the address is refused. */
  lemma TenthIsBanned(site: Site, s: System, e: Event, later: seq<Event>, q: Event, a: string)
    requires Limited(site, s, e, a) && a != "" && KeyHot(site.prefix, a) !in e.down
    requires CountOrMissing(s.db, KeyHot(site.prefix, a), e.now) && Shown(site.prefix, s.db, a, e.now) >= 9
    requires forall x <- later + [q] :: x.now <= e.now + 600_000
    requires q.Visit? && q.node < |s.caches| && EnvOf(site, q).Ip() == a && q.rules != []
    ensures var t := Run(site, Next(site, s, e), later); !Allow(EnvOf(site, q), WorldAt(t, q), q.rules).dec.allowed
  {
    hide KeyBan, KeyHot, Limited, Next, Allow, Shown, Run;
    RefusalCounts(site, s, e, a);
    assert q in later + [q] && forall x <- later :: x in later + [q];
    BanLasts(site, Next(site, s, e), later, a, e.now + 600_000);
    BanStays(site, Run(site, Next(site, s, e), later), q, a, e.now + 600_000);
  }
}
