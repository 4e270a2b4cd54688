/** Black and white lists with a local cache in front of Redis, and bans earned by denials. */
module IPList {
  import opened Basics
  import opened Config
  import opened RedisStore

  datatype CacheEntry = CacheEntry(value: bool, expiresAt: int)

  type LocalCache = map<string, CacheEntry>

  /** The settings `NewIPListCache` fixes; times in milliseconds. */
  datatype Settings = Settings(
    prefix: string,
    defaultTtl: int,
    hotThreshold: int,
    hotWindow: int,
    blacklistTtl: int)
  {
    predicate Valid() {
      defaultTtl > 0 && hotThreshold > 0 && hotWindow > 0 && blacklistTtl > 0
    }
  }

  function Defaults(prefix: string): Settings {
    Settings(prefix, 300_000, 10, 60_000, 600_000)
  }

  // ---------------------------------------------------------------- keys

  function TempKey(ip: string): string { ip + ":black_tmp" }

  function BlackKey(ip: string): string { ip + ":black" }

  function WhiteKey(ip: string): string { ip + ":white" }

  function KeyBlacklist(prefix: string): string { prefix + ":blacklist:ip" }

  function KeyWhitelist(prefix: string): string { prefix + ":whitelist:ip" }

  function KeyHot(prefix: string, ip: string): string { prefix + ":hot:ip:" + ip }

  function KeyBan(prefix: string, ip: string): string { prefix + ":blacklist:ip:tmp:" + ip }

  /** Local keys never alias, across addresses or across lists. */
  lemma LocalKeysDistinct(a: string, b: string)
    ensures TempKey(a) == TempKey(b) ==> a == b
    ensures BlackKey(a) == BlackKey(b) ==> a == b
    ensures WhiteKey(a) == WhiteKey(b) ==> a == b
    ensures TempKey(a) != BlackKey(b) && TempKey(a) != WhiteKey(b) && BlackKey(a) != WhiteKey(b)
  {
    SuffixCancels(a, b, ":black_tmp");
    SuffixCancels(a, b, ":black");
    SuffixCancels(a, b, ":white");
    assert Last(TempKey(a)) == 'p' && Last(BlackKey(b)) == 'k' && Last(WhiteKey(b)) == 'e' && Last(BlackKey(a)) == 'k';
  }

  lemma SuffixCancels(a: string, b: string, suffix: string)
    ensures a + suffix == b + suffix ==> a == b
  {
    if a + suffix == b + suffix {
      assert a == (a + suffix)[..|a|] && b == (b + suffix)[..|b|];
    }
  }

  lemma PrefixCancels(prefix: string, a: string, b: string)
    ensures prefix + a == prefix + b ==> a == b
  {
    if prefix + a == prefix + b {
      assert a == (prefix + a)[|prefix|..] && b == (prefix + b)[|prefix|..];
    }
  }

  /** Neither do the Redis keys of counters, bans and lists. */
  lemma SharedKeysDistinct(prefix: string, a: string, b: string)
    ensures KeyHot(prefix, a) == KeyHot(prefix, b) ==> a == b
    ensures KeyBan(prefix, a) == KeyBan(prefix, b) ==> a == b
    ensures KeyHot(prefix, a) != KeyBan(prefix, b)
    ensures KeyHot(prefix, a) != KeyBlacklist(prefix) && KeyHot(prefix, a) != KeyWhitelist(prefix)
    ensures KeyBan(prefix, a) != KeyBlacklist(prefix) && KeyBan(prefix, a) != KeyWhitelist(prefix)
    ensures KeyBlacklist(prefix) != KeyWhitelist(prefix)
  {
    PrefixCancels(prefix + ":hot:ip:", a, b);
    PrefixCancels(prefix + ":blacklist:ip:tmp:", a, b);
    var n := |prefix|;
    assert KeyHot(prefix, a)[n + 1] == 'h' && KeyBan(prefix, b)[n + 1] == 'b' && KeyBan(prefix, a)[n + 1] == 'b';
    assert KeyBlacklist(prefix)[n + 1] == 'b' && KeyWhitelist(prefix)[n + 1] == 'w';
    assert |KeyBan(prefix, a)| > |KeyBlacklist(prefix)|;
  }

  // ---------------------------------------------------------------- Redis commands

  predicate Exists(db: Db, key: string, now: int) {
    Get(db, key, now).Some?
  }

  predicate NamesOrMissing(db: Db, key: string, now: int) {
    var v := Get(db, key, now);
    v.Some? ==> v.value.Names?
  }

  predicate InSet(db: Db, key: string, now: int, member: string) {
    var v := Get(db, key, now);
    v.Some? && v.value.Names? && member in v.value.names
  }

  predicate CountOrMissing(db: Db, key: string, now: int) {
    var v := Get(db, key, now);
    v.Some? ==> v.value.Count?
  }

  /** `incrExpireScript`: the counter's life starts at its first increment and is never extended. */
  function Incremented(db: Db, key: string, now: int, ttl: int): (e: Entry)
    requires CountOrMissing(db, key, now)
    ensures e.value.Count?
  {
    match Get(db, key, now)
    case None => Entry(Count(1), Some(now + if ttl <= 0 then 1 else ttl))
    case Some(v) => Entry(Count(v.n + 1), db[key].expireAt)
  }

  // ---------------------------------------------------------------- the cache

  function Fresh(cache: LocalCache, key: string, now: int): Option<bool> {
    if key in cache && now <= cache[key].expiresAt then Some(cache[key].value) else None
  }

  /** `get` drops an entry it finds expired. */
  function Touched(cache: LocalCache, key: string, now: int): LocalCache {
    if key in cache && now > cache[key].expiresAt then cache - {key} else cache
  }

  datatype Checked = Checked(cache: LocalCache, dec: Decision, handled: bool)

  function Deny(cache: LocalCache, reason: string, err: Option<string>): Checked {
    Checked(cache, Refusal(reason, err), true)
  }

  const UNDECIDED := Decision(false, 0, 0, "", None)

  /** What `CheckIP` answers and leaves in the cache. */
  function Check(s: Settings, cache: LocalCache, db: Db, down: set<string>, ip: string, now: int): Checked {
    if ip == "" then Checked(cache, UNDECIDED, false)
    else if Fresh(cache, TempKey(ip), now) == Some(true) then Deny(cache, "ip_in_temp_blacklist_l1", None)
    else
      var c := Touched(cache, TempKey(ip), now);
      if KeyBan(s.prefix, ip) in down then Deny(c, "temp_blacklist_check_failed", Some(UNAVAILABLE))
      else if Exists(db, KeyBan(s.prefix, ip), now) then
        Deny(c[TempKey(ip) := CacheEntry(true, now + s.blacklistTtl)], "ip_in_temp_blacklist_l2", None)
      else CheckBlack(s, c, db, down, ip, now)
  }

  function CheckBlack(s: Settings, cache: LocalCache, db: Db, down: set<string>, ip: string, now: int): Checked {
    if Fresh(cache, BlackKey(ip), now) == Some(true) then Deny(cache, "ip_in_blacklist_l1", None)
    else
      var c := Touched(cache, BlackKey(ip), now);
      if KeyBlacklist(s.prefix) in down then Deny(c, "blacklist_check_failed", Some(UNAVAILABLE))
      else if !NamesOrMissing(db, KeyBlacklist(s.prefix), now) then Deny(c, "blacklist_check_failed", Some(WRONG_TYPE))
      else if InSet(db, KeyBlacklist(s.prefix), now, ip) then
        Deny(c[BlackKey(ip) := CacheEntry(true, now + s.defaultTtl)], "ip_in_blacklist_l2", None)
      else CheckWhite(s, c, db, down, ip, now)
  }

  function CheckWhite(s: Settings, cache: LocalCache, db: Db, down: set<string>, ip: string, now: int): Checked {
    match Fresh(cache, WhiteKey(ip), now)
    case Some(true) => Checked(cache, Grant("ip_in_whitelist_l1"), true)
    case Some(false) => Checked(cache, UNDECIDED, false)
    case None =>
      var c := Touched(cache, WhiteKey(ip), now);
      if KeyWhitelist(s.prefix) in down then Deny(c, "whitelist_check_failed", Some(UNAVAILABLE))
      else if !NamesOrMissing(db, KeyWhitelist(s.prefix), now) then Deny(c, "whitelist_check_failed", Some(WRONG_TYPE))
      else
        var inWhite := InSet(db, KeyWhitelist(s.prefix), now, ip);
        var c' := c[WhiteKey(ip) := CacheEntry(inWhite, now + s.defaultTtl)];
        if inWhite then Checked(c', Grant("ip_in_whitelist_l2"), true) else Checked(c', UNDECIDED, false)
  }

  datatype Recorded = Recorded(cache: LocalCache, db: Db, counted: bool, banned: bool)

  /** What `RecordDeny` leaves behind; `banned` also means that the other caches are told. */
  function Record(s: Settings, cache: LocalCache, db: Db, down: set<string>, ip: string, now: int): Recorded
    requires s.Valid()
  {
    if ip == "" || Fresh(cache, TempKey(ip), now) == Some(true) then Recorded(cache, db, false, false)
    else
      var c, hot := Touched(cache, TempKey(ip), now), KeyHot(s.prefix, ip);
      if hot in down || !CountOrMissing(db, hot, now) then Recorded(c, db, false, false)
      else
        var e := Incremented(db, hot, now, s.hotWindow);
        var counted := db[hot := e];
        if e.value.n < s.hotThreshold || KeyBan(s.prefix, ip) in down then Recorded(c, counted, true, false)
        else Recorded(
          c[TempKey(ip) := CacheEntry(true, now + s.blacklistTtl)],
          counted[KeyBan(s.prefix, ip) := Entry(Count(1), Some(now + s.blacklistTtl))],
          true, true)
  }

  class IPListCache {
    const redis: Redis
    const settings: Settings
    var localCache: LocalCache

    constructor (redis: Redis, prefix: string)
      ensures this.redis == redis && settings == Settings(prefix, 300_000, 10, 60_000, 600_000) && localCache == map[]
    {
      this.redis := redis;
      this.settings := Defaults(prefix);
      this.localCache := map[];
    }

    method Lookup(key: string, now: int) returns (val: bool, ok: bool)
      modifies this`localCache
      ensures localCache == Touched(old(localCache), key, now)
      ensures key in localCache ==> now <= localCache[key].expiresAt && ok && val == localCache[key].value
      ensures Fresh(old(localCache), key, now) == if ok then Some(val) else None
    {
      if key in localCache {
        var entry := localCache[key];
        if now <= entry.expiresAt {
          return entry.value, true;
        }
        localCache := localCache - {key};
      }
      return false, false;
    }

    method SetWithTtl(key: string, value: bool, ttl: int, now: int)
      requires settings.Valid()
      modifies this`localCache
      ensures var life := if ttl <= 0 then settings.defaultTtl else ttl;
        localCache == old(localCache)[key := CacheEntry(value, now + life)]
    {
      var life := ttl;
      if life <= 0 {
        life := settings.defaultTtl;
      }
      localCache := localCache[key := CacheEntry(value, now + life)];
    }

    method CheckIP(ip: string, now: int) returns (dec: Decision, handled: bool)
      requires settings.Valid()
      modifies this`localCache
      ensures Checked(localCache, dec, handled) == Check(settings, old(localCache), redis.db, redis.down, ip, now)
    {
      if ip == "" {
        return UNDECIDED, false;
      }
      var val, ok := Lookup(TempKey(ip), now);
      if ok && val {
        return Refusal("ip_in_temp_blacklist_l1", None), true;
      }
      if KeyBan(settings.prefix, ip) in redis.down {
        return Refusal("temp_blacklist_check_failed", Some(UNAVAILABLE)), true;
      }
      if Exists(redis.db, KeyBan(settings.prefix, ip), now) {
        SetWithTtl(TempKey(ip), true, settings.blacklistTtl, now);
        return Refusal("ip_in_temp_blacklist_l2", None), true;
      }

      val, ok := Lookup(BlackKey(ip), now);
      if ok && val {
        return Refusal("ip_in_blacklist_l1", None), true;
      }
      if KeyBlacklist(settings.prefix) in redis.down {
        return Refusal("blacklist_check_failed", Some(UNAVAILABLE)), true;
      }
      if !NamesOrMissing(redis.db, KeyBlacklist(settings.prefix), now) {
        return Refusal("blacklist_check_failed", Some(WRONG_TYPE)), true;
      }
      if InSet(redis.db, KeyBlacklist(settings.prefix), now, ip) {
        SetWithTtl(BlackKey(ip), true, settings.defaultTtl, now);
        return Refusal("ip_in_blacklist_l2", None), true;
      }

      val, ok := Lookup(WhiteKey(ip), now);
      if ok {
        if val {
          return Grant("ip_in_whitelist_l1"), true;
        }
      } else {
        if KeyWhitelist(settings.prefix) in redis.down {
          return Refusal("whitelist_check_failed", Some(UNAVAILABLE)), true;
        }
        if !NamesOrMissing(redis.db, KeyWhitelist(settings.prefix), now) {
          return Refusal("whitelist_check_failed", Some(WRONG_TYPE)), true;
        }
        var inWhite := InSet(redis.db, KeyWhitelist(settings.prefix), now, ip);
        SetWithTtl(WhiteKey(ip), inWhite, settings.defaultTtl, now);
        if inWhite {
          return Grant("ip_in_whitelist_l2"), true;
        }
      }
      return UNDECIDED, false;
    }

    method RecordDeny(ip: string, now: int) returns (published: bool)
      requires settings.Valid()
      modifies this`localCache, redis`db
      ensures var r := Record(settings, old(localCache), old(redis.db), redis.down, ip, now);
        localCache == r.cache && redis.db == r.db && published == r.banned
    {
      if ip == "" {
        return false;
      }
      var val, ok := Lookup(TempKey(ip), now);
      if ok && val {
        return false;
      }
      var hot := KeyHot(settings.prefix, ip);
      if hot in redis.down || !CountOrMissing(redis.db, hot, now) {
        return false;
      }
      var e := Incremented(redis.db, hot, now, settings.hotWindow);
      redis.db := redis.db[hot := e];
      if e.value.n < settings.hotThreshold {
        return false;
      }
      if KeyBan(settings.prefix, ip) in redis.down {
        return false;
      }
      redis.db := redis.db[KeyBan(settings.prefix, ip) := Entry(Count(1), Some(now + settings.blacklistTtl))];
      SetWithTtl(TempKey(ip), true, settings.blacklistTtl, now);
      return true;
    }

    method Clear()
      modifies this`localCache
      ensures localCache == map[]
    {
      var keys := localCache.Keys;
      while keys != {}
        invariant localCache.Keys <= keys
        decreases keys
      {
        var key :| key in keys;
        localCache := localCache - {key};
        keys := keys - {key};
      }
      assert localCache.Keys == {};
    }
  }

  // ---------------------------------------------------------------- what the cache can hide

  predicate Banned(s: Settings, db: Db, ip: string, now: int) {
    Exists(db, KeyBan(s.prefix, ip), now) || InSet(db, KeyBlacklist(s.prefix), now, ip)
  }

  /** Whatever the local cache holds and whatever is unreachable, an address Redis currently bans or
      blacklists is denied. */
  lemma NeverHidesABan(s: Settings, cache: LocalCache, db: Db, down: set<string>, ip: string, now: int)
    requires ip != "" && Banned(s, db, ip, now)
    ensures var c := Check(s, cache, db, down, ip, now); c.handled && !c.dec.allowed
  {
  }

  /** Asking Redis for a member of a list fails when the list cannot be reached or is not a set. */
  predicate Unreadable(db: Db, down: set<string>, key: string, now: int) {
    key in down || !NamesOrMissing(db, key, now)
  }

  /** Any Redis failure met on the way is a denial, never an undecided answer: the answer is undecided
      or allowing only after the ban and both lists were read, the whitelist possibly from a fresh entry. */
  lemma FailuresDeny(s: Settings, cache: LocalCache, db: Db, down: set<string>, ip: string, now: int)
    ensures var c := Check(s, cache, db, down, ip, now);
      && (c.dec.err.Some? ==> c.handled && !c.dec.allowed)
      && (ip != "" && (!c.handled || c.dec.allowed) ==>
            && KeyBan(s.prefix, ip) !in down && !Unreadable(db, down, KeyBlacklist(s.prefix), now)
            && !Banned(s, db, ip, now)
            && (Unreadable(db, down, KeyWhitelist(s.prefix), now) ==> Fresh(cache, WhiteKey(ip), now).Some?))
  {
    LocalKeysDistinct(ip, ip);
  }

  /** An allowing answer comes from a fresh local entry or from Redis itself. */
  lemma AllowedIff(s: Settings, cache: LocalCache, db: Db, down: set<string>, ip: string, now: int)
    requires ip != ""
    ensures Check(s, cache, db, down, ip, now).dec.allowed <==>
      && Fresh(cache, TempKey(ip), now) != Some(true) && Fresh(cache, BlackKey(ip), now) != Some(true)
      && KeyBan(s.prefix, ip) !in down && KeyBlacklist(s.prefix) !in down
      && NamesOrMissing(db, KeyBlacklist(s.prefix), now) && !Banned(s, db, ip, now)
      && (if Fresh(cache, WhiteKey(ip), now).Some? then Fresh(cache, WhiteKey(ip), now).value
          else KeyWhitelist(s.prefix) !in down && InSet(db, KeyWhitelist(s.prefix), now, ip))
  {
    LocalKeysDistinct(ip, ip);
  }

  // ---------------------------------------------------------------- what the lists answer

  /** A local entry that says this and has not expired. */
  predicate Says(cache: LocalCache, key: string, value: bool, now: int) {
    key in cache && cache[key].value == value && now <= cache[key].expiresAt
  }

  /** A fresh local ban or blacklist entry, a ban or a blacklisting in Redis, or a list that had to be read and
      could not be. */
  predicate Barred(s: Settings, cache: LocalCache, db: Db, down: set<string>, ip: string, now: int) {
    var ban, black, white := KeyBan(s.prefix, ip), KeyBlacklist(s.prefix), KeyWhitelist(s.prefix);
    || Says(cache, TempKey(ip), true, now) || Says(cache, BlackKey(ip), true, now)
    || ban in down || Get(db, ban, now).Some?
    || black in down || (Get(db, black, now).Some? && !ReadsWithout(db, black, ip, now))
    || (!Says(cache, WhiteKey(ip), true, now) && !Says(cache, WhiteKey(ip), false, now)
        && (white in down || (Get(db, white, now).Some? && !Get(db, white, now).value.Names?)))
  }

  /** The key holds a set without the address. */
  predicate ReadsWithout(db: Db, key: string, ip: string, now: int) {
    var v := Get(db, key, now);
    v.Some? && v.value.Names? && ip !in v.value.names
  }

  /** A fresh local whitelist entry, or without one a whitelisting in Redis. */
  predicate Welcome(s: Settings, cache: LocalCache, db: Db, ip: string, now: int) {
    || Says(cache, WhiteKey(ip), true, now)
    || (!Says(cache, WhiteKey(ip), false, now)
        && var v := Get(db, KeyWhitelist(s.prefix), now); v.Some? && v.value.Names? && ip in v.value.names)
  }

  /** The three answers, read off the cache and the store: a denial of whoever is barred, an admission of whoever
      is welcome and not barred, and no answer about everybody else. */
  lemma ListsAnswer(s: Settings, cache: LocalCache, db: Db, down: set<string>, ip: string, now: int)
    requires ip != ""
    ensures var c := Check(s, cache, db, down, ip, now);
      && (c.handled && !c.dec.allowed <==> Barred(s, cache, db, down, ip, now))
      && (c.handled && c.dec.allowed <==>
            !Barred(s, cache, db, down, ip, now) && Welcome(s, cache, db, ip, now))
      && (!c.handled <==> !Barred(s, cache, db, down, ip, now) && !Welcome(s, cache, db, ip, now))
      && (!c.handled ==> c.dec == UNDECIDED)
  {
    hide TempKey, BlackKey, WhiteKey, KeyBan, KeyBlacklist, KeyWhitelist, Get;
    LocalKeysDistinct(ip, ip);
  }

  /** An answer taken from Redis holds locally for its lifetime, whatever becomes of Redis: a ban for
      `blacklistTtl`, a blacklisting for `defaultTtl`, and so does membership of the whitelist, either way, for
      an address that is not barred meanwhile. */
  lemma AnswersAreKept(s: Settings, cache: LocalCache, db: Db, down: set<string>, ip: string, now: int,
                       db': Db, down': set<string>, later: int)
    requires s.Valid() && ip != "" && now <= later
    ensures var kept := Check(s, cache, db, down, ip, now).cache;
      var reached := !Says(cache, TempKey(ip), true, now) && KeyBan(s.prefix, ip) !in down;
      var banned := Get(db, KeyBan(s.prefix, ip), now).Some?;
      var blackOpen := reached && !banned && !Says(cache, BlackKey(ip), true, now)
        && KeyBlacklist(s.prefix) !in down && NamesOrMissing(db, KeyBlacklist(s.prefix), now);
      var blacklisted := InSet(db, KeyBlacklist(s.prefix), now, ip);
      && (reached && banned && later <= now + s.blacklistTtl ==> Says(kept, TempKey(ip), true, later))
      && (blackOpen && blacklisted && later <= now + s.defaultTtl ==> Says(kept, BlackKey(ip), true, later))
      && (blackOpen && !blacklisted && later <= now + s.defaultTtl && KeyWhitelist(s.prefix) !in down
          && NamesOrMissing(db, KeyWhitelist(s.prefix), now) && Fresh(cache, WhiteKey(ip), now).None? ==>
            Says(kept, WhiteKey(ip), InSet(db, KeyWhitelist(s.prefix), now, ip), later))
  {
    hide TempKey, BlackKey, WhiteKey, KeyBan, KeyBlacklist, KeyWhitelist, InSet, NamesOrMissing, Get;
    LocalKeysDistinct(ip, ip);
  }

  // ---------------------------------------------------------------- when a denial counts, and when it bans

  /** A recorded denial counts if and only if the address is not known to be banned already and its counter can
      be reached; and it bans if and only if it counts, brings the counter to the threshold or beyond, and the
      ban can be written. */
  lemma BansIff(s: Settings, cache: LocalCache, db: Db, down: set<string>, ip: string, now: int)
    requires s.Valid() && ip != ""
    ensures var r, hot, ban := Record(s, cache, db, down, ip, now), KeyHot(s.prefix, ip), KeyBan(s.prefix, ip);
      var seen := Get(db, hot, now);
      && (r.counted <==>
            !Says(cache, TempKey(ip), true, now) && hot !in down && (seen.None? || seen.value.Count?))
      && (r.banned <==>
            r.counted && ban !in down && (if seen.None? then 1 else seen.value.n + 1) >= s.hotThreshold)
      && (r.counted && seen.None? ==> hot in r.db && r.db[hot] == Entry(Count(1), Some(now + s.hotWindow)))
      && (r.counted && seen.Some? ==> hot in r.db && r.db[hot] == Entry(Count(seen.value.n + 1), db[hot].expireAt))
      && (r.banned ==> ban in r.db && r.db[ban] == Entry(Count(1), Some(now + s.blacklistTtl)))
      && (r.banned ==> TempKey(ip) in r.cache && r.cache[TempKey(ip)] == CacheEntry(true, now + s.blacklistTtl))
  {
    hide TempKey, KeyHot, KeyBan;
    SharedKeysDistinct(s.prefix, ip, ip);
  }

  /** Denials of one address recorded one after the other, each with some node's cache. */
  datatype Sighting = Sighting(cache: LocalCache, now: int)

  function AllRecorded(s: Settings, db: Db, ns: seq<Sighting>, ip: string): Db
    requires s.Valid()
  {
    if ns == [] then db
    else Record(s, Last(ns).cache, AllRecorded(s, db, Front(ns), ip), {}, ip, Last(ns).now).db
  }

  /** On nodes that do not know of a ban, within one window of the first and with everything within reach. */
  ghost predicate InOneWindow(s: Settings, ns: seq<Sighting>, ip: string) {
    forall i | 0 <= i < |ns| ::
      !Says(ns[i].cache, TempKey(ip), true, ns[i].now) && ns[0].now <= ns[i].now <= ns[0].now + s.hotWindow
  }

  /** So many denials bring a missing counter to just that number; it runs out one window after the first. */
  lemma {:induction false} CounterCounts(s: Settings, db: Db, ns: seq<Sighting>, ip: string)
    requires s.Valid() && ip != "" && ns != [] && InOneWindow(s, ns, ip)
    requires Get(db, KeyHot(s.prefix, ip), ns[0].now).None?
    ensures EntryAt(AllRecorded(s, db, ns, ip), KeyHot(s.prefix, ip))
         == Some(Entry(Count(|ns|), Some(ns[0].now + s.hotWindow)))
  {
    var front, n := Front(ns), Last(ns);
    hide TempKey, KeyHot, KeyBan, Record;
    BansIff(s, n.cache, AllRecorded(s, db, front, ip), {}, ip, n.now);
    if front != [] {
      assert forall i | 0 <= i < |front| :: front[i] == ns[i];
      CounterCounts(s, db, front, ip);
    }
  }

  /** The denial that completes the threshold writes the ban, and not an earlier one. */
  lemma ThresholdBans(s: Settings, db: Db, ns: seq<Sighting>, n: Sighting, ip: string)
    requires s.Valid() && ip != "" && InOneWindow(s, ns + [n], ip)
    requires Get(db, KeyHot(s.prefix, ip), (ns + [n])[0].now).None?
    ensures Record(s, n.cache, AllRecorded(s, db, ns, ip), {}, ip, n.now).banned <==> |ns| + 1 >= s.hotThreshold
  {
    var all := ns + [n];
    hide TempKey, KeyHot, KeyBan, Record;
    assert all[|ns|] == n;
    BansIff(s, n.cache, AllRecorded(s, db, ns, ip), {}, ip, n.now);
    if ns != [] {
      assert forall i | 0 <= i < |ns| :: ns[i] == all[i];
      CounterCounts(s, db, ns, ip);
    }
  }
}
