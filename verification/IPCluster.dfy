/** Many service nodes, each with its own local cache, over one Redis. A Redis read and the local
    store that follows it are one instant. */
module IPCluster {
  import opened Basics
  import opened Config
  import opened RedisStore
  import opened IPList

  /** A counted denial of an address. */
  datatype Denial = Denial(ip: string, at: int)

  /** The lists as they stood at some instant. */
  datatype Moment = Moment(at: int, black: set<string>, white: set<string>)

  /** The nodes, the store and the clock, with what happened so far: the denials counted, the last
      ban written for each address, and the lists at every instant something happened. */
  datatype Cluster = Cluster(
    caches: seq<LocalCache>,
    db: Db,
    now: int,
    denials: seq<Denial>,
    lastBan: map<string, int>,
    moments: seq<Moment>)

  datatype Event =
    | Ask(node: nat, ip: string, down: set<string>)
    | Denied(node: nat, ip: string, down: set<string>)
    | Told(node: nat)
    | Listed(black: set<string>, white: set<string>)
    | Wait(ms: nat)

  function NamesAt(db: Db, key: string, now: int): set<string> {
    match Get(db, key, now)
    case Some(Names(names)) => names
    case _ => {}
  }

  function Present(s: Settings, db: Db, now: int): Moment {
    Moment(now, NamesAt(db, KeyBlacklist(s.prefix), now), NamesAt(db, KeyWhitelist(s.prefix), now))
  }

  function WithLists(s: Settings, db: Db, black: set<string>, white: set<string>): Db {
    db[KeyBlacklist(s.prefix) := Entry(Names(black), None)][KeyWhitelist(s.prefix) := Entry(Names(white), None)]
  }

  function Start(s: Settings, nodes: nat, black: set<string>, white: set<string>, now: int): Cluster {
    Cluster(seq(nodes, _ => map[]), WithLists(s, map[], black, white), now, [], map[], [])
  }

  function Next(s: Settings, c: Cluster, e: Event): (n: Cluster)
    requires s.Valid()
    ensures |n.caches| == |c.caches|
  {
    var seen := c.(moments := c.moments + [Present(s, c.db, c.now)]);
    match e
    case Ask(node, ip, down) =>
      if node >= |c.caches| then seen
      else seen.(caches := c.caches[node := Check(s, c.caches[node], c.db, down, ip, c.now).cache])
    case Denied(node, ip, down) =>
      if node >= |c.caches| then seen
      else
        var r := Record(s, c.caches[node], c.db, down, ip, c.now);
        seen.(caches := c.caches[node := r.cache], db := r.db,
              denials := if r.counted then c.denials + [Denial(ip, c.now)] else c.denials,
              lastBan := if r.banned then c.lastBan[ip := c.now] else c.lastBan)
    case Told(node) => if node >= |c.caches| then seen else seen.(caches := c.caches[node := map[]])
    case Listed(black, white) => seen.(db := WithLists(s, c.db, black, white))
    case Wait(ms) => seen.(now := c.now + ms)
  }

  function Run(s: Settings, c: Cluster, es: seq<Event>): (n: Cluster)
    requires s.Valid()
    ensures |n.caches| == |c.caches|
  {
    if es == [] then c else Next(s, Run(s, c, Front(es)), Last(es))
  }

  // ---------------------------------------------------------------- what every step keeps

  /** The counted denials of an address in a closed stretch of time. */
  function Within(denials: seq<Denial>, ip: string, from: int, to: int): set<int> {
    set i | 0 <= i < |denials| && denials[i].ip == ip && from <= denials[i].at <= to
  }

  predicate CounterEarned(s: Settings, c: Cluster, ip: string) {
    var hot := KeyHot(s.prefix, ip);
    hot in c.db ==>
      && c.db[hot].value.Count? && c.db[hot].expireAt.Some?
      && var end := c.db[hot].expireAt.value;
         c.db[hot].value.n <= |Within(c.denials, ip, end - s.hotWindow, end)|
         && end - s.hotWindow <= c.now
  }

  predicate BanDated(s: Settings, c: Cluster, ip: string) {
    && (ip in c.lastBan ==> c.lastBan[ip] <= c.now)
    && (KeyBan(s.prefix, ip) in c.db ==>
          ip in c.lastBan && c.db[KeyBan(s.prefix, ip)].expireAt == Some(c.lastBan[ip] + s.blacklistTtl))
  }

  predicate CachedBanDated(s: Settings, lastBan: map<string, int>, cache: LocalCache, ip: string) {
    TempKey(ip) in cache ==> ip in lastBan && cache[TempKey(ip)].expiresAt <= lastBan[ip] + 2 * s.blacklistTtl
  }

  ghost predicate WhiteAt(moments: seq<Moment>, at: int, ip: string, listed: bool) {
    exists m <- moments :: m.at == at && listed == (ip in m.white)
  }

  ghost predicate BlackAt(moments: seq<Moment>, at: int, ip: string) {
    exists m <- moments :: m.at == at && ip in m.black
  }

  /** Cached answers of the lists were true when their lifetime began. */
  ghost predicate CachedListsDated(s: Settings, moments: seq<Moment>, cache: LocalCache, ip: string) {
    && (WhiteKey(ip) in cache ==>
          var e := cache[WhiteKey(ip)]; WhiteAt(moments, e.expiresAt - s.defaultTtl, ip, e.value))
    && (BlackKey(ip) in cache ==>
          var e := cache[BlackKey(ip)]; e.value && BlackAt(moments, e.expiresAt - s.defaultTtl, ip))
  }

  ghost predicate CacheDated(s: Settings, c: Cluster, cache: LocalCache, ip: string) {
    CachedBanDated(s, c.lastBan, cache, ip) && CachedListsDated(s, c.moments, cache, ip)
  }

  ghost predicate Sound(s: Settings, c: Cluster) {
    && (forall ip :: CounterEarned(s, c, ip))
    && (forall ip :: BanDated(s, c, ip))
    && (forall cache <- c.caches, ip :: CacheDated(s, c, cache, ip))
  }

  lemma MomentsRemain(s: Settings, before: seq<Moment>, after: seq<Moment>, cache: LocalCache, ip: string)
    requires CachedListsDated(s, before, cache, ip) && forall m <- before :: m in after
    ensures CachedListsDated(s, after, cache, ip)
  {
    hide WhiteKey, BlackKey;
  }

  /** Where an entry a check of `ip` leaves comes from: it was there, or it is what was just read. */
  predicate Explained(s: Settings, before: LocalCache, after: LocalCache, db: Db, ip: string, now: int, k: string) {
    k in after ==>
      || (k in before && after[k] == before[k])
      || (k == TempKey(ip) && after[k] == CacheEntry(true, now + s.blacklistTtl)
          && Exists(db, KeyBan(s.prefix, ip), now))
      || (k == BlackKey(ip) && after[k] == CacheEntry(true, now + s.defaultTtl)
          && InSet(db, KeyBlacklist(s.prefix), now, ip))
      || (k == WhiteKey(ip) && after[k] == CacheEntry(InSet(db, KeyWhitelist(s.prefix), now, ip), now + s.defaultTtl))
  }

  lemma WhiteEffect(s: Settings, cache: LocalCache, db: Db, down: set<string>, ip: string, now: int, k: string)
    ensures Explained(s, cache, CheckWhite(s, cache, db, down, ip, now).cache, db, ip, now, k)
  {
    hide TempKey, BlackKey, WhiteKey, KeyBan, KeyWhitelist, InSet, Exists, NamesOrMissing;
  }

  lemma BlackEffect(s: Settings, cache: LocalCache, db: Db, down: set<string>, ip: string, now: int, k: string)
    ensures Explained(s, cache, CheckBlack(s, cache, db, down, ip, now).cache, db, ip, now, k)
  {
    WhiteEffect(s, Touched(cache, BlackKey(ip), now), db, down, ip, now, k);
    hide TempKey, BlackKey, WhiteKey, KeyBan, KeyWhitelist, KeyBlacklist, InSet, Exists, NamesOrMissing, CheckWhite;
  }

  lemma CheckEffect(s: Settings, cache: LocalCache, db: Db, down: set<string>, ip: string, now: int, k: string)
    ensures Explained(s, cache, Check(s, cache, db, down, ip, now).cache, db, ip, now, k)
  {
    BlackEffect(s, Touched(cache, TempKey(ip), now), db, down, ip, now, k);
    hide TempKey, BlackKey, WhiteKey, KeyBan, KeyWhitelist, InSet, Exists, CheckBlack;
  }

  /** What a check leaves in a cache is dated by the moment it is made. */
  lemma AskKeepsDates(s: Settings, c: Cluster, cache: LocalCache, ip: string, down: set<string>, a: string)
    requires s.Valid() && CacheDated(s, c, cache, a) && BanDated(s, c, a)
    ensures var after := Check(s, cache, c.db, down, ip, c.now).cache;
      && CachedBanDated(s, c.lastBan, after, a)
      && CachedListsDated(s, c.moments + [Present(s, c.db, c.now)], after, a)
  {
    hide Check, TempKey, BlackKey, WhiteKey, KeyBan, KeyWhitelist, KeyBlacklist;
    var moments, seen := c.moments + [Present(s, c.db, c.now)], Present(s, c.db, c.now);
    assert seen in moments;
    LocalKeysDistinct(a, ip);
    LocalKeysDistinct(ip, a);
    CheckEffect(s, cache, c.db, down, ip, c.now, TempKey(a));
    CheckEffect(s, cache, c.db, down, ip, c.now, WhiteKey(a));
    CheckEffect(s, cache, c.db, down, ip, c.now, BlackKey(a));
    MomentsRemain(s, c.moments, moments, cache, a);
  }

  lemma AskKeepsCaches(s: Settings, c: Cluster, node: nat, ip: string, down: set<string>)
    requires s.Valid() && Sound(s, c) && node < |c.caches|
    ensures Sound(s, Next(s, c, Ask(node, ip, down)))
  {
    hide Check, CounterEarned, BanDated, CachedBanDated, CachedListsDated;
    var c' := Next(s, c, Ask(node, ip, down));
    forall cache <- c'.caches, a
      ensures CacheDated(s, c', cache, a)
    {
      if cache in c.caches {
        assert CacheDated(s, c, cache, a);
        MomentsRemain(s, c.moments, c'.moments, cache, a);
      } else {
        assert cache == c'.caches[node] && CacheDated(s, c, c.caches[node], a) && BanDated(s, c, a);
        AskKeepsDates(s, c, c.caches[node], ip, down, a);
      }
    }
    forall a
      ensures CounterEarned(s, c', a) && BanDated(s, c', a)
    {
      assert CounterEarned(s, c, a) && BanDated(s, c, a);
      Unmoved(s, c, c', a);
    }
  }

  /** Counters and bans that are not written, while time passes, stay backed. */
  lemma Unmoved(s: Settings, c: Cluster, c': Cluster, a: string)
    requires CounterEarned(s, c, a) && BanDated(s, c, a) && c'.now >= c.now
    requires c'.denials == c.denials && c'.lastBan == c.lastBan
    requires EntryAt(c'.db, KeyHot(s.prefix, a)) == EntryAt(c.db, KeyHot(s.prefix, a))
    requires EntryAt(c'.db, KeyBan(s.prefix, a)) == EntryAt(c.db, KeyBan(s.prefix, a))
    ensures CounterEarned(s, c', a) && BanDated(s, c', a)
  {
    hide KeyHot, KeyBan, Within;
  }

  lemma WithinGrows(denials: seq<Denial>, d: Denial, ip: string, from: int, to: int)
    ensures var more := Within(denials + [d], ip, from, to);
      && |Within(denials, ip, from, to)| <= |more|
      && (d.ip == ip && from <= d.at <= to ==> |more| == |Within(denials, ip, from, to)| + 1)
  {
    var before, after := Within(denials, ip, from, to), Within(denials + [d], ip, from, to);
    if d.ip == ip && from <= d.at <= to {
      assert after == before + {|denials|};
    } else {
      assert after == before;
    }
  }

  /** The counter a denial leaves is backed by counted denials inside one hot window that is still
      running. */
  lemma CountedDenial(s: Settings, c: Cluster, ip: string)
    requires s.Valid() && CounterEarned(s, c, ip) && CountOrMissing(c.db, KeyHot(s.prefix, ip), c.now)
    ensures var e := Incremented(c.db, KeyHot(s.prefix, ip), c.now, s.hotWindow);
      && e.expireAt.Some? && e.expireAt.value - s.hotWindow <= c.now <= e.expireAt.value
      && e.value.n <= |Within(c.denials + [Denial(ip, c.now)], ip, e.expireAt.value - s.hotWindow, e.expireAt.value)|
  {
    var e := Incremented(c.db, KeyHot(s.prefix, ip), c.now, s.hotWindow);
    WithinGrows(c.denials, Denial(ip, c.now), ip, e.expireAt.value - s.hotWindow, e.expireAt.value);
  }

  /** An untouched counter stays backed when one more denial is counted. */
  lemma CounterCarried(s: Settings, c: Cluster, c': Cluster, d: Denial, a: string)
    requires CounterEarned(s, c, a) && c'.now == c.now
    requires c'.denials == c.denials || c'.denials == c.denials + [d]
    requires EntryAt(c'.db, KeyHot(s.prefix, a)) == EntryAt(c.db, KeyHot(s.prefix, a))
    ensures CounterEarned(s, c', a)
  {
    var hot := KeyHot(s.prefix, a);
    hide KeyHot, Within;
    if hot in c.db {
      var end := c.db[hot].expireAt.value;
      WithinGrows(c.denials, d, a, end - s.hotWindow, end);
    }
  }

  lemma DeniedKeepsCounter(s: Settings, c: Cluster, node: nat, ip: string, down: set<string>, a: string)
    requires s.Valid() && CounterEarned(s, c, ip) && CounterEarned(s, c, a) && node < |c.caches|
    ensures CounterEarned(s, Next(s, c, Denied(node, ip, down)), a)
  {
    hide KeyHot, KeyBan, Record, Present;
    var r, hot := Record(s, c.caches[node], c.db, down, ip, c.now), KeyHot(s.prefix, a);
    SharedKeysDistinct(s.prefix, a, ip);
    SharedKeysDistinct(s.prefix, ip, a);
    SharedKeysDistinct(s.prefix, ip, ip);
    RecordEffect(s, c.caches[node], c.db, down, ip, c.now);
    if r.counted && a == ip {
      CountedDenial(s, c, ip);
      hide Within, Incremented, CountOrMissing;
    } else {
      hide CounterEarned;
      assert EntryAt(r.db, hot) == EntryAt(c.db, hot);
      CounterCarried(s, c, Next(s, c, Denied(node, ip, down)), Denial(ip, c.now), a);
    }
  }

  lemma DeniedKeepsBan(s: Settings, c: Cluster, node: nat, ip: string, down: set<string>, a: string)
    requires s.Valid() && BanDated(s, c, a) && node < |c.caches|
    ensures BanDated(s, Next(s, c, Denied(node, ip, down)), a)
  {
    hide KeyHot, KeyBan, TempKey, Record, Within, Present, Incremented, CountOrMissing;
    SharedKeysDistinct(s.prefix, a, ip);
    SharedKeysDistinct(s.prefix, ip, a);
    SharedKeysDistinct(s.prefix, ip, ip);
    RecordEffect(s, c.caches[node], c.db, down, ip, c.now);
  }

  /** What a recorded denial does to the shared store. */
  lemma RecordEffect(s: Settings, cache: LocalCache, db: Db, down: set<string>, ip: string, now: int)
    requires s.Valid() && KeyHot(s.prefix, ip) != KeyBan(s.prefix, ip)
    ensures var r, hot, ban := Record(s, cache, db, down, ip, now), KeyHot(s.prefix, ip), KeyBan(s.prefix, ip);
      && (forall k | k != hot && k != ban :: (k in r.db <==> k in db) && (k in db ==> r.db[k] == db[k]))
      && (!r.counted ==> r.db == db)
      && (r.counted ==>
            CountOrMissing(db, hot, now) && hot in r.db && r.db[hot] == Incremented(db, hot, now, s.hotWindow))
      && (r.banned ==> r.counted && ban in r.db && r.db[ban] == Entry(Count(1), Some(now + s.blacklistTtl)))
      && (!r.banned ==> (ban in r.db <==> ban in db) && (ban in db ==> r.db[ban] == db[ban]))
  {
    hide KeyHot, KeyBan, TempKey, Incremented, CountOrMissing;
  }

  lemma DeniedKeepsDates(s: Settings, c: Cluster, node: nat, ip: string, down: set<string>, a: string)
    requires s.Valid() && node < |c.caches| && CacheDated(s, c, c.caches[node], a) && BanDated(s, c, a)
    ensures var c' := Next(s, c, Denied(node, ip, down));
      CachedBanDated(s, c'.lastBan, c'.caches[node], a) && CachedListsDated(s, c.moments, c'.caches[node], a)
  {
    hide TempKey, BlackKey, WhiteKey, KeyBan, KeyHot, WhiteAt, BlackAt, Present;
    LocalKeysDistinct(a, ip);
    LocalKeysDistinct(ip, a);
  }

  lemma BanMovesForward(s: Settings, c: Cluster, e: Event, cache: LocalCache, a: string)
    requires s.Valid() && CachedBanDated(s, c.lastBan, cache, a) && BanDated(s, c, a)
    ensures CachedBanDated(s, Next(s, c, e).lastBan, cache, a)
  {
    hide TempKey, KeyBan, KeyHot, Present, Check, Record;
  }

  lemma DeniedKeepsCaches(s: Settings, c: Cluster, node: nat, ip: string, down: set<string>,
                          cache: LocalCache, a: string)
    requires s.Valid() && Sound(s, c) && node < |c.caches|
    requires cache in Next(s, c, Denied(node, ip, down)).caches
    ensures CacheDated(s, Next(s, c, Denied(node, ip, down)), cache, a)
  {
    var c' := Next(s, c, Denied(node, ip, down));
    hide Record, Present, CounterEarned, BanDated, CachedBanDated, CachedListsDated;
    assert BanDated(s, c, a) && CacheDated(s, c, c.caches[node], a);
    if cache in c.caches {
      assert CacheDated(s, c, cache, a);
      BanMovesForward(s, c, Denied(node, ip, down), cache, a);
    } else {
      assert cache == c'.caches[node];
      DeniedKeepsDates(s, c, node, ip, down, a);
    }
    MomentsRemain(s, c.moments, c'.moments, cache, a);
  }

  lemma StepKeepsSound(s: Settings, c: Cluster, e: Event)
    requires s.Valid() && Sound(s, c)
    ensures Sound(s, Next(s, c, e))
  {
    var c' := Next(s, c, e);
    match e
    case Ask(node, ip, down) =>
      if node < |c.caches| {
        AskKeepsCaches(s, c, node, ip, down);
      } else {
        SameButMoments(s, c, c');
      }
    case Denied(node, ip, down) =>
      if node < |c.caches| {
        forall a
          ensures CounterEarned(s, c', a) && BanDated(s, c', a)
        {
          assert CounterEarned(s, c, a) && CounterEarned(s, c, ip) && BanDated(s, c, a);
          DeniedKeepsCounter(s, c, node, ip, down, a);
          DeniedKeepsBan(s, c, node, ip, down, a);
        }
        forall cache <- c'.caches, a
          ensures CacheDated(s, c', cache, a)
        {
          DeniedKeepsCaches(s, c, node, ip, down, cache, a);
        }
      } else {
        SameButMoments(s, c, c');
      }
    case Told(node) => SameButMoments(s, c, c');
    case Listed(black, white) =>
      forall a
        ensures CounterEarned(s, c', a) && BanDated(s, c', a)
      {
        SharedKeysDistinct(s.prefix, a, a);
        assert CounterEarned(s, c, a) && BanDated(s, c, a);
        Unmoved(s, c, c', a);
      }
      SameCaches(s, c, c');
    case Wait(ms) => SameButMoments(s, c, c');
  }

  /** Dropping a cache, letting time pass and recording a moment keep every date. */
  lemma SameButMoments(s: Settings, c: Cluster, c': Cluster)
    requires Sound(s, c) && c'.db == c.db && c'.denials == c.denials && c'.lastBan == c.lastBan && c'.now >= c.now
    requires forall cache <- c'.caches :: cache in c.caches || cache == map[]
    requires forall m <- c.moments :: m in c'.moments
    ensures Sound(s, c')
  {
    hide CounterEarned, BanDated, CacheDated;
    forall a
      ensures CounterEarned(s, c', a) && BanDated(s, c', a)
    {
      assert CounterEarned(s, c, a) && BanDated(s, c, a);
      Unmoved(s, c, c', a);
    }
    SameCaches(s, c, c');
  }

  lemma SameCaches(s: Settings, c: Cluster, c': Cluster)
    requires Sound(s, c) && c'.lastBan == c.lastBan
    requires forall cache <- c'.caches :: cache in c.caches || cache == map[]
    requires forall m <- c.moments :: m in c'.moments
    ensures forall cache <- c'.caches, a :: CacheDated(s, c', cache, a)
  {
    hide CounterEarned, BanDated;
    forall cache <- c'.caches, a
      ensures CacheDated(s, c', cache, a)
    {
      if cache in c.caches {
        assert CacheDated(s, c, cache, a);
        MomentsRemain(s, c.moments, c'.moments, cache, a);
      }
    }
  }

  lemma {:induction false} Reachable(s: Settings, nodes: nat, black: set<string>, white: set<string>, now: int,
                                     es: seq<Event>)
    requires s.Valid()
    ensures Sound(s, Run(s, Start(s, nodes, black, white, now), es))
  {
    var start := Start(s, nodes, black, white, now);
    if es == [] {
      forall a
        ensures CounterEarned(s, start, a) && BanDated(s, start, a)
      {
        SharedKeysDistinct(s.prefix, a, a);
      }
    } else {
      Reachable(s, nodes, black, white, now, Front(es));
      StepKeepsSound(s, Run(s, start, Front(es)), Last(es));
      hide Sound, Next;
    }
  }

  // ---------------------------------------------------------------- bans are earned and end

  /** On every node and in every run, a ban is written only when at least `hotThreshold` counted
      denials of that address fell within one hot window around now. */
  lemma BansAreEarned(s: Settings, nodes: nat, black: set<string>, white: set<string>, now: int,
                      es: seq<Event>, node: nat, ip: string, down: set<string>) returns (from: int)
    requires s.Valid() && node < nodes
    requires var c := Run(s, Start(s, nodes, black, white, now), es);
      Record(s, c.caches[node], c.db, down, ip, c.now).banned
    ensures var c := Run(s, Start(s, nodes, black, white, now), es);
      && from <= c.now <= from + s.hotWindow
      && |Within(Next(s, c, Denied(node, ip, down)).denials, ip, from, from + s.hotWindow)| >= s.hotThreshold
  {
    hide Within, Check, KeyHot, CounterEarned, Sound, Run, CacheDated, BanDated;
    Reachable(s, nodes, black, white, now, es);
    var c := Run(s, Start(s, nodes, black, white, now), es);
    SoundAt(s, c, node, ip);
    CountedDenial(s, c, ip);
    from := Incremented(c.db, KeyHot(s.prefix, ip), c.now, s.hotWindow).expireAt.value - s.hotWindow;
  }

  /** No node denies an address as temporarily banned later than twice the ban's length after the
      last ban written for it. */
  lemma BansEnd(s: Settings, nodes: nat, black: set<string>, white: set<string>, now: int,
                es: seq<Event>, node: nat, ip: string, down: set<string>)
    requires s.Valid() && ip != "" && node < nodes
    requires var c := Run(s, Start(s, nodes, black, white, now), es);
      SaysBanned(Check(s, c.caches[node], c.db, down, ip, c.now).dec.reason)
    ensures var c := Run(s, Start(s, nodes, black, white, now), es);
      ip in c.lastBan && c.now <= c.lastBan[ip] + 2 * s.blacklistTtl
  {
    hide Check, Sound, Run, SaysBanned, TempKey, KeyBan, CachedListsDated;
    Reachable(s, nodes, black, white, now, es);
    var c := Run(s, Start(s, nodes, black, white, now), es);
    SoundAt(s, c, node, ip);
    SaidReasons(Check(s, c.caches[node], c.db, down, ip, c.now).dec.reason);
    ReasonNamesSource(s, c.caches[node], c.db, down, ip, c.now);
  }

  lemma WhiteReasons(s: Settings, cache: LocalCache, db: Db, down: set<string>, ip: string, now: int)
    ensures var r := CheckWhite(s, cache, db, down, ip, now).dec.reason;
      |r| == 0 || |r| == 22 || (|r| == 18 && r[6] == 'w')
  {
    assert |"ip_in_whitelist_l1"| == 18 && |"ip_in_whitelist_l2"| == 18 && |"whitelist_check_failed"| == 22;
    hide WhiteKey, KeyWhitelist, InSet, NamesOrMissing, Fresh;
  }

  lemma BlackReasons(s: Settings, cache: LocalCache, db: Db, down: set<string>, ip: string, now: int)
    ensures var r := CheckBlack(s, cache, db, down, ip, now).dec.reason;
      && (|r| == 0 || |r| == 18 || |r| == 22)
      && (|r| == 18 && r[6] == 'b' ==>
            Fresh(cache, BlackKey(ip), now) == Some(true) || InSet(db, KeyBlacklist(s.prefix), now, ip))
  {
    assert |"ip_in_blacklist_l1"| == 18 && |"ip_in_blacklist_l2"| == 18 && |"blacklist_check_failed"| == 22;
    WhiteReasons(s, Touched(cache, BlackKey(ip), now), db, down, ip, now);
    hide BlackKey, KeyBlacklist, InSet, NamesOrMissing, Fresh, CheckWhite;
  }

  /** The reason of a denial says where the answer came from, by its length and its first letter. */
  lemma ReasonNamesSource(s: Settings, cache: LocalCache, db: Db, down: set<string>, ip: string, now: int)
    requires ip != ""
    ensures var r := Check(s, cache, db, down, ip, now).dec.reason;
      && (|r| == 23 ==> Fresh(cache, TempKey(ip), now) == Some(true) || Exists(db, KeyBan(s.prefix, ip), now))
      && (|r| == 18 && r[6] == 'b' ==>
            Fresh(cache, BlackKey(ip), now) == Some(true) || InSet(db, KeyBlacklist(s.prefix), now, ip))
  {
    assert |"ip_in_temp_blacklist_l1"| == 23 && |"ip_in_temp_blacklist_l2"| == 23;
    assert |"temp_blacklist_check_failed"| == 27;
    LocalKeysDistinct(ip, ip);
    BlackReasons(s, Touched(cache, TempKey(ip), now), db, down, ip, now);
    hide TempKey, BlackKey, KeyBan, KeyBlacklist, InSet, Exists, CheckBlack;
  }

  /** Whether a decision is a denial of an address that is temporarily banned, or blacklisted. */
  predicate SaysBanned(reason: string) {
    reason == "ip_in_temp_blacklist_l1" || reason == "ip_in_temp_blacklist_l2"
  }

  predicate SaysBlacklisted(reason: string) {
    reason == "ip_in_blacklist_l1" || reason == "ip_in_blacklist_l2"
  }

  lemma SaidReasons(reason: string)
    ensures SaysBanned(reason) ==> |reason| == 23
    ensures SaysBlacklisted(reason) ==> |reason| == 18 && reason[6] == 'b'
  {
  }

  lemma SoundAt(s: Settings, c: Cluster, node: nat, ip: string)
    requires Sound(s, c) && node < |c.caches|
    ensures CacheDated(s, c, c.caches[node], ip) && BanDated(s, c, ip) && CounterEarned(s, c, ip)
  {
  }

  // ---------------------------------------------------------------- staleness of the lists

  /** Some moment in a stretch of time had the address in, or out of, a list. */
  ghost predicate WhiteWithin(moments: seq<Moment>, from: int, to: int, ip: string, listed: bool) {
    exists m <- moments :: from <= m.at <= to && listed == (ip in m.white)
  }

  ghost predicate BlackWithin(moments: seq<Moment>, from: int, to: int, ip: string) {
    exists m <- moments :: from <= m.at <= to && ip in m.black
  }

  /** What an answer says about the whitelist: what a fresh entry says, or else what Redis says. */
  function Listing(s: Settings, cache: LocalCache, db: Db, ip: string, now: int): bool {
    var cached := Fresh(cache, WhiteKey(ip), now);
    if cached.Some? then cached.value else InSet(db, KeyWhitelist(s.prefix), now, ip)
  }

  lemma AnswerIsListing(s: Settings, cache: LocalCache, db: Db, down: set<string>, ip: string, now: int)
    requires ip != ""
    ensures var c := Check(s, cache, db, down, ip, now);
      && (c.dec.allowed ==> Listing(s, cache, db, ip, now))
      && (!c.handled ==> !Listing(s, cache, db, ip, now))
  {
    hide TempKey, BlackKey, WhiteKey, KeyBan, KeyBlacklist, KeyWhitelist, InSet, Exists, NamesOrMissing;
    LocalKeysDistinct(ip, ip);
  }

  lemma ListingIsRecent(s: Settings, c: Cluster, cache: LocalCache, ip: string)
    requires s.Valid() && CacheDated(s, c, cache, ip) && forall m <- c.moments :: m.at <= c.now
    ensures WhiteWithin(c.moments + [Present(s, c.db, c.now)], c.now - s.defaultTtl, c.now, ip,
                        Listing(s, cache, c.db, ip, c.now))
    ensures Fresh(cache, BlackKey(ip), c.now) == Some(true) || InSet(c.db, KeyBlacklist(s.prefix), c.now, ip) ==>
      BlackWithin(c.moments + [Present(s, c.db, c.now)], c.now - s.defaultTtl, c.now, ip)
  {
    var moments, present := c.moments + [Present(s, c.db, c.now)], Present(s, c.db, c.now);
    hide WhiteKey, BlackKey, KeyWhitelist, KeyBlacklist;
    assert present in moments && present.at == c.now;
    if Fresh(cache, WhiteKey(ip), c.now).Some? {
      var e := cache[WhiteKey(ip)];
      var m :| m in c.moments && m.at == e.expiresAt - s.defaultTtl && e.value == (ip in m.white);
      assert m in moments;
    }
    if Fresh(cache, BlackKey(ip), c.now).Some? {
      var e := cache[BlackKey(ip)];
      var m :| m in c.moments && m.at == e.expiresAt - s.defaultTtl && ip in m.black;
      assert m in moments;
    }
  }

  /** An answer that depends on the whitelist, in or out, agrees with the whitelist as it stood at some
      instant within the last `defaultTtl`. */
  lemma WhitelistIsRecent(s: Settings, nodes: nat, black: set<string>, white: set<string>, now: int,
                          es: seq<Event>, node: nat, ip: string, down: set<string>)
    requires s.Valid() && ip != "" && node < nodes
    ensures var c := Run(s, Start(s, nodes, black, white, now), es);
      var checked, moments := Check(s, c.caches[node], c.db, down, ip, c.now), Next(s, c, Ask(node, ip, down)).moments;
      && (checked.dec.allowed ==> WhiteWithin(moments, c.now - s.defaultTtl, c.now, ip, true))
      && (!checked.handled ==> WhiteWithin(moments, c.now - s.defaultTtl, c.now, ip, false))
  {
    hide *;
    Reachable(s, nodes, black, white, now, es);
    StartsEmpty(s, nodes, black, white, now);
    MomentsPast(s, Start(s, nodes, black, white, now), es);
    var c := Run(s, Start(s, nodes, black, white, now), es);
    SoundAt(s, c, node, ip);
    OneMoment(s, c, Ask(node, ip, down));
    AnswerIsListing(s, c.caches[node], c.db, down, ip, c.now);
    ListingIsRecent(s, c, c.caches[node], ip);
  }

  /** No address is denied as blacklisted later than `defaultTtl` after the blacklist last held it. */
  lemma BlacklistIsRecent(s: Settings, nodes: nat, black: set<string>, white: set<string>, now: int,
                          es: seq<Event>, node: nat, ip: string, down: set<string>)
    requires s.Valid() && ip != "" && node < nodes
    requires var c := Run(s, Start(s, nodes, black, white, now), es);
      SaysBlacklisted(Check(s, c.caches[node], c.db, down, ip, c.now).dec.reason)
    ensures var c := Run(s, Start(s, nodes, black, white, now), es);
      BlackWithin(Next(s, c, Ask(node, ip, down)).moments, c.now - s.defaultTtl, c.now, ip)
  {
    hide *;
    Reachable(s, nodes, black, white, now, es);
    StartsEmpty(s, nodes, black, white, now);
    MomentsPast(s, Start(s, nodes, black, white, now), es);
    var c := Run(s, Start(s, nodes, black, white, now), es);
    SoundAt(s, c, node, ip);
    OneMoment(s, c, Ask(node, ip, down));
    SaidReasons(Check(s, c.caches[node], c.db, down, ip, c.now).dec.reason);
    ReasonNamesSource(s, c.caches[node], c.db, down, ip, c.now);
    ListingIsRecent(s, c, c.caches[node], ip);
  }

  lemma StartsEmpty(s: Settings, nodes: nat, black: set<string>, white: set<string>, now: int)
    ensures var c := Start(s, nodes, black, white, now); c.moments == [] && |c.caches| == nodes
  {
  }

  lemma OneMoment(s: Settings, c: Cluster, e: Event)
    requires s.Valid()
    ensures var n := Next(s, c, e);
      n.moments == c.moments + [Present(s, c.db, c.now)] && n.now >= c.now
  {
    hide Check, Record, Present;
  }

  lemma {:induction false} MomentsPast(s: Settings, start: Cluster, es: seq<Event>)
    requires s.Valid() && start.moments == []
    ensures forall m <- Run(s, start, es).moments :: m.at <= Run(s, start, es).now
  {
    if es != [] {
      MomentsPast(s, start, Front(es));
      OneMoment(s, Run(s, start, Front(es)), Last(es));
      hide Next;
    }
  }
}
