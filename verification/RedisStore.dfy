/** The part of Redis the service relies on: typed values under string keys, each with an optional
    expiry. One clock, in milliseconds, is shared by the service and the server. */
module RedisStore {
  import opened Basics

  /** A hash keeps its fractional fields and its timestamps apart. */
  datatype Value =
    | Hash(amounts: map<string, real>, stamps: map<string, int>)
    | Scores(members: set<int>)
    | Names(names: set<string>)
    | Count(n: int)

  datatype Entry = Entry(value: Value, expireAt: Option<int>)

  type Db = map<string, Entry>

  /** What a command sees under a key: nothing once the clock has passed the expiry. */
  function Get(db: Db, key: string, now: int): Option<Value> {
    if key in db && (db[key].expireAt.None? || now <= db[key].expireAt.value)
    then Some(db[key].value) else None
  }

  /** What the server holds once its clock has read `now`: a key past its expiry is gone for good. */
  function Live(db: Db, now: int): Db {
    map k | k in db && (db[k].expireAt.None? || now <= db[k].expireAt.value) :: db[k]
  }

  /** A command cannot tell whether an expired key has been removed already. */
  lemma ExpiryUnseen(db: Db, key: string, now: int)
    ensures Get(Live(db, now), key, now) == Get(db, key, now)
  {
  }

  function EntryAt(db: Db, key: string): Option<Entry> {
    if key in db then Some(db[key]) else None
  }

  function HashAt(db: Db, key: string, now: int): Value {
    match Get(db, key, now)
    case Some(Hash(a, s)) => Hash(a, s)
    case _ => Hash(map[], map[])
  }

  function ScoresAt(db: Db, key: string, now: int): set<int> {
    match Get(db, key, now)
    case Some(Scores(m)) => m
    case _ => {}
  }

  /** A hash command on a key holding another type raises an error, and so on. */
  predicate HashOrMissing(db: Db, key: string, now: int) {
    var v := Get(db, key, now);
    v.Some? ==> v.value.Hash?
  }

  predicate ScoresOrMissing(db: Db, key: string, now: int) {
    var v := Get(db, key, now);
    v.Some? ==> v.value.Scores?
  }

  /** The server, with the keys it currently fails to serve. */
  class Redis {
    var db: Db
    var down: set<string>

    constructor ()
      ensures db == map[] && down == {}
    {
      db := map[];
      down := {};
    }
  }

  const UNAVAILABLE := "unavailable"
  const WRONG_TYPE := "WRONGTYPE"
}
