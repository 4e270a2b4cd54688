/** One node's rule cache: a pointer to an immutable rule set, replaced as a whole. */
module RuleCache {
  import opened Basics
  import opened Config

  type Rules = map<string, Rule>

  /** `rcu.Snapshot`: readers load the pointer, writers replace it. */
  class Snapshot<T> {
    var ptr: T

    constructor (init: T)
      ensures ptr == init
    {
      ptr := init;
    }

    method Load() returns (p: T)
      ensures p == ptr
    {
      return ptr;
    }

    method Replace(next: T)
      modifies this
      ensures ptr == next
    {
      ptr := next;
    }
  }

  /** A published rule set. Its field can be assigned, but no operation below assigns it: none of
      them has an existing rule set in its frame. */
  class RuleSet {
    var rules: Rules

    constructor (rules: Rules)
      ensures this.rules == rules
    {
      this.rules := rules;
    }
  }

  /** What is stored under the rule keys: for each, the rule its bytes encode, or `None` if they encode
      none. A foreign writer may have stored a rule under another rule's key. */
  type Stored = map<string, Option<Rule>>

  /** The rule keys in Redis, and the update channel. */
  class RuleStore {
    var stored: Stored
    var published: seq<string>

    constructor ()
      ensures stored == map[] && published == []
    {
      stored := map[];
      published := [];
    }
  }

  /** How Redis behaves while one operation runs. */
  datatype Weather = Weather(setFails: bool, publishFails: bool, getFails: set<string>, scanFailsAt: Option<nat>)

  class Cache {
    const store: RuleStore
    const ruleSnap: Snapshot<RuleSet>

    constructor (store: RuleStore)
      ensures this.store == store && fresh(ruleSnap) && fresh(ruleSnap.ptr) && ruleSnap.ptr.rules == map[]
    {
      this.store := store;
      var init := new RuleSet(map[]);
      this.ruleSnap := new Snapshot<RuleSet>(init);
    }

    ghost function Current(): Rules
      reads ruleSnap, ruleSnap.ptr
    {
      ruleSnap.ptr.rules
    }

    method Get(id: string) returns (r: Option<Rule>)
      ensures r == if id in Current() then Some(Current()[id]) else None
    {
      var snapshot := ruleSnap.Load();
      return if id in snapshot.rules then Some(snapshot.rules[id]) else None;
    }

    method ReplaceAll(rules: Rules)
      modifies ruleSnap
      ensures fresh(ruleSnap.ptr) && Current() == rules
    {
      var newSet := new RuleSet(rules);
      ruleSnap.Replace(newSet);
    }

    /** SET, copy, modify, replace, publish. Already-loaded rule sets keep their contents: only the
        pointer, the store and a new set are written. */
    method Upsert(r: Rule, weather: Weather) returns (ok: bool)
      modifies ruleSnap, store
      ensures r.ruleId == "" || weather.setFails ==>
        && !ok && store.stored == old(store.stored) && store.published == old(store.published)
        && ruleSnap.ptr == old(ruleSnap.ptr)
      ensures r.ruleId != "" && !weather.setFails ==>
        && store.stored == old(store.stored)[r.ruleId := Some(r)]
        && fresh(ruleSnap.ptr) && Current() == old(Current())[r.ruleId := r]
        && ok == !weather.publishFails
        && store.published == old(store.published) + if ok then [r.ruleId] else []
    {
      if r.ruleId == "" || weather.setFails {
        return false;
      }
      store.stored := store.stored[r.ruleId := Some(r)];

      var oldSnap := ruleSnap.Load();
      var newRules: Rules := map[];
      var left := oldSnap.rules.Keys;
      while left != {}
        invariant left <= oldSnap.rules.Keys
        invariant newRules == map k | k in oldSnap.rules && k !in left :: oldSnap.rules[k]
        decreases left
      {
        var k :| k in left;
        newRules := newRules[k := oldSnap.rules[k]];
        left := left - {k};
      }
      newRules := newRules[r.ruleId := r];
      var newSet := new RuleSet(newRules);
      ruleSnap.Replace(newSet);

      if weather.publishFails {
        return false;
      }
      store.published := store.published + [r.ruleId];
      return true;
    }

    /** SCAN page by page, GET key by key, then replace. Keys may come up more than once or have vanished; a
        key that cannot be read is left out; a failing SCAN keeps the old rules. */
    method ReloadAll(pages: seq<seq<string>>, weather: Weather) returns (ok: bool)
      modifies ruleSnap
      ensures ok == (weather.scanFailsAt.None? || weather.scanFailsAt.value >= |pages|)
      ensures !ok ==> ruleSnap.ptr == old(ruleSnap.ptr)
      ensures ok ==> fresh(ruleSnap.ptr) && Current() == Reloaded(store.stored, weather.getFails, Joined(pages))
    {
      var tmp: Rules := map[];
      var cursor := 0;
      while cursor < |pages|
        invariant 0 <= cursor <= |pages|
        invariant weather.scanFailsAt.Some? ==> cursor <= weather.scanFailsAt.value
        invariant ruleSnap.ptr == old(ruleSnap.ptr)
        invariant tmp == Reloaded(store.stored, weather.getFails, Joined(pages[..cursor]))
      {
        if weather.scanFailsAt == Some(cursor) {
          return false;
        }
        var keys := pages[cursor];
        ghost var before := Joined(pages[..cursor]);
        assert before + keys[..0] == before;
        for i := 0 to |keys|
          invariant ruleSnap.ptr == old(ruleSnap.ptr)
          invariant tmp == Reloaded(store.stored, weather.getFails, before + keys[..i])
        {
          var key := keys[i];
          OneMoreKey(before, keys, i);
          if key in weather.getFails || key !in store.stored {
            continue;
          }
          if store.stored[key].None? {
            continue;
          }
          var rule := store.stored[key].value;
          tmp := tmp[rule.ruleId := rule];
        }
        assert keys[..|keys|] == keys;
        assert Front(pages[..cursor + 1]) == pages[..cursor];
        cursor := cursor + 1;
      }
      assert pages[..cursor] == pages;
      ReplaceAll(tmp);
      return true;
    }
  }

  lemma OneMoreKey(before: seq<string>, keys: seq<string>, i: nat)
    requires i < |keys|
    ensures before + keys[..i + 1] != [] && Last(before + keys[..i + 1]) == keys[i]
    ensures Front(before + keys[..i + 1]) == before + keys[..i]
  {
  }

  function Elements(keys: seq<string>): set<string> {
    set k | k in keys
  }

  function Joined(pages: seq<seq<string>>): seq<string> {
    if pages == [] then [] else Joined(Front(pages)) + Last(pages)
  }

  function Readable(stored: Stored, failing: set<string>, key: string): Option<Rule> {
    if key in failing || key !in stored then None else stored[key]
  }

  /** What a reload that lists these keys ends up with. */
  function Reloaded(stored: Stored, failing: set<string>, keys: seq<string>): Rules {
    if keys == [] then map[]
    else
      var tmp, read := Reloaded(stored, failing, Front(keys)), Readable(stored, failing, Last(keys));
      if read.Some? then tmp[read.value.ruleId := read.value] else tmp
  }

  /** The last listed key that can be read and holds a rule of this name. */
  predicate LastRead(stored: Stored, failing: set<string>, keys: seq<string>, i: int, id: string) {
    && 0 <= i < |keys| && Readable(stored, failing, keys[i]).Some?
    && Readable(stored, failing, keys[i]).value.ruleId == id
    && forall j | i < j < |keys| ::
         var read := Readable(stored, failing, keys[j]); read.Some? ==> read.value.ruleId != id
  }

  lemma NotReadAfter(stored: Stored, failing: set<string>, keys: seq<string>, key: string, i: int, id: string)
    requires var read := Readable(stored, failing, key); read.Some? ==> read.value.ruleId != id
    ensures LastRead(stored, failing, keys + [key], i, id) <==> LastRead(stored, failing, keys, i, id)
  {
    if LastRead(stored, failing, keys + [key], i, id) {
      assert forall j | i < j < |keys| :: keys[j] == (keys + [key])[j];
    }
  }

  /** Whatever is stored under whatever keys, a reload shows the rules read under their own names, of several with
      one name the last one read. */
  lemma {:induction false} ReloadedKeyed(stored: Stored, failing: set<string>, keys: seq<string>, id: string)
    ensures var shown := Reloaded(stored, failing, keys);
      && (id in shown <==> exists i :: LastRead(stored, failing, keys, i, id))
      && (id in shown ==> exists i :: LastRead(stored, failing, keys, i, id) && stored[keys[i]] == Some(shown[id]))
  {
    if keys != [] {
      var front, key := Front(keys), Last(keys);
      var read := Readable(stored, failing, key);
      ReloadedKeyed(stored, failing, front, id);
      assert keys == front + [key];
      if read.Some? && read.value.ruleId == id {
        assert LastRead(stored, failing, keys, |keys| - 1, id);
      } else {
        forall i {
          NotReadAfter(stored, failing, front, key, i, id);
        }
      }
    }
  }

  /** Rules stored under their own names, as `Upsert` leaves them. */
  function Plain(rules: Rules): Stored {
    map k | k in rules :: Some(rules[k])
  }

  lemma {:induction false} ReloadedPlain(rules: Rules, failing: set<string>, keys: seq<string>)
    requires forall k <- rules :: rules[k].ruleId == k
    ensures Reloaded(Plain(rules), failing, keys) == map k | k in rules && k in keys && k !in failing :: rules[k]
  {
    if keys != [] {
      assert keys == Front(keys) + [Last(keys)];
      ReloadedPlain(rules, failing, Front(keys));
    }
  }

  /** A reload shows exactly the stored rules if and only if every stored key is listed and can be read;
      keys listed twice or gone meanwhile do no harm. */
  lemma CompleteIff(rules: Rules, failing: set<string>, keys: seq<string>)
    requires forall k <- rules :: rules[k].ruleId == k
    ensures Reloaded(Plain(rules), failing, keys) == rules <==> forall k <- rules :: k in keys && k !in failing
  {
    ReloadedPlain(rules, failing, keys);
    var read := map k | k in rules && k in keys && k !in failing :: rules[k];
    if forall k <- rules :: k in keys && k !in failing {
      assert read == rules;
    } else {
      var k :| k in rules && !(k in keys && k !in failing);
      assert k !in read;
    }
    hide Reloaded, Plain;
  }

  // ---------------------------------------------------------------- rules from a list

  /** The rule set a list amounts to: unnamed rules are dropped, of equal names the last one counts. */
  function RuleMapOf(rules: seq<Rule>): Rules {
    if rules == [] then map[]
    else if Last(rules).ruleId == "" then RuleMapOf(Front(rules))
    else RuleMapOf(Front(rules))[Last(rules).ruleId := Last(rules)]
  }

  method BuildRuleMap(rules: seq<Rule>) returns (res: Rules)
    ensures res == RuleMapOf(rules)
  {
    res := map[];
    assert rules[..|rules|] == rules;
    for i := 0 to |rules|
      invariant res == RuleMapOf(rules[..i])
    {
      assert Front(rules[..i + 1]) == rules[..i];
      if rules[i].ruleId == "" {
        continue;
      }
      res := res[rules[i].ruleId := rules[i]];
    }
  }

  predicate LastOfName(rules: seq<Rule>, i: int, id: string) {
    0 <= i < |rules| && rules[i].ruleId == id && forall j | i < j < |rules| :: rules[j].ruleId != id
  }

  lemma OtherNameAfter(rules: seq<Rule>, r: Rule, i: int, id: string)
    requires r.ruleId != id
    ensures LastOfName(rules + [r], i, id) <==> LastOfName(rules, i, id)
  {
    if LastOfName(rules + [r], i, id) {
      forall j | i < j < |rules|
        ensures rules[j].ruleId != id
      {
        assert rules[j] == (rules + [r])[j];
      }
    }
  }

  /** The map has exactly the non-empty names of the list, each with the last rule of that name. */
  lemma {:induction false} RuleMapKeyed(rules: seq<Rule>, id: string)
    ensures id in RuleMapOf(rules) <==> id != "" && exists i :: LastOfName(rules, i, id)
    ensures id in RuleMapOf(rules) ==> exists i :: LastOfName(rules, i, id) && rules[i] == RuleMapOf(rules)[id]
  {
    if rules != [] {
      var front, r := Front(rules), Last(rules);
      RuleMapKeyed(front, id);
      if id == r.ruleId {
        assert LastOfName(rules, |rules| - 1, id);
      } else {
        assert rules == front + [r];
        forall i {
          OtherNameAfter(front, r, i, id);
        }
      }
    }
  }
}
