/** Pulling rules from an external source, with version skipping and a fail policy. */
module Poller {
  import opened Basics
  import opened Config
  import opened RuleCache
  import opened Text

  datatype Payload = Payload(version: string, rules: seq<Rule>)

  /** One pull: what the source returned, or a failure. */
  type Fetch = Option<Payload>

  /** The rules in force and the version they came with. */
  datatype State = State(rules: Rules, lastVer: string)

  predicate Skips(lastVer: string, p: Payload) {
    p.version != "" && p.version == lastVer
  }

  function Pulled(st: State, failClosed: bool, f: Fetch): State {
    match f
    case None => if failClosed then st.(rules := map[]) else st
    case Some(p) => if Skips(st.lastVer, p) then st else State(RuleMapOf(p.rules), p.version)
  }

  class Poller {
    const cache: Cache
    const failPolicy: string
    var lastVer: string

    constructor (cache: Cache, failPolicy: string)
      ensures this.cache == cache && this.failPolicy == ToLower(TrimSpace(failPolicy)) && lastVer == ""
    {
      this.cache := cache;
      this.failPolicy := ToLower(TrimSpace(failPolicy));
      this.lastVer := "";
    }

    ghost function StateOf(): State
      reads this, cache.ruleSnap, cache.ruleSnap.ptr
    {
      State(cache.Current(), lastVer)
    }

    /** Only the snapshot pointer and the version change; rule sets already loaded keep their contents. */
    method Pull(fetched: Fetch) returns (applied: bool)
      modifies this`lastVer, cache.ruleSnap
      ensures StateOf() == Pulled(old(StateOf()), failPolicy == "fail-closed", fetched)
      ensures applied <==> fetched.Some? && !Skips(old(lastVer), fetched.value)
      ensures !applied && (fetched.Some? || failPolicy != "fail-closed") ==>
        cache.ruleSnap.ptr == old(cache.ruleSnap.ptr)
    {
      if fetched.None? {
        HandleFailure();
        return false;
      }
      var payload := fetched.value;
      if payload.version != "" && payload.version == lastVer {
        return false;
      }
      var ruleMap := BuildRuleMap(payload.rules);
      cache.ReplaceAll(ruleMap);
      lastVer := payload.version;
      return true;
    }

    method HandleFailure()
      modifies cache.ruleSnap
      ensures cache.Current() == if failPolicy == "fail-closed" then map[] else old(cache.Current())
      ensures failPolicy != "fail-closed" ==> cache.ruleSnap.ptr == old(cache.ruleSnap.ptr)
    {
      if failPolicy == "fail-closed" {
        cache.ReplaceAll(map[]);
      }
    }
  }

  // ---------------------------------------------------------------- runs

  function After(init: Rules, failClosed: bool, fs: seq<Fetch>): State {
    if fs == [] then State(init, "") else Pulled(After(init, failClosed, Front(fs)), failClosed, Last(fs))
  }

  /** The rules that ought to be in force: those of the last successful fetch, except that fail-closed
      drops them on a failure. */
  function Expected(init: Rules, failClosed: bool, fs: seq<Fetch>): Rules {
    if fs == [] then init
    else
      match Last(fs)
      case None => if failClosed then map[] else Expected(init, failClosed, Front(fs))
      case Some(p) => RuleMapOf(p.rules)
  }

  function LastVersion(fs: seq<Fetch>): string {
    if fs == [] then "" else if Last(fs).Some? then Last(fs).value.version else LastVersion(Front(fs))
  }

  lemma {:induction false} VersionKept(init: Rules, failClosed: bool, fs: seq<Fetch>)
    ensures After(init, failClosed, fs).lastVer == LastVersion(fs)
  {
    if fs != [] {
      VersionKept(init, failClosed, Front(fs));
    }
  }

  /** A fetch that repeats the last version brings the rules expected to be in force at that point. */
  ghost predicate RepeatsFaithfully(init: Rules, failClosed: bool, fs: seq<Fetch>, i: nat)
    requires i < |fs|
  {
    fs[i].Some? && Skips(LastVersion(fs[..i]), fs[i].value) ==>
      RuleMapOf(fs[i].value.rules) == Expected(init, failClosed, fs[..i])
  }

  ghost predicate UpToDateSoFar(init: Rules, failClosed: bool, fs: seq<Fetch>) {
    forall n | 0 <= n <= |fs| :: After(init, failClosed, fs[..n]).rules == Expected(init, failClosed, fs[..n])
  }

  lemma OnePull(init: Rules, failClosed: bool, fs: seq<Fetch>, i: nat)
    requires i < |fs|
    requires After(init, failClosed, fs[..i]).rules == Expected(init, failClosed, fs[..i])
    ensures After(init, failClosed, fs[..i + 1]).rules == Expected(init, failClosed, fs[..i + 1])
       <==> RepeatsFaithfully(init, failClosed, fs, i)
  {
    assert Front(fs[..i + 1]) == fs[..i] && Last(fs[..i + 1]) == fs[i];
    VersionKept(init, failClosed, fs[..i]);
  }

  lemma {:induction false} UpToDateFrom(init: Rules, failClosed: bool, fs: seq<Fetch>, n: nat)
    requires n <= |fs| && forall i | 0 <= i < |fs| :: RepeatsFaithfully(init, failClosed, fs, i)
    ensures After(init, failClosed, fs[..n]).rules == Expected(init, failClosed, fs[..n])
  {
    if n > 0 {
      UpToDateFrom(init, failClosed, fs, n - 1);
      OnePull(init, failClosed, fs, n - 1);
    }
  }

  /** The expected rules are in force throughout a sequence of successful and failed pulls if and only
      if no fetch repeats the last version with other rules than those expected. */
  lemma UpToDateIff(init: Rules, failClosed: bool, fs: seq<Fetch>)
    ensures UpToDateSoFar(init, failClosed, fs) <==>
      forall i | 0 <= i < |fs| :: RepeatsFaithfully(init, failClosed, fs, i)
  {
    if forall i | 0 <= i < |fs| :: RepeatsFaithfully(init, failClosed, fs, i) {
      forall n | 0 <= n <= |fs| ensures After(init, failClosed, fs[..n]).rules == Expected(init, failClosed, fs[..n]) {
        UpToDateFrom(init, failClosed, fs, n);
      }
    } else if UpToDateSoFar(init, failClosed, fs) {
      forall i | 0 <= i < |fs| ensures RepeatsFaithfully(init, failClosed, fs, i) {
        OnePull(init, failClosed, fs, i);
      }
    }
  }

  /** Equal versions mean equal rules. */
  ghost predicate VersionsHonest(fs: seq<Fetch>) {
    forall i, j | 0 <= i < j < |fs| && fs[i].Some? && fs[j].Some? && fs[i].value.version == fs[j].value.version != "" ::
      RuleMapOf(fs[i].value.rules) == RuleMapOf(fs[j].value.rules)
  }

  /** Where a version last came from, and what has been expected since, failures changing nothing. */
  lemma {:induction false} LastSource(init: Rules, fs: seq<Fetch>) returns (i: nat)
    requires LastVersion(fs) != ""
    ensures i < |fs| && fs[i].Some? && fs[i].value.version == LastVersion(fs)
    ensures Expected(init, false, fs) == RuleMapOf(fs[i].value.rules)
  {
    if Last(fs).Some? {
      i := |fs| - 1;
    } else {
      i := LastSource(init, Front(fs));
    }
  }

  /** Unless the policy is fail-closed, an honest source keeps the last good rules in force. */
  lemma LastGood(init: Rules, fs: seq<Fetch>)
    requires VersionsHonest(fs)
    ensures After(init, false, fs).rules == Expected(init, false, fs)
  {
    forall i | 0 <= i < |fs| ensures RepeatsFaithfully(init, false, fs, i) {
      if fs[i].Some? && Skips(LastVersion(fs[..i]), fs[i].value) {
        var j := LastSource(init, fs[..i]);
        assert fs[..i][j] == fs[j];
      }
    }
    UpToDateFrom(init, false, fs, |fs|);
    assert fs[..|fs|] == fs;
  }

  /** Under fail-closed even an honest source loses its rules: they are dropped on a failure, and the
      next fetch, being of the same version, is skipped. */
  lemma FailClosedForgets(init: Rules, p: Payload)
    requires p.version != "" && RuleMapOf(p.rules) != map[]
    ensures var fs := [Some(p), None, Some(p)];
      VersionsHonest(fs) && After(init, true, fs).rules == map[] != Expected(init, true, fs)
  {
    var fs: seq<Fetch> := [Some(p), None, Some(p)];
    assert Front(fs) == [Some(p), None] && Front(Front(fs)) == [Some(p)] && Front([Some(p)]) == [];
    assert After(init, true, [Some(p)]) == State(RuleMapOf(p.rules), p.version);
    assert After(init, true, [Some(p), None]) == State(map[], p.version);
  }
}
