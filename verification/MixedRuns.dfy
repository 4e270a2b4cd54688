/** What a rule guarantees in the middle of everybody else's traffic: the limits of `RuleLimits`, counted on
    the decisions that callers of one triple receive while calls of all triples share one store. */
module MixedRuns {
  import opened Basics
  import opened Config
  import opened Limiters
  import opened LimiterRuns
  import opened RuleMachines
  import T = TokenBucket
  import L = LeakyBucket
  import S = SlidingWindow
  import RuleLimits
  import TokenExpiry

  /** Everybody's calls, those of one triple always under the same rule; keys may fail to be reached. */
  ghost predicate Fits(cs: seq<Call>, t: Triple, rule: Rule) {
    Runs(rule) && Proper(cs) && IsHex(t.dimKey) && UnderOneRule(cs, t, rule)
  }

  lemma FitsFront(cs: seq<Call>, t: Triple, rule: Rule)
    requires Fits(cs, t, rule) && cs != []
    ensures Runs(rule) && Fits(Front(cs), t, rule)
  {
    assert forall c <- Front(cs) :: c in cs;
    hide IsHex;
  }

  // ---------------------------------------------------------------- counting what is granted

  /** The triple's allowed decisions in a stretch of a run on a fresh store. */
  ghost function Granted(prefix: string, before: seq<Call>, stretch: seq<Call>, t: Triple): nat {
    if stretch == [] then 0
    else
      var c := Last(stretch);
      var allowed := c.triple == t && Answer(prefix, map[], before + Front(stretch), c).dec.allowed;
      Granted(prefix, before, Front(stretch), t) + if allowed then 1 else 0
  }

  ghost predicate MachineAdmits(t: Triple, rule: Rule, st: State, now: int)
    requires Runs(rule)
  {
    match t.algo
    case TokenBucket => TokenMachine(rule).Admits(st.token, now)
    case LeakyBucket => LeakyMachine(rule).Admits(st.leaky, now)
    case SlidingWindow => SlidingMachine(rule).Admits(st.sliding, now)
  }

  /** What the triple's machine admits in the stretch. */
  ghost function MachineGrants(prefix: string, rule: Rule, before: seq<Call>, stretch: seq<Call>, t: Triple): nat
    requires Runs(rule)
  {
    if stretch == [] then 0
    else
      var c := Last(stretch);
      var st := StateAfter(prefix, rule, before + Front(stretch), t);
      MachineGrants(prefix, rule, before, Front(stretch), t)
        + if Touches(prefix, c, t) && MachineAdmits(t, rule, st, c.now) then 1 else 0
  }

  lemma RepliesAdmit(t: Triple, rule: Rule, st: State, now: int, served: Served)
    requires Runs(rule) && TokenMachine(rule).rate > 0.0 && Replies(t, rule, st, now, served)
    ensures served.dec.allowed <==> MachineAdmits(t, rule, st, now)
  {
    hide TokenMachine, LeakyMachine, SlidingMachine;
  }

  lemma OneGrant(prefix: string, t: Triple, rule: Rule, cs: seq<Call>, c: Call)
    requires Fits(cs + [c], t, rule) && c.triple == t
    ensures Runs(rule)
    ensures Answer(prefix, map[], cs, c).dec.allowed
       <==> Touches(prefix, c, t) && MachineAdmits(t, rule, StateAfter(prefix, rule, cs, t), c.now)
  {
    hide Touches, Answer, StateAfter, Replies, MachineAdmits;
    OwnAnswer(prefix, t, rule, cs, c);
    if Touches(prefix, c, t) {
      RepliesAdmit(t, rule, StateAfter(prefix, rule, cs, t), c.now, Answer(prefix, map[], cs, c));
    }
  }

  /** In every stretch of every run, under any clock, a triple is granted exactly what its machine admits. */
  lemma {:induction false} GrantedByMachine(prefix: string, t: Triple, rule: Rule,
                                            before: seq<Call>, stretch: seq<Call>)
    requires Runs(rule) && Fits(before + stretch, t, rule)
    ensures Granted(prefix, before, stretch, t) == MachineGrants(prefix, rule, before, stretch, t)
    decreases |stretch|
  {
    hide Answer, Fits, StateAfter, MachineAdmits, KeyOf;
    if stretch != [] {
      var front, c := Front(stretch), Last(stretch);
      assert before + stretch == before + front + [c] && Front(before + stretch) == before + front;
      FitsFront(before + stretch, t, rule);
      GrantedByMachine(prefix, t, rule, before, front);
      if c.triple == t {
        OneGrant(prefix, t, rule, before + front, c);
      }
    }
  }

  // ---------------------------------------------------------------- forward clocks

  lemma {:induction false} OwnTimesJoin(prefix: string, a: seq<Call>, b: seq<Call>, t: Triple)
    ensures OwnTimes(prefix, a + b, t) == OwnTimes(prefix, a, t) + OwnTimes(prefix, b, t)
    decreases |b|
  {
    hide Touches;
    if b == [] {
      assert a + b == a;
    } else {
      assert Front(a + b) == a + Front(b);
      OwnTimesJoin(prefix, a, Front(b), t);
    }
  }

  /** The triple's own request times lie within the run's, in order. */
  lemma {:induction false} OwnInOrder(prefix: string, cs: seq<Call>, t: Triple)
    requires Onward(cs)
    ensures var ts := OwnTimes(prefix, cs, t);
      NonDecreasing(ts) && (ts != [] ==> cs != [] && cs[0].now <= ts[0] && Last(ts) <= Last(cs).now)
  {
    hide Touches;
    if cs != [] {
      OwnInOrder(prefix, Front(cs), t);
      assert Front(cs) != [] ==> Front(cs)[0] == cs[0] && Last(Front(cs)).now <= Last(cs).now;
    }
  }

  lemma OnwardParts(prefix: string, before: seq<Call>, stretch: seq<Call>, t: Triple)
    requires Onward(before + stretch) && stretch != []
    ensures var ts := OwnTimes(prefix, stretch, t);
      && NonDecreasing(OwnTimes(prefix, before, t) + ts) && stretch[0].now <= Last(stretch).now
      && (ts != [] ==> stretch[0].now <= ts[0] && Last(ts) <= Last(stretch).now)
  {
    hide OwnTimes;
    var all := before + stretch;
    assert stretch == all[|before|..];
    assert all[|before|] == stretch[0] && all[|all| - 1] == Last(stretch);
    OwnInOrder(prefix, all, t);
    OwnInOrder(prefix, stretch, t);
    OwnTimesJoin(prefix, before, stretch, t);
  }

  /** What the machine admits of requests at the times `ts`, after requests at `before` and no others. */
  ghost function PureGrants(t: Triple, rule: Rule, before: seq<int>, ts: seq<int>): nat
    requires Runs(rule)
  {
    if ts == [] then 0
    else
      var admitted := MachineAdmits(t, rule, Pure(rule, before + Front(ts)), Last(ts));
      PureGrants(t, rule, before, Front(ts)) + if admitted then 1 else 0
  }

  lemma RestDoesNotShow(t: Triple, rule: Rule, st: State, a: int, b: int)
    requires Runs(rule) && a <= b
    ensures MachineAdmits(t, rule, Rested(rule, st, a), b) <==> MachineAdmits(t, rule, st, b)
  {
    RestedTwice(rule, st, a, b);
    hide TokenMachine, LeakyMachine, SlidingMachine, Earned;
    var w := SlidingMachine(rule);
    assert w.Seen(KeptLog(w, st.sliding, a), b) == w.Seen(st.sliding, b);
    SameEntered(w, w, KeptLog(w, st.sliding, a), st.sliding, b);
  }

  lemma OnwardFront(cs: seq<Call>)
    requires Onward(cs) && cs != []
    ensures Onward(Front(cs))
  {
  }

  lemma OnwardAdmits(prefix: string, t: Triple, rule: Rule, cs: seq<Call>, c: Call)
    requires Runs(rule) && Onward(cs + [c])
    ensures MachineAdmits(t, rule, StateAfter(prefix, rule, cs, t), c.now)
       <==> MachineAdmits(t, rule, Pure(rule, OwnTimes(prefix, cs, t)), c.now)
  {
    hide MachineAdmits, Rested, Pure, Touches;
    var all := cs + [c];
    if cs == [] {
      PureSteps(rule, [], 0);
    } else {
      assert all[|cs| - 1] == Last(cs) && all[|cs|] == c && Front(all) == cs;
      OnwardFront(all);
      OnwardIsPure(prefix, rule, cs, t);
      RestDoesNotShow(t, rule, Pure(rule, OwnTimes(prefix, cs, t)), Last(cs).now, c.now);
    }
  }

  lemma GrantsGrow(t: Triple, rule: Rule, before: seq<int>, ts: seq<int>, now: int)
    requires Runs(rule)
    ensures PureGrants(t, rule, before, ts + [now])
         == PureGrants(t, rule, before, ts) + if MachineAdmits(t, rule, Pure(rule, before + ts), now) then 1 else 0
  {
    hide MachineAdmits, Pure;
    assert Front(ts + [now]) == ts;
  }

  lemma {:induction false} OnwardGrants(prefix: string, t: Triple, rule: Rule, before: seq<Call>, stretch: seq<Call>)
    requires Runs(rule) && Onward(before + stretch)
    ensures MachineGrants(prefix, rule, before, stretch, t)
         == PureGrants(t, rule, OwnTimes(prefix, before, t), OwnTimes(prefix, stretch, t))
    decreases |stretch|
  {
    hide Onward, StateAfter, MachineAdmits, Touches, Pure;
    if stretch != [] {
      var front, c := Front(stretch), Last(stretch);
      var tb, ts := OwnTimes(prefix, before, t), OwnTimes(prefix, front, t);
      assert before + stretch == before + front + [c] && Front(before + stretch) == before + front;
      OnwardFront(before + stretch);
      OnwardGrants(prefix, t, rule, before, front);
      OnwardAdmits(prefix, t, rule, before + front, c);
      OwnTimesJoin(prefix, before, front, t);
      GrantsGrow(t, rule, tb, ts, c.now);
      assert ts + [] == ts;
    }
  }

  lemma {:induction false} TokenGrants(t: Triple, rule: Rule, before: seq<int>, ts: seq<int>)
    requires Runs(rule) && t.algo.TokenBucket?
    ensures var m := TokenMachine(rule); PureGrants(t, rule, before, ts) == m.Admitted(m.After(None, before), ts)
  {
    hide T.Meter.Admits, T.Meter.Take, TokenMachine;
    if ts != [] {
      TokenGrants(t, rule, before, Front(ts));
      TokenExpiry.SplitRun(TokenMachine(rule), None, before, Front(ts));
    }
  }

  lemma {:induction false} LeakyGrants(t: Triple, rule: Rule, before: seq<int>, ts: seq<int>)
    requires Runs(rule) && t.algo.LeakyBucket?
    ensures var d := LeakyMachine(rule); PureGrants(t, rule, before, ts) == d.Admitted(d.After(None, before), ts)
  {
    hide L.Drain.Admits, L.Drain.Offer, LeakyMachine;
    if ts != [] {
      LeakyGrants(t, rule, before, Front(ts));
      L.SplitRun(LeakyMachine(rule), None, before, Front(ts));
    }
  }

  // ---------------------------------------------------------------- the bounds

  lemma PureBound(prefix: string, t: Triple, rule: Rule, before: seq<Call>, stretch: seq<Call>)
    requires Runs(rule) && Fits(before + stretch, t, rule) && Onward(before + stretch) && stretch != []
    ensures Granted(prefix, before, stretch, t)
         == PureGrants(t, rule, OwnTimes(prefix, before, t), OwnTimes(prefix, stretch, t))
  {
    hide *;
    GrantedByMachine(prefix, t, rule, before, stretch);
    OnwardGrants(prefix, t, rule, before, stretch);
  }

  /** A token bucket rule whose evictions are unobservable grants each of its triples at most
      `limit + burst + D * limit / window` requests in any interval of length `D`, whatever else goes on. */
  lemma TokenBound(prefix: string, t: Triple, rule: Rule, before: seq<Call>, stretch: seq<Call>)
    requires Runs(rule) && t.algo.TokenBucket? && RuleLimits.FitsInt64(rule) && RuleLimits.RefillsInTime(rule)
    requires Fits(before + stretch, t, rule) && Onward(before + stretch) && stretch != []
    ensures Granted(prefix, before, stretch, t) as real
         <= Max(0.0, (rule.limit + rule.burst) as real)
            + Earned(Last(stretch).now - stretch[0].now, rule.limit as real / rule.windowMs as real)
  {
    hide *;
    PureBound(prefix, t, rule, before, stretch);
    OnwardParts(prefix, before, stretch, t);
    TokenStretch(t, rule, OwnTimes(prefix, before, t), OwnTimes(prefix, stretch, t),
                 stretch[0].now, Last(stretch).now);
  }

  lemma PositiveRate(rule: Rule)
    requires Runs(rule)
    ensures rule.limit as real / rule.windowMs as real > 0.0
  {
  }

  lemma TokenStretch(t: Triple, rule: Rule, before: seq<int>, ts: seq<int>, from: int, to: int)
    requires Runs(rule) && t.algo.TokenBucket? && RuleLimits.FitsInt64(rule) && RuleLimits.RefillsInTime(rule)
    requires NonDecreasing(before + ts) && from <= to && (ts != [] ==> from <= ts[0] && Last(ts) <= to)
    ensures PureGrants(t, rule, before, ts) as real
         <= Max(0.0, (rule.limit + rule.burst) as real) + Earned(to - from, rule.limit as real / rule.windowMs as real)
  {
    hide Earned, RuleLimits.RefillsInTime, T.Meter.Admitted, T.Meter.After, TokenMachine, LeakyMachine, SlidingMachine;
    var rate := rule.limit as real / rule.windowMs as real;
    PositiveRate(rule);
    EarnedSign(to - from, rate);
    if ts != [] {
      TokenGrants(t, rule, before, ts);
      RuleLimits.IntervalBound(rule, before, ts);
      EarnedGrows(Last(ts) - ts[0], to - from, rate);
      hide PureGrants;
    }
  }

  /** A leaky bucket rule whose evictions are unobservable grants fewer than `q + 1 + D * limit / window`. */
  lemma LeakyBound(prefix: string, t: Triple, rule: Rule, before: seq<Call>, stretch: seq<Call>)
    requires Runs(rule) && t.algo.LeakyBucket? && RuleLimits.DrainsInTime(rule)
    requires Fits(before + stretch, t, rule) && Onward(before + stretch) && stretch != []
    ensures Granted(prefix, before, stretch, t) as real
          < ((if rule.burst > 0 then rule.burst else rule.limit) + 1) as real
            + Earned(Last(stretch).now - stretch[0].now, rule.limit as real / rule.windowMs as real)
  {
    hide *;
    PureBound(prefix, t, rule, before, stretch);
    OnwardParts(prefix, before, stretch, t);
    LeakyStretch(t, rule, OwnTimes(prefix, before, t), OwnTimes(prefix, stretch, t),
                 stretch[0].now, Last(stretch).now);
  }

  lemma LeakyStretch(t: Triple, rule: Rule, before: seq<int>, ts: seq<int>, from: int, to: int)
    requires Runs(rule) && t.algo.LeakyBucket? && RuleLimits.DrainsInTime(rule)
    requires NonDecreasing(before + ts) && from <= to && (ts != [] ==> from <= ts[0] && Last(ts) <= to)
    ensures PureGrants(t, rule, before, ts) as real
          < ((if rule.burst > 0 then rule.burst else rule.limit) + 1) as real
            + Earned(to - from, rule.limit as real / rule.windowMs as real)
  {
    hide Earned, RuleLimits.DrainsInTime, L.Drain.Admitted, L.Drain.After, TokenMachine, LeakyMachine, SlidingMachine;
    var rate := rule.limit as real / rule.windowMs as real;
    PositiveRate(rule);
    EarnedSign(to - from, rate);
    if ts != [] {
      LeakyGrants(t, rule, before, ts);
      RuleLimits.LeakyIntervalBound(rule, before, ts);
      EarnedGrows(Last(ts) - ts[0], to - from, rate);
      hide PureGrants;
    }
  }

  lemma AdmittedGrows(w: S.Window, ts: seq<int>, now: int, end: int)
    ensures w.AdmittedIn(ts + [now], end) ==
      w.AdmittedIn(ts, end) + if w.Admits(w.After(ts), now) && end - w.windowMs < now <= end then {|ts|} else {}
  {
    hide S.Window.Admits, S.Window.After;
    var all := ts + [now];
    assert all[..|ts|] == ts;
    forall i | 0 <= i < |ts|
      ensures w.AdmittedAt(all, i) <==> w.AdmittedAt(ts, i)
    {
      assert all[..i] == ts[..i];
    }
  }

  lemma {:induction false} SlidingGrants(t: Triple, rule: Rule, before: seq<int>, ts: seq<int>, end: int)
    requires Runs(rule) && t.algo.SlidingWindow? && forall u <- ts :: end - rule.windowMs < u <= end
    ensures PureGrants(t, rule, before, ts) <= |SlidingMachine(rule).AdmittedIn(before + ts, end)|
  {
    if ts != [] {
      var w, all := SlidingMachine(rule), before + Front(ts);
      assert forall u <- Front(ts) :: u in ts;
      assert Last(ts) in ts && before + ts == all + [Last(ts)];
      SlidingGrants(t, rule, before, Front(ts), end);
      AdmittedGrows(w, all, Last(ts), end);
      assert |all| !in w.AdmittedIn(all, end);
      hide S.Window.AdmittedIn, S.Window.Admits, S.Window.After, TokenMachine, LeakyMachine;
    }
  }

  /** A sliding window rule grants each of its triples, in any window, at most
      `m * min(limit, window)` requests when its key is touched at most `m` times in any millisecond; so at
      most `limit` when `m` is one. */
  lemma SlidingBound(prefix: string, t: Triple, rule: Rule, before: seq<Call>, stretch: seq<Call>, m: nat)
    requires Runs(rule) && t.algo.SlidingWindow? && Fits(before + stretch, t, rule)
    requires Onward(before + stretch) && (forall c <- before + stretch :: c.now >= 0)
    requires S.AtMostPerMs(OwnTimes(prefix, before + stretch, t), m)
    requires stretch != [] && Last(stretch).now - stretch[0].now < rule.windowMs
    ensures Granted(prefix, before, stretch, t) <= m * Smaller(rule.limit, rule.windowMs)
  {
    hide *;
    var all, end := before + stretch, Last(stretch).now;
    PureBound(prefix, t, rule, before, stretch);
    OwnClock(prefix, all, t);
    OwnTimesJoin(prefix, before, stretch, t);
    OnwardParts(prefix, before, stretch, t);
    SlidingStretch(t, rule, OwnTimes(prefix, before, t), OwnTimes(prefix, stretch, t), end, m);
  }

  lemma {:induction false} OwnFromEpoch(prefix: string, cs: seq<Call>, t: Triple)
    requires forall c <- cs :: c.now >= 0
    ensures forall u <- OwnTimes(prefix, cs, t) :: u >= 0
  {
    hide Touches;
    if cs != [] {
      assert Last(cs) in cs && forall c <- Front(cs) :: c in cs;
      OwnFromEpoch(prefix, Front(cs), t);
    }
  }

  lemma OwnClock(prefix: string, cs: seq<Call>, t: Triple)
    requires Onward(cs) && forall c <- cs :: c.now >= 0
    ensures S.Clock(OwnTimes(prefix, cs, t))
  {
    hide Onward, OwnTimes;
    OwnInOrder(prefix, cs, t);
    OwnFromEpoch(prefix, cs, t);
  }

  lemma SlidingStretch(t: Triple, rule: Rule, before: seq<int>, ts: seq<int>, end: int, m: nat)
    requires Runs(rule) && t.algo.SlidingWindow? && S.Clock(before + ts) && S.AtMostPerMs(before + ts, m)
    requires NonDecreasing(before + ts) && (ts != [] ==> end - rule.windowMs < ts[0] && Last(ts) <= end)
    ensures PureGrants(t, rule, before, ts) <= m * Smaller(rule.limit, rule.windowMs)
  {
    hide S.AtMostPerMs, S.Window.AdmittedIn;
    forall u <- ts
      ensures end - rule.windowMs < u <= end
    {
      var i :| 0 <= i < |ts| && ts[i] == u;
      assert (before + ts)[|before|] == ts[0] && (before + ts)[|before| + i] == u;
      assert (before + ts)[|before| + |ts| - 1] == Last(ts);
    }
    SlidingGrants(t, rule, before, ts, end);
    S.AdmittedBound(SlidingMachine(rule), before + ts, end, m);
  }
}
