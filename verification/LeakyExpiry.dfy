/** When does it matter that Redis forgets an idle leaky bucket? With rate `a / b` in lowest terms
    every level is a multiple of `1 / b`, so the fullest reachable queue is `q + 1 - 1 / b`; the
    eviction is unobservable exactly when that much drains away before it. */
module LeakyExpiry {
  import opened Basics
  import opened Euclid
  import opened LeakyBucket

  /** `j / b`: the level after `j` steps of the grid. */
  function Level(j: int, b: int): real
    requires b > 0
  {
    j as real / b as real
  }

  lemma LevelArithmetic(j: int, k: int, b: int)
    requires b > 0
    ensures Level(j + k, b) == Level(j, b) + Level(k, b)
    ensures Level(j - k, b) == Level(j, b) - Level(k, b)
    ensures Level(b, b) == 1.0 && Level(0, b) == 0.0
    ensures j < k <==> Level(j, b) < Level(k, b)
    ensures j == k <==> Level(j, b) == Level(k, b)
  {
    assert Level(j, b) * b as real == j as real;
    assert Level(k, b) * b as real == k as real;
    assert Level(j + k, b) * b as real == (j + k) as real;
    assert Level(j - k, b) * b as real == (j - k) as real;
    assert (Level(j, b) + Level(k, b)) * b as real == (j + k) as real;
    assert (Level(j, b) - Level(k, b)) * b as real == (j - k) as real;
  }

  lemma EarnedOnGrid(n: int, a: int, b: int)
    requires b > 0
    ensures Earned(n, Level(a, b)) == Level(n * a, b)
  {
    assert Level(a, b) * b as real == a as real;
    assert (n as real * Level(a, b)) * b as real == n as real * a as real == (n * a) as real;
    assert Level(n * a, b) * b as real == (n * a) as real;
  }

  /** A queue of `full / b` slots draining `a / b` per millisecond. */
  ghost predicate OnGrid(d: Drain, full: int, a: int, b: int) {
    full >= b >= 1 && a >= 1 && d.Valid() && d.rate == Level(a, b) && d.maxQueue == Level(full, b)
  }

  /** The grid level left after `gap` milliseconds, and the level after one more request. */
  function Left(a: int, j: int, gap: int): int {
    if j - gap * a > 0 then j - gap * a else 0
  }

  function Next(full: int, a: int, b: int, j: int, gap: int): int {
    Left(a, j, gap) + if Left(a, j, gap) < full then b else 0
  }

  lemma NextIsOffer(d: Drain, full: int, a: int, b: int, j: int, last: int, now: int)
    requires OnGrid(d, full, a, b) && last <= now && j >= 0
    requires d.Seen(Some(Queue(Level(j, b), last)), now).Some?
    ensures d.Offer(Some(Queue(Level(j, b), last)), now) == Queue(Level(Next(full, a, b, j, now - last), b), now)
    ensures d.Admits(Some(Queue(Level(j, b), last)), now) <==> Left(a, j, now - last) < full
  {
    var left := Left(a, j, now - last);
    EarnedOnGrid(now - last, a, b);
    LevelArithmetic(j, (now - last) * a, b);
    LevelArithmetic(left, full, b);
    LevelArithmetic(left, b, b);
    hide Earned, Level;
  }

  lemma FirstOffer(d: Drain, full: int, a: int, b: int, k: Option<Queue>, now: int)
    requires OnGrid(d, full, a, b) && d.Seen(k, now).None?
    ensures d.Offer(k, now) == Queue(Level(b, b), now)
  {
    LevelArithmetic(0, full, b);
    LevelArithmetic(0, b, b);
  }

  // ---------------------------------------------------------------- no eviction is noticed

  /** Levels stay on the grid and strictly below `q + 1`. */
  lemma {:induction false} StaysOnGrid(d: Drain, full: int, a: int, b: int, ts: seq<int>) returns (j: int)
    requires OnGrid(d, full, a, b) && d.ttl.None? && NonDecreasing(ts) && ts != []
    ensures 0 <= j < full + b
    ensures d.After(None, ts) == Some(Queue(Level(j, b), Last(ts)))
  {
    if |ts| == 1 {
      assert Front(ts) == [];
      FirstOffer(d, full, a, b, None, Last(ts));
      j := b;
    } else {
      var i := StaysOnGrid(d, full, a, b, Front(ts));
      var gap := Last(ts) - Last(Front(ts));
      NextIsOffer(d, full, a, b, i, Last(Front(ts)), Last(ts));
      Scale(gap, 0, a);
      j := Next(full, a, b, i, gap);
    }
  }

  /** The fullest queue is empty by the first millisecond at which it can be gone. */
  predicate DrainsBeforeEviction(full: int, a: int, b: int, ttl: int) {
    (ttl + 1) * a >= full + b - 1
  }

  ghost predicate Unobservable(d: Drain) {
    forall ts | NonDecreasing(ts) :: d.Replies(None, ts) == d.Forever().Replies(None, ts)
  }

  lemma EmptyEitherWay(d: Drain, full: int, a: int, b: int, j: int, last: int, now: int)
    requires OnGrid(d, full, a, b) && d.ttl.Some? && DrainsBeforeEviction(full, a, b, d.ttl.value)
    requires 0 <= j < full + b && now > last + d.ttl.value
    ensures var k := Some(Queue(Level(j, b), last)); d.Forever().Drained(k, now) == 0.0 == d.Drained(k, now)
  {
    var gap := now - last;
    DrainsAway(full, a, b, j, d.ttl.value, gap);
    EarnedOnGrid(gap, a, b);
    LevelArithmetic(j, gap * a, b);
    hide Earned, Level;
  }

  lemma DrainsAway(full: int, a: int, b: int, j: int, ttl: int, gap: int)
    requires DrainsBeforeEviction(full, a, b, ttl) && a >= 1 && j < full + b && gap > ttl
    ensures j <= gap * a
  {
    Scale(a, ttl + 1, gap);
    assert a * (ttl + 1) == (ttl + 1) * a && a * gap == gap * a;
  }

  lemma {:induction false} SameRun(d: Drain, full: int, a: int, b: int, ts: seq<int>)
    requires OnGrid(d, full, a, b) && d.ttl.Some? && DrainsBeforeEviction(full, a, b, d.ttl.value)
    requires NonDecreasing(ts)
    ensures d.After(None, ts) == d.Forever().After(None, ts)
    ensures d.Replies(None, ts) == d.Forever().Replies(None, ts)
    ensures d.Admitted(None, ts) == d.Forever().Admitted(None, ts)
  {
    if ts != [] {
      SameRun(d, full, a, b, Front(ts));
      if Front(ts) != [] {
        var j := StaysOnGrid(d.Forever(), full, a, b, Front(ts));
        var k, now := d.After(None, Front(ts)), Last(ts);
        if now > k.value.last + d.ttl.value {
          EmptyEitherWay(d, full, a, b, j, k.value.last, now);
        }
        hide Earned, Level, OnGrid, DrainsBeforeEviction;
      }
    }
  }

  /** In any interval of a run with evictions fewer than `q + 1` plus what drains meanwhile are admitted. */
  lemma IntervalBound(d: Drain, full: int, a: int, b: int, before: seq<int>, stretch: seq<int>)
    requires OnGrid(d, full, a, b) && d.ttl.Some? && DrainsBeforeEviction(full, a, b, d.ttl.value)
    requires NonDecreasing(before + stretch) && stretch != []
    ensures d.Admitted(d.After(None, before), stretch) as real
          < d.maxQueue + 1.0 + Earned(Last(stretch) - stretch[0], d.rate)
  {
    hide Earned, Drain.After, Drain.Admitted, Drain.Replies, DrainsBeforeEviction;
    var all := before + stretch;
    assert before == all[..|before|] && stretch == all[|before|..];
    SameRun(d, full, a, b, all);
    SameRun(d, full, a, b, before);
    SplitRun(d, None, before, stretch);
    SplitRun(d.Forever(), None, before, stretch);
    ForwardIsElapsed(stretch);
    RateBound(d.Forever(), before, stretch);
  }

  // ---------------------------------------------------------------- an eviction is noticed

  function Fill(ts: seq<int>, now: int, n: nat): seq<int> {
    if n == 0 then ts else Fill(ts, now, n - 1) + [now]
  }

  /** One request in each of the `n` milliseconds after `now`. */
  function Rotate(ts: seq<int>, now: int, n: nat): seq<int> {
    if n == 0 then ts else Rotate(ts, now, n - 1) + [now + n]
  }

  /** The run `ts` ends at `now` with the queue at grid level `j`. */
  ghost predicate At(d: Drain, ts: seq<int>, b: int, j: int, now: int)
    requires b > 0
  {
    && ts != [] && NonDecreasing(ts) && Last(ts) == now
    && d.After(None, ts) == Some(Queue(Level(j, b), now))
  }

  lemma Append(d: Drain, ts: seq<int>, now: int)
    requires ts != [] && NonDecreasing(ts) && Last(ts) <= now
    ensures NonDecreasing(ts + [now]) && Last(ts + [now]) == now
    ensures d.After(None, ts + [now]) == Some(d.Offer(d.After(None, ts), now))
    ensures d.Replies(None, ts + [now]) == d.Replies(None, ts) + [d.Respond(d.After(None, ts), now)]
  {
    assert Front(ts + [now]) == ts;
    LastIsLatest(ts);
  }

  lemma Step(d: Drain, full: int, a: int, b: int, ts: seq<int>, j: int, last: int, now: int)
    requires OnGrid(d, full, a, b) && At(d, ts, b, j, last) && j >= 0 && last <= now
    requires d.ttl.Some? ==> now <= last + d.ttl.value
    ensures At(d, ts + [now], b, Next(full, a, b, j, now - last), now)
    ensures d.Admits(d.After(None, ts), now) <==> Left(a, j, now - last) < full
  {
    hide Level, Earned, Left, Next;
    Append(d, ts, now);
    NextIsOffer(d, full, a, b, j, last, now);
  }

  lemma StepAfterEviction(d: Drain, full: int, a: int, b: int, ts: seq<int>, j: int, last: int, now: int)
    requires OnGrid(d, full, a, b) && At(d, ts, b, j, last)
    requires d.ttl.Some? && now > last + d.ttl.value
    ensures At(d, ts + [now], b, b, now)
  {
    hide Level, Earned;
    Append(d, ts, now);
    FirstOffer(d, full, a, b, d.After(None, ts), now);
  }

  /** `n` slots, in grid steps. */
  function Slots(n: nat, b: int): int {
    if n == 0 then 0 else Slots(n - 1, b) + b
  }

  lemma {:induction false} SlotsAre(n: nat, b: int)
    ensures Slots(n, b) == n * b
  {
    if n > 0 {
      SlotsAre(n - 1, b);
    }
  }

  lemma {:induction false} SlotsSign(n: nat, b: int)
    requires b >= 0
    ensures Slots(n, b) >= 0
  {
    if n > 0 {
      SlotsSign(n - 1, b);
    }
  }

  /** Requests in one millisecond fill the queue, slot by slot. */
  lemma {:induction false} FillUp(d: Drain, full: int, a: int, b: int, ts: seq<int>, now: int, e: int, n: nat)
    requires OnGrid(d, full, a, b) && 0 <= e && (n > 0 ==> e + Slots(n, b) < full)
    requires At(d, ts, b, e + b, now)
    ensures At(d, Fill(ts, now, n), b, e + b + Slots(n, b), now)
  {
    hide At, Earned, Level;
    if n > 0 {
      SlotsSign(n - 1, b);
      FillUp(d, full, a, b, ts, now, e, n - 1);
      Step(d, full, a, b, Fill(ts, now, n - 1), e + b + Slots(n - 1, b), now, now);
    }
  }

  /** Where a full queue stands after `n` milliseconds of one request each. */
  function Phase(full: int, a: int, b: int, n: nat): int
    requires b > 0
  {
    full + (-(n * a)) % b
  }

  lemma PhaseZero(full: int, a: int, b: int)
    requires b > 0
    ensures Phase(full, a, b, 0) == full
  {
    Remainder(-(0 * a), b, 0, 0);
  }

  lemma PhaseStep(full: int, a: int, b: int, n: nat)
    requires full >= b && 0 < a < b && n > 0
    ensures Next(full, a, b, Phase(full, a, b, n - 1), 1) == Phase(full, a, b, n)
    ensures Left(a, Phase(full, a, b, n - 1), 1) == Phase(full, a, b, n - 1) - a > 0
    ensures full <= Phase(full, a, b, n) < full + b
  {
    var x := -((n - 1) * a);
    var k, r := x / b, x % b;
    assert -(n * a) == x - a && x == b * k + r;
    if r >= a {
      Remainder(x - a, b, k, r - a);
    } else {
      assert b * (k - 1) == b * k - b;
      Remainder(x - a, b, k - 1, r - a + b);
    }
  }

  lemma {:induction false} Rotated(d: Drain, full: int, a: int, b: int, ts: seq<int>, now: int, n: nat)
    requires OnGrid(d, full, a, b) && a < b && At(d, ts, b, full, now)
    ensures At(d, Rotate(ts, now, n), b, Phase(full, a, b, n), now + n)
  {
    hide At, Earned, Level, Phase;
    PhaseZero(full, a, b);
    if n > 0 {
      Rotated(d, full, a, b, ts, now, n - 1);
      PhaseStep(full, a, b, n);
      Step(d, full, a, b, Rotate(ts, now, n - 1), Phase(full, a, b, n - 1), now + n - 1, now + n);
    }
  }

  /** The evicting and the keeping queue decide alike about the request `i + 1` ms into the rotation. */
  ghost predicate Agree(d: Drain, ts: seq<int>, now: int, i: nat) {
    var us := Rotate(ts, now, i);
    d.Admits(d.After(None, us), now + i + 1) <==> d.Forever().Admits(d.Forever().After(None, us), now + i + 1)
  }

  lemma AheadStep(d: Drain, full: int, a: int, b: int, ts: seq<int>, now: int, e: int, n: nat)
    requires OnGrid(d, full, a, b) && d.ttl.Some? && 0 < a < b && e >= 0 && n > 0
    requires At(d, Rotate(ts, now, n - 1), b, Phase(full, a, b, n - 1), now + (n - 1))
    requires At(d.Forever(), Rotate(ts, now, n - 1), b, Phase(full, a, b, n - 1) + e, now + (n - 1))
    requires Agree(d, ts, now, n - 1)
    ensures At(d.Forever(), Rotate(ts, now, n), b, Phase(full, a, b, n) + e, now + n)
  {
    hide At, Earned, Level, Phase;
    PhaseStep(full, a, b, n);
    var i, us := Phase(full, a, b, n - 1), Rotate(ts, now, n - 1);
    Step(d, full, a, b, us, i, now + (n - 1), now + n);
    Step(d.Forever(), full, a, b, us, i + e, now + (n - 1), now + n);
  }

  /** As long as the decisions agree, a queue that kept `e` extra steps stays exactly `e` ahead. */
  lemma {:induction false} StaysAhead(d: Drain, full: int, a: int, b: int, ts: seq<int>, now: int, e: int, n: nat)
    requires OnGrid(d, full, a, b) && d.ttl.Some? && a < b && e >= 0
    requires At(d, ts, b, full, now) && At(d.Forever(), ts, b, full + e, now)
    requires forall i: nat | i < n :: Agree(d, ts, now, i)
    ensures At(d.Forever(), Rotate(ts, now, n), b, Phase(full, a, b, n) + e, now + n)
  {
    hide At, Earned, Level, Phase, Agree;
    PhaseZero(full, a, b);
    if n > 0 {
      Rotated(d, full, a, b, ts, now, n - 1);
      StaysAhead(d, full, a, b, ts, now, e, n - 1);
      AheadStep(d, full, a, b, ts, now, e, n);
    }
  }

  lemma DisagreementShows(d: Drain, ts: seq<int>, now: int, i: nat, b: int, j: int)
    requires b > 0 && At(d, Rotate(ts, now, i), b, j, now + i)
    requires !Agree(d, ts, now, i)
    ensures !Unobservable(d)
  {
    hide Level, Earned;
    var f, us, next := d.Forever(), Rotate(ts, now, i), now + i + 1;
    Append(d, us, next);
    Append(f, us, next);
    assert Last(d.Replies(None, us + [next])) != Last(f.Replies(None, us + [next]));
  }

  lemma Positive(full: int, q: int, b: int)
    requires full == q * b && full >= b >= 1
    ensures q >= 1 && Slots(q - 1, b) == full - b
  {
    if q < 1 {
      Scale(b, q, 0);
      assert false;
    }
    SlotsAre(q - 1, b);
  }

  /** The run up to the eviction: the queue is filled and rotated. */
  lemma Top(d: Drain, full: int, q: int, a: int, b: int, n: nat)
    requires OnGrid(d, full, a, b) && full == q * b && a < b
    ensures q >= 1 && At(d, Rotate(Fill([0], 0, q - 1), 0, n), b, Phase(full, a, b, n), n)
  {
    Positive(full, q, b);
    FirstOffer(d, full, a, b, None, 0);
    assert Front([0]) == [] && Last([0]) == 0;
    assert d.After(None, [0]) == Some(d.Offer(d.After(None, Front([0])), 0));
    hide At, Earned, Level, Phase;
    FillUp(d, full, a, b, [0], 0, 0, q - 1);
    Rotated(d, full, a, b, Fill([0], 0, q - 1), 0, n);
  }

  /** The run after the eviction: fill up again. The evicted queue is full, the kept one `e` fuller. */
  lemma Refill(d: Drain, full: int, q: int, a: int, b: int, top: seq<int>, j: int, n: nat, e: int)
    requires OnGrid(d, full, a, b) && full == q * b && d.ttl.Some?
    requires j >= 0 && 0 < e < b && e == Left(a, j, d.ttl.value + 1)
    requires At(d, top, b, j, n) && At(d.Forever(), top, b, j, n)
    ensures q >= 1
    ensures var now := n + d.ttl.value + 1; var ts := Fill(top + [now], now, q - 1);
      At(d, ts, b, full, now) && At(d.Forever(), ts, b, full + e, now)
  {
    hide At, Earned, Level;
    Positive(full, q, b);
    var f, now := d.Forever(), n + d.ttl.value + 1;
    StepAfterEviction(d, full, a, b, top, j, n, now);
    Step(f, full, a, b, top, j, n, now);
    FillUp(d, full, a, b, top + [now], now, 0, q - 1);
    FillUp(f, full, a, b, top + [now], now, e, q - 1);
  }

  /** Fill the queue, rotate it to its fullest level, wait for the eviction, fill up again and rotate
      once more: replies that agreed all the way would put the kept queue past `q + 1`. */
  lemma Noticed(d: Drain, full: int, q: int, a: int, b: int, s: int, t: int)
    requires OnGrid(d, full, a, b) && full == q * b && d.ttl.Some? && a < b && s * a + t * b == 1
    requires full < (d.ttl.value + 1) * a && !DrainsBeforeEviction(full, a, b, d.ttl.value)
    ensures !Unobservable(d)
  {
    var n := Inverse(a, b, s, t);
    TopPhase(full, a, b, n);
    WakeLevel(full, a, b, d.ttl.value + 1);
    hide *;
    PastTop(d, full, q, a, b, n, Left(a, full + b - 1, d.ttl.value + 1));
  }

  lemma PastTop(d: Drain, full: int, q: int, a: int, b: int, n: nat, e: int)
    requires OnGrid(d, full, a, b) && full == q * b && d.ttl.Some? && a < b
    requires Phase(full, a, b, n) == full + b - 1
    requires 0 < e < b && e == Left(a, full + b - 1, d.ttl.value + 1)
    ensures !Unobservable(d)
  {
    hide At, Earned, Level, Phase, Left, Agree, Unobservable;
    Top(d, full, q, a, b, n);
    Top(d.Forever(), full, q, a, b, n);
    var top := Rotate(Fill([0], 0, q - 1), 0, n);
    Refill(d, full, q, a, b, top, full + b - 1, n, e);
    var now := n + d.ttl.value + 1;
    var ts := Fill(top + [now], now, q - 1);
    if forall i: nat | i < n :: Agree(d, ts, now, i) {
      StaysAhead(d, full, a, b, ts, now, e, n);
      NeverPastTop(d.Forever(), full, a, b, Rotate(ts, now, n), full + b - 1 + e, now + n);
      assert false;
    } else {
      var i: nat :| i < n && !Agree(d, ts, now, i);
      Rotated(d, full, a, b, ts, now, i);
      DisagreementShows(d, ts, now, i, b, Phase(full, a, b, i));
    }
  }

  lemma WakeLevel(full: int, a: int, b: int, wait: int)
    requires full < wait * a < full + b - 1
    ensures 0 < Left(a, full + b - 1, wait) < b
  {
  }

  lemma TopPhase(full: int, a: int, b: int, n: nat)
    requires b > 0 && (-(n * a)) % b == b - 1
    ensures Phase(full, a, b, n) == full + b - 1
  {
  }

  lemma NeverPastTop(d: Drain, full: int, a: int, b: int, ts: seq<int>, j: int, now: int)
    requires OnGrid(d, full, a, b) && d.ttl.None? && At(d, ts, b, j, now)
    ensures j < full + b
  {
    hide Earned;
    var i := StaysOnGrid(d, full, a, b, ts);
    LevelArithmetic(i, j, b);
  }
}
