/** Shared vocabulary: optional values, results, and the clock. */
module Basics {

  datatype Option<+T> = None | Some(value: T)

  datatype Result<+T, +E> = Ok(value: T) | Err(error: E)

  function Min(a: real, b: real): real {
    if a <= b then a else b
  }

  function Smaller(a: int, b: int): int {
    if a <= b then a else b
  }

  function Max(a: real, b: real): real {
    if a >= b then a else b
  }

  /** A clock that is read again and again and never goes back. */
  predicate NonDecreasing(ts: seq<int>) {
    forall i, j :: 0 <= i < j < |ts| ==> ts[i] <= ts[j]
  }

  /** How far the clock moves from one reading to the next, backward jumps not counted. */
  function Forward(before: int, now: int): nat {
    if now > before then now - before else 0
  }

  /** Total forward movement of the clock between the first and the last reading. */
  function ForwardTotal(ts: seq<int>): nat {
    if |ts| <= 1 then 0
    else ForwardTotal(ts[..|ts| - 1]) + Forward(ts[|ts| - 2], ts[|ts| - 1])
  }

  /** With a clock that never goes back this is just the elapsed time. */
  lemma {:induction false} ForwardIsElapsed(ts: seq<int>)
    requires |ts| > 0 && NonDecreasing(ts)
    ensures ForwardTotal(ts) == ts[|ts| - 1] - ts[0]
  {
    if |ts| > 1 {
      ForwardIsElapsed(ts[..|ts| - 1]);
    }
  }

  /** What a meter running at `rate` per millisecond moves in `ms` milliseconds. */
  function Earned(ms: int, rate: real): real {
    ms as real * rate
  }

  lemma EarnedAdds(a: int, b: int, rate: real)
    ensures Earned(a + b, rate) == Earned(a, rate) + Earned(b, rate)
  {
  }

  lemma EarnedGrows(a: int, b: int, rate: real)
    requires a <= b && rate >= 0.0
    ensures Earned(a, rate) <= Earned(b, rate)
  {
  }

  lemma EarnedSign(ms: nat, rate: real)
    requires rate >= 0.0
    ensures Earned(ms, rate) >= 0.0 && Earned(0, rate) == 0.0
  {
  }

  lemma LastIsLatest(ts: seq<int>)
    requires NonDecreasing(ts) && ts != []
    ensures forall t <- ts :: t <= Last(ts)
  {
  }

  function Front<T>(s: seq<T>): seq<T>
    requires |s| > 0
  {
    s[..|s| - 1]
  }

  function Last<T>(s: seq<T>): T
    requires |s| > 0
  {
    s[|s| - 1]
  }

  /** The largest element of a finite, nonempty set of integers. */
  lemma {:induction false} Largest(s: set<int>) returns (i: int)
    requires s != {}
    ensures i in s && forall j <- s :: j <= i
    decreases s
  {
    i := Member(s);
    var rest := s - {i};
    assert s == rest + {i};
    if rest != {} {
      var j := Largest(rest);
      i := if i >= j then i else j;
    }
  }

  lemma Member<T>(s: set<T>) returns (x: T)
    requires s != {}
    ensures x in s
  {
    x :| x in s;
  }

  lemma {:induction false} SubsetSize<T>(a: set<T>, b: set<T>)
    requires a <= b
    ensures |a| <= |b|
  {
    if a != {} {
      var x :| x in a;
      SubsetSize(a - {x}, b - {x});
    }
  }

  /** A set of integers in (lo, hi] has at most `hi - lo` elements. */
  lemma {:induction false} IntervalSize(s: set<int>, lo: int, hi: int)
    requires lo <= hi && forall t <- s :: lo < t <= hi
    ensures |s| <= hi - lo
    decreases hi - lo
  {
    if lo == hi {
      if s != {} {
        var t := Member(s);
        assert false;
      }
    } else {
      IntervalSize(s - {hi}, lo, hi - 1);
      SubsetSize(s, (s - {hi}) + {hi});
    }
  }

  function Below(n: nat): (s: set<int>)
    ensures |s| == n && forall i :: i in s <==> 0 <= i < n
  {
    if n == 0 then {} else Below(n - 1) + {n - 1}
  }

  lemma Scale(m: nat, a: int, b: int)
    requires a <= b
    ensures m * a <= m * b
  {
  }

  lemma MulSucc(m: nat, k: int)
    ensures m * (k + 1) == m * k + m
  {
  }

  /** `i / m` is the number of the block of `m` consecutive integers that `i` falls in. */
  lemma Block(i: int, m: nat, k: int)
    requires m > 0
    ensures i / m == k <==> m * k <= i < m * k + m
    ensures i < m * k <==> i / m < k
  {
    assert i == m * (i / m) + i % m;
    if i / m < k {
      Scale(m, i / m + 1, k);
    } else {
      Scale(m, k, i / m);
      if i / m > k {
        Scale(m, k + 1, i / m);
      }
    }
  }
}
