/** The order matching rules come in: priority first, then rule id; equal ones stay as they were. */
module RouteOrder {
  import opened Basics
  import opened Config

  /** Strings compared by code point, as Go compares them byte by byte in UTF-8. */
  predicate Less(a: string, b: string) {
    if b == "" then false
    else if a == "" then true
    else if a[0] != b[0] then a[0] < b[0]
    else Less(a[1..], b[1..])
  }

  /** The comparison handed to the sort. */
  predicate Before(a: Rule, b: Rule) {
    if a.priority == b.priority then Less(a.ruleId, b.ruleId) else a.priority > b.priority
  }

  predicate Tied(a: Rule, b: Rule) {
    a.priority == b.priority && a.ruleId == b.ruleId
  }

  lemma {:induction false} LessIsTotal(a: string, b: string)
    ensures Less(a, b) || Less(b, a) || a == b
    ensures !(Less(a, b) && Less(b, a)) && !Less(a, a)
  {
    if a != "" {
      LessIsTotal(a[1..], a[1..]);
      if b != "" {
        LessIsTotal(a[1..], b[1..]);
        assert a == [a[0]] + a[1..] && b == [b[0]] + b[1..];
      }
    }
  }

  lemma {:induction false} LessIsTransitive(a: string, b: string, c: string)
    requires Less(a, b) && Less(b, c)
    ensures Less(a, c)
  {
    if a != "" && a[0] == b[0] == c[0] {
      LessIsTransitive(a[1..], b[1..], c[1..]);
    }
  }

  /** At position `n` the first string ends or has the smaller character, and up to there the two are the same. */
  predicate LessAt(a: string, b: string, n: nat) {
    && n <= |a| && n < |b| && a[..n] == b[..n]
    && (n == |a| || a[n] < b[n])
  }

  /** The order of strings is the lexicographic one. */
  lemma {:induction false} LessIff(a: string, b: string)
    ensures Less(a, b) <==> exists n: nat :: LessAt(a, b, n)
  {
    if a == "" || b == "" {
      assert b != "" && a == "" ==> LessAt(a, b, 0);
    } else if a[0] != b[0] {
      assert a[0] < b[0] ==> LessAt(a, b, 0);
      forall n: nat | n > 0 ensures !LessAt(a, b, n) {
        DifferentStart(a, b, n);
      }
    } else {
      LessIff(a[1..], b[1..]);
      forall n: nat
        ensures LessAt(a, b, n + 1) <==> LessAt(a[1..], b[1..], n)
      {
        LessAtNext(a, b, n);
      }
      assert !LessAt(a, b, 0);
      forall n: nat | LessAt(a, b, n) ensures n > 0 && LessAt(a[1..], b[1..], n - 1) {
        assert LessAt(a, b, n - 1 + 1);
      }
    }
  }

  lemma DifferentStart(a: string, b: string, n: nat)
    requires a != "" && b != "" && a[0] != b[0] && n > 0
    ensures !LessAt(a, b, n)
  {
    if n <= |a| && n <= |b| {
      assert a[..n][0] == a[0] && b[..n][0] == b[0];
    }
  }

  lemma LessAtNext(a: string, b: string, n: nat)
    requires a != "" && b != "" && a[0] == b[0]
    ensures LessAt(a, b, n + 1) <==> LessAt(a[1..], b[1..], n)
  {
    if n + 1 <= |a| && n + 1 <= |b| {
      assert a[..n + 1] == [a[0]] + a[1..][..n] && b[..n + 1] == [b[0]] + b[1..][..n];
      assert a[1..][..n] == a[..n + 1][1..] && b[1..][..n] == b[..n + 1][1..];
    }
  }

  /** The comparison is a strict order in which only rules of equal priority and id are left undecided. */
  lemma BeforeIsTotal(a: Rule, b: Rule)
    ensures Before(a, b) || Before(b, a) || Tied(a, b)
    ensures !(Before(a, b) && Before(b, a)) && (Tied(a, b) ==> !Before(a, b))
  {
    LessIsTotal(a.ruleId, b.ruleId);
  }

  /** What does not come after `b`, and `b` not after `c`, does not come after `c`. */
  lemma NotAfter(a: Rule, b: Rule, c: Rule)
    requires !Before(b, a) && !Before(c, b)
    ensures !Before(c, a)
  {
    BeforeIsTotal(a, b);
    BeforeIsTotal(b, c);
    BeforeIsTotal(a, c);
    if Before(c, a) && c.priority == a.priority == b.priority && c.ruleId != b.ruleId && b.ruleId != a.ruleId {
      LessIsTransitive(a.ruleId, b.ruleId, c.ruleId);
    }
  }

  predicate Ordered(s: seq<Rule>) {
    forall i, j | 0 <= i < j < |s| :: !Before(s[j], s[i])
  }

  /** `x` goes in behind everything it does not have to precede. */
  function Placed(s: seq<Rule>, x: Rule): seq<Rule> {
    if s == [] || !Before(x, Last(s)) then s + [x] else Placed(Front(s), x) + [Last(s)]
  }

  /** `sort.SliceStable` with the comparison above. */
  function StableSort(s: seq<Rule>): seq<Rule> {
    if s == [] then [] else Placed(StableSort(Front(s)), Last(s))
  }

  /** The rules of `s` tied with `x`, in the order they have in `s`. */
  function TiedWith(s: seq<Rule>, x: Rule): seq<Rule> {
    if s == [] then []
    else TiedWith(Front(s), x) + if Tied(Last(s), x) then [Last(s)] else []
  }

  lemma {:induction false} PlacedKeepsAll(s: seq<Rule>, x: Rule)
    ensures multiset(Placed(s, x)) == multiset(s) + multiset{x}
  {
    if s != [] && Before(x, Last(s)) {
      assert s == Front(s) + [Last(s)];
      PlacedKeepsAll(Front(s), x);
    }
  }

  lemma {:induction false} PlacedKeepsOrder(s: seq<Rule>, x: Rule)
    requires Ordered(s)
    ensures Ordered(Placed(s, x))
  {
    hide Before;
    if s != [] {
      var front, last := Front(s), Last(s);
      if Before(x, last) {
        PlacedKeepsOrder(front, x);
        PlacedKeepsAll(front, x);
        BeforeIsTotal(x, last);
        forall y | y in Placed(front, x)
          ensures !Before(last, y)
        {
          assert y in multiset(front) + multiset{x};
        }
      } else {
        forall i | 0 <= i < |s| - 1
          ensures !Before(x, s[i])
        {
          NotAfter(s[i], last, x);
        }
      }
    }
  }

  /** The sort permutes its input and leaves it in order. */
  lemma {:induction false} SortOrders(s: seq<Rule>)
    ensures Ordered(StableSort(s)) && multiset(StableSort(s)) == multiset(s)
  {
    if s != [] {
      assert s == Front(s) + [Last(s)];
      SortOrders(Front(s));
      PlacedKeepsOrder(StableSort(Front(s)), Last(s));
      PlacedKeepsAll(StableSort(Front(s)), Last(s));
    }
  }

  lemma {:induction false} PlacedIsStable(s: seq<Rule>, x: Rule, y: Rule)
    requires Ordered(s)
    ensures TiedWith(Placed(s, x), y) == TiedWith(s + [x], y)
  {
    assert Front(s + [x]) == s;
    if s != [] && Before(x, Last(s)) {
      var front, last := Front(s), Last(s);
      PlacedIsStable(front, x, y);
      assert Front(Placed(front, x) + [last]) == Placed(front, x);
      assert Front(front + [x]) == front;
      BeforeIsTotal(x, last);
      assert !(Tied(x, y) && Tied(last, y));
    }
  }

  /** Tied rules keep the order they came in. */
  lemma {:induction false} SortIsStable(s: seq<Rule>, y: Rule)
    ensures TiedWith(StableSort(s), y) == TiedWith(s, y)
  {
    if s != [] {
      var sorted := StableSort(Front(s));
      SortIsStable(Front(s), y);
      SortOrders(Front(s));
      PlacedIsStable(sorted, Last(s), y);
      assert Front(sorted + [Last(s)]) == sorted;
    }
  }

  predicate NoTies(s: seq<Rule>) {
    forall i, j | 0 <= i < j < |s| :: !Tied(s[i], s[j])
  }

  lemma FirstOfOrdered(a: seq<Rule>, b: seq<Rule>)
    requires multiset(a) == multiset(b) && a != [] && b != []
    requires Ordered(a) && Ordered(b) && NoTies(a)
    ensures a[0] == b[0]
  {
    assert b[0] in multiset(a) && a[0] in multiset(b);
    var i :| 0 <= i < |a| && a[i] == b[0];
    var j :| 0 <= j < |b| && b[j] == a[0];
    BeforeIsTotal(a[0], b[0]);
  }

  lemma TailOrdered(s: seq<Rule>)
    requires s != []
    ensures Ordered(s) ==> Ordered(s[1..])
    ensures NoTies(s) ==> NoTies(s[1..])
  {
    hide Before, Tied;
  }

  lemma TailBag(s: seq<Rule>)
    requires s != []
    ensures multiset(s[1..]) == multiset(s) - multiset{s[0]}
  {
    assert s == [s[0]] + s[1..];
  }

  lemma SameLength(a: seq<Rule>, b: seq<Rule>)
    requires multiset(a) == multiset(b)
    ensures |a| == |b|
  {
    assert |a| == |multiset(a)| == |multiset(b)| == |b|;
  }

  /** Without ties there is only one way to put the same rules in order. */
  lemma {:induction false} OrderIsUnique(a: seq<Rule>, b: seq<Rule>)
    requires multiset(a) == multiset(b) && Ordered(a) && Ordered(b) && NoTies(a)
    ensures a == b
  {
    hide Before, Tied, Ordered, NoTies;
    SameLength(a, b);
    if a != [] {
      FirstOfOrdered(a, b);
      TailOrdered(a);
      TailOrdered(b);
      TailBag(a);
      TailBag(b);
      OrderIsUnique(a[1..], b[1..]);
      assert a == [a[0]] + a[1..] && b == [b[0]] + b[1..];
    }
  }

  /** Of two rules in this order the first has the higher priority, or both have the same one and the first has the
      lexicographically smaller id, or the same id. */
  ghost predicate Comes(a: Rule, b: Rule) {
    a.priority > b.priority
    || (a.priority == b.priority && (a.ruleId == b.ruleId || exists n: nat :: LessAt(a.ruleId, b.ruleId, n)))
  }

  lemma OrderedByPriority(s: seq<Rule>)
    ensures Ordered(s) <==> forall i, j | 0 <= i < j < |s| :: Comes(s[i], s[j])
  {
    forall i, j | 0 <= i < j < |s|
      ensures Comes(s[i], s[j]) <==> !Before(s[j], s[i])
    {
      LessIff(s[i].ruleId, s[j].ruleId);
      LessIsTotal(s[i].ruleId, s[j].ruleId);
    }
    hide Comes, Before;
  }
}
