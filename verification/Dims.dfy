/** The dimension hash of a request: which of its values it is made of, and when it tells two requests apart. */
module Dims {
  import opened Basics

  type Values = map<string, string>

  /** A request brings all the dimensions a rule names. */
  predicate HasAll(names: seq<string>, dims: Values) {
    forall d <- names :: d in dims
  }

  /** The request's values of the dimensions a rule names, in the rule's order. */
  function Extracted(names: seq<string>, dims: Values): seq<string>
    requires HasAll(names, dims)
  {
    seq(|names|, i requires 0 <= i < |names| => dims[names[i]])
  }

  /** `%v` prints a list of strings between brackets, with a space between one and the next. */
  function Spaced(parts: seq<string>): string {
    if parts == [] then "" else if |parts| == 1 then parts[0] else parts[0] + " " + Spaced(parts[1..])
  }

  function Printed(parts: seq<string>): string {
    "[" + Spaced(parts) + "]"
  }

  method ValidateDims(names: seq<string>, dims: Values) returns (ok: bool)
    ensures ok <==> forall d <- names :: d in dims
  {
    for i := 0 to |names|
      invariant forall d <- names[..i] :: d in dims
    {
      if names[i] !in dims {
        return false;
      }
    }
    return true;
  }

  /** A dimension the request does not have would come out empty. */
  method ExtractDims(names: seq<string>, dims: Values) returns (res: seq<string>)
    ensures |res| == |names|
    ensures forall i | 0 <= i < |names| :: res[i] == if names[i] in dims then dims[names[i]] else ""
  {
    res := [];
    for i := 0 to |names|
      invariant |res| == i
      invariant forall j | 0 <= j < i :: res[j] == if names[j] in dims then dims[names[j]] else ""
    {
      res := res + [if names[i] in dims then dims[names[i]] else ""];
    }
  }

  method HashDims(names: seq<string>, dims: Values, hash: string -> string) returns (key: Option<string>)
    ensures key.None? <==> exists d <- names :: d !in dims
    ensures HasAll(names, dims) ==> key == Some(hash(Printed(Extracted(names, dims))))
  {
    var ok := ValidateDims(names, dims);
    if !ok {
      return None;
    }
    var parts := ExtractDims(names, dims);
    assert parts == Extracted(names, dims);
    return Some(hash(Printed(parts)));
  }

  // ---------------------------------------------------------------- what the printed list tells apart

  predicate Spaceless(parts: seq<string>) {
    forall p <- parts :: ' ' !in p
  }

  /** Printing loses nothing about values without spaces. */
  lemma {:induction false} SpacelessApart(a: seq<string>, b: seq<string>)
    requires |a| == |b| && Spaceless(a) && Spaceless(b) && Spaced(a) == Spaced(b)
    ensures a == b
  {
    if |a| == 1 {
      assert a == [a[0]] && b == [b[0]];
    } else if |a| > 1 {
      assert a[0] in a && b[0] in b;
      assert forall p <- a[1..] :: p in a;
      assert forall p <- b[1..] :: p in b;
      FirstSpace(a[0], Spaced(a[1..]), b[0], Spaced(b[1..]));
      SpacelessApart(a[1..], b[1..]);
      assert a == [a[0]] + a[1..] && b == [b[0]] + b[1..];
    }
  }

  lemma SpaceComesLater(a: string, s: string, b: string, t: string)
    requires ' ' !in b && |a| < |b|
    ensures a + " " + s != b + " " + t
  {
    var u, v := a + " " + s, b + " " + t;
    assert u[|a|] == ' ' && v[|a|] == b[|a|];
  }

  lemma FirstSpace(a: string, s: string, b: string, t: string)
    requires ' ' !in a && ' ' !in b && a + " " + s == b + " " + t
    ensures a == b && s == t
  {
    var u, v := a + " " + s, b + " " + t;
    if |a| < |b| {
      SpaceComesLater(a, s, b, t);
    } else if |b| < |a| {
      SpaceComesLater(b, t, a, s);
    } else {
      assert a == u[..|a|] && b == v[..|b|] && s == u[|a| + 1..] && t == v[|b| + 1..];
    }
  }

  lemma PrintedApart(a: seq<string>, b: seq<string>)
    ensures Printed(a) == Printed(b) <==> Spaced(a) == Spaced(b)
  {
    assert Spaced(a) == Printed(a)[1..|Printed(a)| - 1];
    assert Spaced(b) == Printed(b)[1..|Printed(b)| - 1];
  }

  /** Where the request's values of the named dimensions are the same. */
  predicate SameValues(names: seq<string>, a: Values, b: Values)
    requires HasAll(names, a) && HasAll(names, b)
  {
    forall d <- names :: a[d] == b[d]
  }

  lemma SameExtracted(names: seq<string>, a: Values, b: Values)
    requires HasAll(names, a) && HasAll(names, b)
    ensures Extracted(names, a) == Extracted(names, b) <==> SameValues(names, a, b)
  {
    if Extracted(names, a) == Extracted(names, b) {
      forall d <- names ensures a[d] == b[d] {
        var i :| 0 <= i < |names| && names[i] == d;
        assert Extracted(names, a)[i] == Extracted(names, b)[i];
      }
    }
  }

  ghost predicate Injective(hash: string -> string) {
    forall s, t :: hash(s) == hash(t) ==> s == t
  }

  /** A hash that does not collide tells two requests apart by their values of the named dimensions, if there is
      at most one of them or no value has a space in it. */
  lemma ApartByValues(names: seq<string>, a: Values, b: Values, hash: string -> string)
    requires HasAll(names, a) && HasAll(names, b) && Injective(hash)
    requires |names| <= 1 || (Spaceless(Extracted(names, a)) && Spaceless(Extracted(names, b)))
    ensures hash(Printed(Extracted(names, a))) == hash(Printed(Extracted(names, b))) <==> SameValues(names, a, b)
  {
    var x, y := Extracted(names, a), Extracted(names, b);
    PrintedApart(x, y);
    SameExtracted(names, a, b);
    if Spaced(x) == Spaced(y) {
      if |names| > 1 {
        SpacelessApart(x, y);
      } else if |names| == 1 {
        assert x == [x[0]] && y == [y[0]];
      }
    }
  }

  /** The names of a rule tell all requests apart by their values. */
  ghost predicate TellsApart(names: seq<string>, hash: string -> string) {
    forall a: Values, b: Values | HasAll(names, a) && HasAll(names, b) ::
      hash(Printed(Extracted(names, a))) == hash(Printed(Extracted(names, b))) ==> SameValues(names, a, b)
  }

  predicate Distinct(names: seq<string>) {
    forall i, j | 0 <= i < j < |names| :: names[i] != names[j]
  }

  /** The values "x y", "z" and "x", "y z" of the first two dimensions, the others empty. */
  function Shifted(names: seq<string>, x: string, y: string): Values
    requires |names| >= 2
  {
    map d | d in names :: if d == names[0] then x else if d == names[1] then y else ""
  }

  function Rest(rest: seq<string>): string {
    if rest == [] then "" else " " + Spaced(rest)
  }

  lemma TwoSpaced(x: string, y: string, rest: seq<string>)
    ensures Spaced([x, y] + rest) == x + " " + y + Rest(rest)
  {
    var parts := [x, y] + rest;
    assert parts[1..] == [y] + rest && parts[1..][1..] == rest;
    assert Spaced(parts[1..]) == y + Rest(rest);
  }

  lemma SpaceShifts(rest: seq<string>)
    ensures Spaced(["x y", "z"] + rest) == Spaced(["x", "y z"] + rest)
  {
    hide Spaced, Rest;
    TwoSpaced("x y", "z", rest);
    TwoSpaced("x", "y z", rest);
    assert "x y" + " " + "z" == "x" + " " + "y z";
  }

  lemma ShiftedCollide(names: seq<string>)
    requires |names| >= 2 && Distinct(names)
    ensures var a, b := Shifted(names, "x y", "z"), Shifted(names, "x", "y z");
      && Printed(Extracted(names, a)) == Printed(Extracted(names, b)) && !SameValues(names, a, b)
  {
    hide Spaced;
    var a, b := Shifted(names, "x y", "z"), Shifted(names, "x", "y z");
    var rest := seq(|names| - 2, _ => "");
    assert Extracted(names, a) == ["x y", "z"] + rest && Extracted(names, b) == ["x", "y z"] + rest;
    SpaceShifts(rest);
    assert names[0] in names && |a[names[0]]| == 3 && |b[names[0]]| == 1;
  }

  /** A rule that names each dimension once tells all requests apart by their values if and only if it names at
      most one: values with spaces in them can be shifted from one dimension to the next. */
  lemma TellsApartIff(names: seq<string>, hash: string -> string)
    requires Distinct(names) && Injective(hash)
    ensures TellsApart(names, hash) <==> |names| <= 1
  {
    if |names| <= 1 {
      forall a: Values, b: Values | HasAll(names, a) && HasAll(names, b)
        && hash(Printed(Extracted(names, a))) == hash(Printed(Extracted(names, b)))
        ensures SameValues(names, a, b)
      {
        ApartByValues(names, a, b, hash);
      }
    } else {
      ShiftedCollide(names);
      var a, b := Shifted(names, "x y", "z"), Shifted(names, "x", "y z");
      assert HasAll(names, a) && HasAll(names, b);
    }
  }
}
