/** Reduced fractions, by the extended Euclidean algorithm. */
module Euclid {
  import opened Basics

  /** `x / y` in lowest terms is `a / b`; `s` and `t` witness that `a` and `b` have no common factor. */
  datatype Reduction = Reduction(g: int, a: int, b: int, s: int, t: int)

  ghost predicate Reduces(r: Reduction, x: int, y: int) {
    r.g > 0 && x == r.g * r.a && y == r.g * r.b && r.s * r.a + r.t * r.b == 1
  }

  function Reduce(x: int, y: int): (r: Reduction)
    requires x > 0 && y >= 0
    ensures Reduces(r, x, y)
    decreases y
  {
    if y == 0 then Reduction(x, 1, 0, 1, 0)
    else
      var r := Reduce(y, x % y);
      var k := x / y;
      assert x == r.g * (k * r.a + r.b) by {
        assert x == k * y + x % y;
        assert k * (r.g * r.a) == r.g * (k * r.a);
      }
      assert r.t * (k * r.a + r.b) + (r.s - k * r.t) * r.a == 1 by {
        assert r.t * (k * r.a) == k * r.t * r.a;
      }
      Reduction(r.g, k * r.a + r.b, r.a, r.t, r.s - k * r.t)
  }

  function Gcd(x: int, y: int): int
    requires x > 0 && y > 0
  {
    Reduce(x, y).g
  }

  /** `Gcd` is the greatest common divisor. */
  lemma GcdIsGreatest(x: int, y: int, c: int, p: int, q: int)
    requires x > 0 && y > 0 && c > 0 && x == c * p && y == c * q
    ensures c <= Gcd(x, y)
  {
    var r := Reduce(x, y);
    hide *;
    Divides(x, y, c, p, q, r);
  }

  lemma Divides(x: int, y: int, c: int, p: int, q: int, r: Reduction)
    requires c > 0 && x == c * p && y == c * q && Reduces(r, x, y)
    ensures c <= r.g
  {
    Combination(x, y, r.g, r.a, r.b, r.s, r.t);
    Combination(x, y, c, p, q, r.s, r.t);
    var z := r.s * p + r.t * q;
    MulOne(r.g, r.s * r.a + r.t * r.b);
    AtLeast(r.g, c, z);
  }

  lemma AtLeast(g: int, c: int, z: int)
    requires g > 0 && c > 0 && g == c * z
    ensures c <= g
  {
    if z < 1 {
      Scale(c, z, 0);
    } else {
      Scale(c, 1, z);
    }
  }

  lemma MulOne(g: int, one: int)
    requires one == 1
    ensures g * one == g
  {
  }

  lemma Combination(x: int, y: int, g: int, a: int, b: int, s: int, t: int)
    requires x == g * a && y == g * b
    ensures s * x + t * y == g * (s * a + t * b)
  {
    assert s * (g * a) == g * (s * a);
    assert t * (g * b) == g * (t * b);
  }

  /** Some multiple of `a` leaves remainder one modulo `b`, so its negation leaves `b - 1`. */
  lemma Inverse(a: int, b: int, s: int, t: int) returns (n: nat)
    requires b > 1 && s * a + t * b == 1
    ensures (-(n * a)) % b == b - 1
  {
    n := s % b;
    var c := s / b;
    assert -(n * a) == b * (t + c * a - 1) + (b - 1) by {
      assert s == c * b + n;
      assert n * a == s * a - c * b * a;
      assert b * (c * a) == c * b * a;
    }
    Remainder(-(n * a), b, t + c * a - 1, b - 1);
  }

  lemma Remainder(x: int, b: int, k: int, r: int)
    requires b > 0 && x == b * k + r && 0 <= r < b
    ensures x % b == r
  {
    var k' := x / b;
    if k > k' {
      Scale(b, k' + 1, k);
    } else if k < k' {
      Scale(b, k + 1, k');
    }
  }
}
