/**
 The numeric primitives the estimator takes from NumPy, over Dafny's `real`.

 The program evaluates `np.cos(np.radians(x))` and `np.sqrt(x)`. Real
 trigonometry and real square roots are not part of this model: both are
 supplied as function values, and `Maths.Valid()` states the only facts
 about them that the proofs rely on. Every true cosine (of an angle in
 degrees) and the true square root satisfy it.
 */
module Numerics {

  /** `cosDeg(x)` stands for `np.cos(np.radians(x))`, `sqrt(x)` for `np.sqrt(x)`. */
  datatype Maths = Maths(cosDeg: real -> real, sqrt: real -> real)
  {
    /** The facts about cosine and square root that the model relies on. */
    ghost predicate Valid() {
      (forall x :: -1.0 <= cosDeg(x) <= 1.0)
      && (forall x :: -90.0 <= x <= 90.0 ==> 0.0 <= cosDeg(x))
      && (forall x :: -90.0 < x < 90.0 ==> 0.0 < cosDeg(x))
      && (forall x :: 0.0 <= x ==> 0.0 <= sqrt(x))
      && (forall x, y :: 0.0 <= x < y ==> sqrt(x) < sqrt(y))
      && sqrt(0.0) == 0.0
      && sqrt(1.0) == 1.0
    }
  }

  /** A square root is zero exactly when its argument is. */
  lemma SqrtZeroIff(m: Maths, x: real)
    requires m.Valid() && 0.0 <= x
    ensures m.sqrt(x) == 0.0 <==> x == 0.0
  {
    if 0.0 < x {
      assert m.sqrt(0.0) < m.sqrt(x);
    }
  }

  /** The square root of a number below one is below one. */
  lemma SqrtBelowOne(m: Maths, x: real)
    requires m.Valid() && 0.0 <= x < 1.0
    ensures m.sqrt(x) < 1.0
  {
    assert m.sqrt(x) < m.sqrt(1.0);
  }

  /** The square of a real, kept behind a name so that the solver treats it as one term. */
  function Sq(x: real): (r: real)
    ensures 0.0 <= r
  {
    x * x
  }

  /** A product of reals is zero only when one of its factors is. */
  lemma ProductZero(a: real, b: real)
    ensures a * b == 0.0 ==> a == 0.0 || b == 0.0
  {
    if a != 0.0 && b != 0.0 {
      var u, v := if a > 0.0 then a else -a, if b > 0.0 then b else -b;
      MulPos(u, v);
      assert u * v == a * b || u * v == -(a * b);
    }
  }

  /** Only zero has a zero square. */
  lemma SqZero(x: real)
    ensures Sq(x) == 0.0 ==> x == 0.0
  {
    ProductZero(x, x);
  }

  /** A real scaled by a positive factor has a zero square only when it is zero itself. */
  lemma ScaledSqZero(a: real, c: real)
    requires 0.0 < c
    ensures Sq(a * c) == 0.0 ==> a == 0.0
  {
    SqZero(a * c);
    if 0.0 < a {
      MulPos(a, c);
    } else if a < 0.0 {
      MulPos(-a, c);
      assert (-a) * c == -(a * c);
    }
  }

  /** Products of non-negative reals are monotone in both factors. */
  lemma MulLe(a: real, b: real, c: real, d: real)
    requires 0.0 <= a <= b && 0.0 <= c <= d
    ensures a * c <= b * d
  {
    assert a * c <= b * c;
    assert b * c <= b * d;
  }

  /** The product of two positive reals is positive. */
  lemma MulPos(a: real, b: real)
    requires 0.0 < a && 0.0 < b
    ensures 0.0 < a * b
  {
  }

  /** Scaling by a factor in [-1, 1] keeps a value within a symmetric bound. */
  lemma MulUnitBound(a: real, c: real, bound: real)
    requires -bound <= a <= bound && -1.0 <= c <= 1.0
    ensures -bound <= a * c <= bound
  {
    var u, v := if a >= 0.0 then a else -a, if c >= 0.0 then c else -c;
    MulLe(0.0, u, 0.0, v);
    MulLe(u, bound, v, 1.0);
    assert u * v == a * c || u * v == -(a * c);
  }

  /** A value within a symmetric bound has a square no larger than the bound's. */
  lemma SqLe(x: real, bound: real)
    requires -bound <= x <= bound
    ensures Sq(x) <= Sq(bound)
  {
    if x >= 0.0 {
      MulLe(x, bound, x, bound);
    } else {
      MulLe(-x, bound, -x, bound);
      assert (-x) * (-x) == x * x;
    }
  }

  /** A count over a positive count it does not exceed is a ratio in [0, 1]. */
  lemma RatioInUnit(a: nat, d: nat)
    requires a <= d && 0 < d
    ensures 0.0 <= a as real / d as real <= 1.0
  {
  }

  /** Dividing by the same positive count keeps the order of two counts. */
  lemma DivMonotone(a: nat, b: nat, d: nat)
    requires a <= b && 0 < d
    ensures a as real / d as real <= b as real / d as real
  {
  }

  /** Python's `min` of a non-empty list: an element that no element is below. */
  function Min(s: seq<real>): (r: real)
    requires |s| > 0
    ensures r in s
    ensures forall x :: x in s ==> r <= x
  {
    if |s| == 1 then s[0]
    else
      var rest := Min(s[1..]);
      assert forall x :: x in s ==> x == s[0] || x in s[1..];
      if s[0] <= rest then s[0] else rest
  }

  /** The minimum is below a bound exactly when some element is. */
  lemma MinBelow(s: seq<real>, t: real)
    requires |s| > 0
    ensures Min(s) < t <==> exists i :: 0 <= i < |s| && s[i] < t
  {
    if Min(s) < t {
      var i :| 0 <= i < |s| && s[i] == Min(s);
    }
  }
}
