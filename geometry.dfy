/** Plane and space arithmetic shared by both games.

    The host's `Math.sqrt` cannot be computed over exact reals, so every
    operation that calls it takes the square root as a parameter `sqrt`,
    constrained by `IsSqrt`: on a non-negative argument it returns the
    non-negative root. The lemmas here turn comparisons of a root into
    comparisons of its argument. Each non-linear step is a lemma of its own
    over distinct variables, which keeps the solver's work small. */
module Geometry {

  function Abs(v: real): real { if v < 0.0 then -v else v }

  function Max(a: real, b: real): real { if a < b then b else a }

  /** `sqrt` behaves as the square root on every non-negative real. */
  ghost predicate IsSqrt(sqrt: real -> real) {
    forall v: real :: 0.0 <= v ==> 0.0 <= sqrt(v) && sqrt(v) * sqrt(v) == v
  }

  /** The length of the offset (dx, dy), as the source computes it. */
  function Distance(sqrt: real -> real, dx: real, dy: real): real
  {
    sqrt(dx * dx + dy * dy)
  }

  lemma MulStrictMono(a: real, b: real, c: real, d: real)
    requires 0.0 <= a < c && 0.0 <= b < d
    ensures a * b < c * d
  {
    assert a * b <= c * b;
    assert c * b < c * d;
  }

  lemma MulMono(a: real, b: real, c: real, d: real)
    requires 0.0 <= a <= c && 0.0 <= b <= d
    ensures a * b <= c * d
  {
    assert a * b <= c * b;
    assert c * b <= c * d;
  }

  lemma ProductPositive(a: real, b: real, p: real)
    requires 0.0 < a && 0.0 < b && a * b == p
    ensures 0.0 < p
  {}

  lemma ProductOfZero(a: real, b: real)
    requires a == 0.0
    ensures a * b == 0.0
  {}

  lemma SquarePositive(a: real, p: real)
    requires a != 0.0 && a * a == p
    ensures 0.0 < p
  {
    if 0.0 < a {
      ProductPositive(a, a, p);
    } else {
      ProductPositive(-a, -a, p);
    }
  }

  lemma SquareNonNegative(a: real, p: real)
    requires a * a == p
    ensures 0.0 <= p
  {
    if a == 0.0 {
      ProductOfZero(a, a);
    } else {
      SquarePositive(a, p);
    }
  }

  /** A sum of two squares is never negative. */
  lemma SumOfSquaresNonNegative(dx: real, dy: real, v: real)
    requires v == dx * dx + dy * dy
    ensures 0.0 <= v
  {
    var a := dx * dx;
    var b := dy * dy;
    SquareNonNegative(dx, a);
    SquareNonNegative(dy, b);
  }

  /** A sum of two squares vanishes only at the origin. */
  lemma SumOfSquaresZeroIff(dx: real, dy: real, v: real)
    requires v == dx * dx + dy * dy
    ensures 0.0 <= v
    ensures 0.0 < v <==> dx != 0.0 || dy != 0.0
  {
    var a := dx * dx;
    var b := dy * dy;
    SquareNonNegative(dx, a);
    SquareNonNegative(dy, b);
    if dx != 0.0 {
      SquarePositive(dx, a);
    } else if dy != 0.0 {
      SquarePositive(dy, b);
    } else {
      ProductOfZero(dx, dx);
      ProductOfZero(dy, dy);
    }
  }

  /** A root is positive exactly when its argument is. */
  lemma RootPositiveIff(sqrt: real -> real, v: real)
    requires IsSqrt(sqrt)
    requires 0.0 <= v
    ensures 0.0 < sqrt(v) <==> 0.0 < v
  {
    var s := sqrt(v);
    if 0.0 < s {
      ProductPositive(s, s, v);
    } else {
      ProductOfZero(s, s);
    }
  }

  /** The distance between two distinct points is positive. */
  lemma DistancePositive(sqrt: real -> real, dx: real, dy: real)
    requires IsSqrt(sqrt)
    requires dx != 0.0 || dy != 0.0
    ensures 0.0 < dx * dx + dy * dy
    ensures 0.0 < Distance(sqrt, dx, dy)
  {
    var v := dx * dx + dy * dy;
    SumOfSquaresZeroIff(dx, dy, v);
    RootPositiveIff(sqrt, v);
  }

  /** The root of a square is its non-negative base. */
  lemma RootOfSquare(sqrt: real -> real, c: real)
    requires IsSqrt(sqrt)
    requires 0.0 <= c
    ensures sqrt(c * c) == c
  {
    var s := sqrt(c * c);
    if s > c {
      MulStrictMono(c, c, s, s);
    } else if s < c {
      MulStrictMono(s, s, c, c);
    }
  }

  /** A root exceeds a non-negative bound exactly when its argument
      exceeds the squared bound. */
  lemma RootExceedsIff(sqrt: real -> real, v: real, c: real)
    requires IsSqrt(sqrt)
    requires 0.0 <= v && 0.0 <= c
    ensures sqrt(v) > c <==> v > c * c
  {
    var s := sqrt(v);
    if s > c {
      MulStrictMono(c, c, s, s);
    } else if s < c {
      MulStrictMono(s, s, c, c);
    }
  }

  /** A root is below a non-negative bound exactly when its argument is
      below the squared bound. */
  lemma RootBelowIff(sqrt: real -> real, v: real, c: real)
    requires IsSqrt(sqrt)
    requires 0.0 <= v && 0.0 <= c
    ensures sqrt(v) < c <==> v < c * c
  {
    var s := sqrt(v);
    if s > c {
      MulStrictMono(c, c, s, s);
    } else if s < c {
      MulStrictMono(s, s, c, c);
    }
  }

  /** A square below the square of a non-negative bound has its base
      strictly within the bound. */
  lemma SquareBelowBound(d: real, p: real, c: real)
    requires 0.0 <= c && d * d == p && p < c * c
    ensures -c < d < c
  {
    if c <= d {
      MulMono(c, c, d, d);
    } else if d <= -c {
      MulMono(c, c, -d, -d);
    }
  }

  /** Scaling a coordinate difference `x` by `k / d` with `k` and `d`
      positive keeps its sign. */
  lemma ScaledSign(k: real, x: real, d: real)
    requires 0.0 < k && 0.0 < d
    ensures 0.0 < k * (x / d) <==> 0.0 < x
    ensures k * (x / d) < 0.0 <==> x < 0.0
  {
    var u := x / d;
    assert u * d == x;
    if 0.0 < u {
      ProductPositive(k, u, k * u);
      ProductPositive(u, d, x);
    } else if u < 0.0 {
      ProductPositive(k, -u, k * -u);
      ProductPositive(-u, d, -x);
    }
  }
  /** `x * y` squared is `x * x` times `y * y`. */
  lemma SquareOfProduct(x: real, y: real)
    ensures (x * y) * (x * y) == (x * x) * (y * y)
  {}

  /** Factors `a`, `b` that split a positive `q` into `a * q + b * q`
      add up to 1. */
  lemma UnitSplit(a: real, b: real, q: real, sa: real, sb: real)
    requires 0.0 < q && a * q == sa && b * q == sb && sa + sb == q
    ensures a + b == 1.0
  {
    assert (a + b) * q == sa + sb;
  }

  /** Components `u`, `w` with `u * d == dx`, `w * d == dy` and
      `d * d == dx * dx + dy * dy` form a unit vector. */
  lemma UnitComponents(u: real, w: real, d: real, dx: real, dy: real)
    requires 0.0 < d && u * d == dx && w * d == dy && d * d == dx * dx + dy * dy
    ensures u * u + w * w == 1.0
  {
    SquareOfProduct(u, d);
    SquareOfProduct(w, d);
    ProductPositive(d, d, d * d);
    UnitSplit(u * u, w * w, d * d, dx * dx, dy * dy);
  }

  /** The offset (dx, dy) divided by its length, scaled by `k`, has length
      `|k|`: the sum of its squared components is `k * k`. */
  lemma ScaledUnitLength(sqrt: real -> real, dx: real, dy: real, k: real)
    requires IsSqrt(sqrt)
    requires dx != 0.0 || dy != 0.0
    ensures 0.0 < Distance(sqrt, dx, dy)
    ensures var d := Distance(sqrt, dx, dy);
            (k * (dx / d)) * (k * (dx / d)) + (k * (dy / d)) * (k * (dy / d)) == k * k
  {
    DistancePositive(sqrt, dx, dy);
    var d := Distance(sqrt, dx, dy);
    var u, w := dx / d, dy / d;
    UnitComponents(u, w, d, dx, dy);
    assert (k * u) * (k * u) + (k * w) * (k * w) == (k * k) * (u * u + w * w);
  }

  /** The offset (dx, dy) divided by `d` and scaled by `k` is parallel to
      (dx, dy). */
  lemma ScaledParallel(k: real, dx: real, dy: real, d: real)
    requires d != 0.0
    ensures (k * (dx / d)) * dy == (k * (dy / d)) * dx
  {
    var u, w := dx / d, dy / d;
    assert u * d == dx && w * d == dy;
    assert (k * u) * (w * d) == (k * w) * (u * d);
  }
}
