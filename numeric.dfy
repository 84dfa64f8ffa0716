// Arithmetic shared by the physics and the colour code: 2-D vectors over the
// reals, Python's `int()` on a float (truncation toward zero), and the
// integer part of a cube root used for a body's radius.
module Numeric {

  /** A 2-D vector; positions, velocities and forces are all of this type. */
  datatype Vec = Vec(x: real, y: real)

  const Zero: Vec := Vec(0.0, 0.0)

  function Add(a: Vec, b: Vec): Vec { Vec(a.x + b.x, a.y + b.y) }

  function Neg(a: Vec): Vec { Vec(-a.x, -a.y) }

  /** Squared Euclidean distance; `sqrt(d) < t` is `d < t*t` for t > 0. */
  function Dist2(a: Vec, b: Vec): (d: real)
    ensures d >= 0.0
  {
    var dx, dy := a.x - b.x, a.y - b.y;
    SquareNonzero(dx);
    SquareNonzero(dy);
    dx * dx + dy * dy
  }

  /** A square is never negative, and positive away from zero. */
  lemma SquareNonzero(d: real)
    ensures d * d >= 0.0
    ensures d != 0.0 ==> d * d > 0.0
  {
    if d < 0.0 {
      assert d * d == (-d) * (-d);
    }
  }

  lemma Dist2Symmetric(a: Vec, b: Vec)
    ensures Dist2(a, b) == Dist2(b, a)
  {
    assert (a.x - b.x) * (a.x - b.x) == (b.x - a.x) * (b.x - a.x);
    assert (a.y - b.y) * (a.y - b.y) == (b.y - a.y) * (b.y - a.y);
  }

  /** Python's `int(x)` for a float x: rounds toward zero, not down. */
  function Trunc(x: real): (r: int)
    ensures x >= 0.0 ==> r as real <= x < r as real + 1.0
    ensures x < 0.0 ==> r as real - 1.0 < x <= r as real
  {
    if x >= 0.0 then x.Floor else -((-x).Floor)
  }

  /** Truncation never leaves an interval whose ends are integers. */
  lemma TruncBetween(x: real, lo: int, hi: int)
    requires lo as real <= x <= hi as real
    ensures lo <= Trunc(x) <= hi
  {
  }

  function Cube(n: nat): nat { n * n * n }

  lemma CubeStrictlyMonotone(a: nat, b: nat)
    requires a < b
    ensures Cube(a) < Cube(b)
  {
    assert a * a <= a * b <= b * b;
    assert a * a * a <= a * a * b;
    assert a * a * b < b * b * b by {
      assert a * b < b * b;
      assert a * a * b <= a * b * b;
    }
  }

  /** The largest natural number whose cube is at most m, counting up from n. */
  function CbrtFrom(m: real, n: nat): (r: nat)
    requires Cube(n) as real <= m
    ensures n <= r
    ensures Cube(r) as real <= m < Cube(r + 1) as real
    decreases m.Floor - n
  {
    if Cube(n + 1) as real <= m then
      assert n + 1 <= Cube(n + 1) by { assert (n + 1) * (n + 1) >= 1; }
      CbrtFrom(m, n + 1)
    else n
  }

  /** `int(m ** (1/3))` for m >= 0, computed exactly. */
  function FloorCbrt(m: real): (r: nat)
    requires m >= 0.0
    ensures Cube(r) as real <= m < Cube(r + 1) as real
  {
    CbrtFrom(m, 0)
  }

  /** The integer cube root does not decrease as the mass grows. */
  lemma FloorCbrtMonotone(m1: real, m2: real)
    requires 0.0 <= m1 <= m2
    ensures FloorCbrt(m1) <= FloorCbrt(m2)
  {
    var a, b := FloorCbrt(m1), FloorCbrt(m2);
    if b < a {
      if b + 1 < a { CubeStrictlyMonotone(b + 1, a); }
      assert false;
    }
  }
}
