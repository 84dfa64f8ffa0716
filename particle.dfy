// Particle.py: the mutable point mass `Body` and its physics: net force,
// explicit Euler step, inelastic merging, reflection at the walls and the
// bounded trail of past positions.
module Particles {
  import opened Numeric
  import opened Lists

  /** Which subclass (Arrow, Planet, Particle) a body was made as; only drawing looks at it. */
  datatype Shape = Arrow | Planet | Particle

  /** A body's radius: the cube root of its mass truncated to an integer, but at least 1. */
  function Radius(m: real): (r: int)
    requires m >= 0.0
    ensures r >= 1
  {
    var c := FloorCbrt(m);
    if c > 1 then c else 1
  }

  /** A heavier body never has a smaller radius. */
  lemma RadiusMonotone(m1: real, m2: real)
    requires 0.0 <= m1 <= m2
    ensures Radius(m1) <= Radius(m2)
  {
    FloorCbrtMonotone(m1, m2);
  }

  // ---------------------------------------------------------------- force

  /**
   * The term body b adds to a's force: G times the mass product over the
   * squared distance, times the displacement from a to b, per axis. The displacement is not normalised, so the pull
   * falls off as 1/r. A zero r**2 is Python's ZeroDivisionError.
   */
  function Pull(ma: real, pa: Vec, mb: real, pb: Vec, G: real): Vec
    requires Dist2(pa, pb) != 0.0
  {
    var r2 := Dist2(pa, pb);
    Vec(G * (ma * mb / r2) * (pb.x - pa.x), G * (ma * mb / r2) * (pb.y - pa.y))
  }

  /** What a pulls on b is the negation of what b pulls on a. */
  lemma PullAntisymmetric(ma: real, pa: Vec, mb: real, pb: Vec, G: real)
    requires Dist2(pa, pb) != 0.0
    ensures Dist2(pb, pa) != 0.0
    ensures Pull(mb, pb, ma, pa, G) == Neg(Pull(ma, pa, mb, pb, G))
  {
    Dist2Symmetric(pa, pb);
    var k := G * (ma * mb / Dist2(pa, pb));
    assert G * (mb * ma / Dist2(pb, pa)) == k;
    assert k * (pa.x - pb.x) == -(k * (pb.x - pa.x));
    assert k * (pa.y - pb.y) == -(k * (pb.y - pa.y));
  }

  /**
   * Two bodies of mass 10, G = 1, 10 apart along x: the code gives a pull
   * of 10 along x, not the unit-vector law's 1.
   */
  lemma PullTwoTens()
    ensures Pull(10.0, Vec(0.0, 0.0), 10.0, Vec(10.0, 0.0), 1.0) == Vec(10.0, 0.0)
  {
    assert Dist2(Vec(0.0, 0.0), Vec(10.0, 0.0)) == 100.0;
  }

  /** Python's `sum` of a list of floats, added left to right. */
  function Sum(xs: seq<real>): real
  {
    if xs == [] then 0.0 else Sum(xs[..|xs| - 1]) + xs[|xs| - 1]
  }

  // ---------------------------------------------------------------- merge

  /**
   * What a merge accumulates in the absorbing body: its mass, its momentum
   * (mass times velocity) and its radius.
   */
  datatype MergeState = MergeState(m: real, mom: Vec, rad: int)

  function Momentum(m: real, v: Vec): Vec { Vec(m * v.x, m * v.y) }

  /** One absorption of a body of mass mb and velocity vb. */
  function Absorb(s: MergeState, mb: real, vb: Vec): (t: MergeState)
    requires s.m + mb >= 0.0
    ensures t.rad >= 1
  {
    MergeState(s.m + mb, Add(s.mom, Momentum(mb, vb)), Radius(s.m + mb))
  }

  /**
   * After an absorption the radius is at least the radius of either body
   * before it.
   */
  lemma AbsorbRadius(s: MergeState, mb: real, vb: Vec)
    requires s.m >= 0.0 && mb >= 0.0 && s.rad == Radius(s.m)
    ensures Absorb(s, mb, vb).rad >= s.rad
    ensures Absorb(s, mb, vb).rad >= Radius(mb)
  {
    RadiusMonotone(s.m, s.m + mb);
    RadiusMonotone(mb, s.m + mb);
  }

  /**
   * The velocity `merge` gives the absorbing body: `ratio*va + (1-ratio)*vb`
   * with `ratio = ma / (ma + mb)`.
   */
  function MergedVelocity(ma: real, va: Vec, mb: real, vb: Vec): Vec
    requires ma + mb != 0.0
  {
    var ratio := ma / (ma + mb);
    Vec(ratio * va.x + (1.0 - ratio) * vb.x, ratio * va.y + (1.0 - ratio) * vb.y)
  }

  /** `(ma + mb) * (r*va + (1-r)*vb) == ma*va + mb*vb` for r = ma/(ma+mb). */
  lemma WeightedAverage(ma: real, mb: real, va: real, vb: real)
    requires ma + mb != 0.0
    ensures (ma + mb) * (ma / (ma + mb) * va + (1.0 - ma / (ma + mb)) * vb) == ma * va + mb * vb
  {
    var M := ma + mb;
    var r := ma / M;
    assert M * r == ma;
    assert M * (1.0 - r) == mb;
    assert M * (r * va + (1.0 - r) * vb) == (M * r) * va + (M * (1.0 - r)) * vb;
  }

  /**
   * The merged velocity conserves momentum: the merged body carries the
   * momentum of both, (ma+mb)·v' = ma·va + mb·vb.
   */
  lemma MergedVelocityMomentum(ma: real, va: Vec, mb: real, vb: Vec)
    requires ma + mb != 0.0
    ensures Momentum(ma + mb, MergedVelocity(ma, va, mb, vb)) == Add(Momentum(ma, va), Momentum(mb, vb))
  {
    WeightedAverage(ma, mb, va.x, vb.x);
    WeightedAverage(ma, mb, va.y, vb.y);
  }

  /**
   * Body A (mass 10, velocity (2,0)) absorbing B (mass 10, velocity (-2,0))
   * comes to rest.
   */
  lemma MergedVelocityHeadOn()
    ensures MergedVelocity(10.0, Vec(2.0, 0.0), 10.0, Vec(-2.0, 0.0)) == Vec(0.0, 0.0)
  {
    assert 10.0 / (10.0 + 10.0) == 0.5;
  }

  /** `(0.8 * rad) ** 2`: `distance < 0.8 * rad` is `distance**2` below it, as rad >= 1. */
  function Threshold(rad: int): real
  {
    (0.8 * rad as real) * (0.8 * rad as real)
  }

  lemma ThresholdMonotone(r1: int, r2: int)
    requires 1 <= r1 <= r2
    ensures Threshold(r1) <= Threshold(r2)
  {
    var a, b := 0.8 * r1 as real, 0.8 * r2 as real;
    assert 0.0 < a <= b;
    assert a * a <= a * b;
    assert a * b <= b * b;
  }

  /**
   * Whether a body at squared distance d2 is within merge distance of one
   * with radius rad: `sqrt(d2) < 0.8 * rad`.
   */
  predicate Near(d2: real, rad: int)
  {
    d2 < Threshold(rad)
  }

  /**
   * The squared distance from pos of each body of the list. Neither host
   * nor the others move while host merges, so the pass reads them from here.
   */
  ghost function Distances(pos: Vec, bs: seq<Body>): (d: map<Body, real>)
    reads bs
    ensures forall b :: b in bs ==> b in d && d[b] == Dist2(pos, b.p)
  {
    map b | b in bs :: Dist2(pos, b.p)
  }

  /** Every body of the list has a recorded distance. */
  predicate Measured(bs: seq<Body>, d2: map<Body, real>)
  {
    forall b :: b in bs ==> b in d2
  }

  /** Every body of the list other than host has positive mass. */
  ghost predicate OthersPositive(host: Body, bs: seq<Body>)
    reads set b | b in bs && b != host
  {
    forall b :: b in bs && b != host ==> b.m > 0.0
  }

  /**
   * The merge loop from index i on, as Python runs it: host, in state s,
   * visits bs[i], whose squared distance from host is d2[bs[i]]; an absorbed body is removed at i, and
   * the loop goes on at i + 1, so the body that slid into slot i is not
   * visited in this pass.
   */
  ghost function MergePass(host: Body, d2: map<Body, real>, s: MergeState, bs: seq<Body>, i: nat): (MergeState, seq<Body>)
    reads set b | b in bs && b != host
    requires s.m > 0.0 && OthersPositive(host, bs) && Measured(bs, d2)
    decreases |bs| - i
  {
    if i >= |bs| then (s, bs)
    else if bs[i] == host || !Near(d2[bs[i]], s.rad) then MergePass(host, d2, s, bs, i + 1)
    else
      var rest := bs[..i] + bs[i + 1..];
      assert forall b :: b in rest ==> b in bs;
      MergePass(host, d2, Absorb(s, bs[i].m, bs[i].v), rest, i + 1)
  }

  /**
   * The whole merge host does on the list bs: the pass from index 0,
   * starting from host's own mass, momentum and radius.
   */
  ghost function MergeOf(host: Body, bs: seq<Body>): (MergeState, seq<Body>)
    reads host, bs
    requires host.m > 0.0 && OthersPositive(host, bs)
  {
    MergePass(host, Distances(host.p, bs), MergeState(host.m, Momentum(host.m, host.v), host.rad), bs, 0)
  }

  /** One step of the pass when bs[i] is host or too far away. */
  lemma MergePassSkip(host: Body, d2: map<Body, real>, s: MergeState, bs: seq<Body>, i: nat)
    requires Measured(bs, d2) && s.m > 0.0 && OthersPositive(host, bs)
    requires i < |bs| && (bs[i] == host || !Near(d2[bs[i]], s.rad))
    ensures MergePass(host, d2, s, bs, i) == MergePass(host, d2, s, bs, i + 1)
  {
  }

  /** One step of the pass when bs[i] is absorbed. */
  lemma MergePassTake(host: Body, d2: map<Body, real>, s: MergeState, bs: seq<Body>, i: nat)
    requires Measured(bs, d2) && s.m > 0.0 && OthersPositive(host, bs)
    requires i < |bs| && bs[i] != host && Near(d2[bs[i]], s.rad)
    ensures Measured(bs[..i] + bs[i + 1..], d2) && OthersPositive(host, bs[..i] + bs[i + 1..])
    ensures MergePass(host, d2, s, bs, i) == MergePass(host, d2, Absorb(s, bs[i].m, bs[i].v), bs[..i] + bs[i + 1..], i + 1)
  {
    assert forall b :: b in bs[..i] + bs[i + 1..] ==> b in bs;
  }

  /**
   * The skip after a removal: in the list [host, a, c] with both a and c
   * within merge distance, the pass absorbs a, and c, which slides into
   * the slot just visited, stays in the list untouched.
   */
  lemma MergePassSkipsNext(host: Body, a: Body, c: Body, d2: map<Body, real>, s: MergeState)
    requires host != a && host != c && a != c
    requires s.m > 0.0 && a.m > 0.0 && c.m > 0.0
    requires host in d2 && a in d2 && c in d2
    requires Near(d2[a], s.rad) && Near(d2[c], s.rad)
    ensures MergePass(host, d2, s, [host, a, c], 0) == (Absorb(s, a.m, a.v), [host, c])
  {
    var bs := [host, a, c];
    MergePassSkip(host, d2, s, bs, 0);
    MergePassTake(host, d2, s, bs, 1);
    assert bs[..1] + bs[2..] == [host, c];
  }

  /** The mass of the bodies in the list other than host. */
  ghost function OthersMass(host: Body, bs: seq<Body>): real
    reads set b | b in bs && b != host
  {
    if bs == [] then 0.0
    else (if bs[0] == host then 0.0 else bs[0].m) + OthersMass(host, bs[1..])
  }

  /** The momentum of the bodies in the list other than host. */
  ghost function OthersMomentum(host: Body, bs: seq<Body>): Vec
    reads set b | b in bs && b != host
  {
    if bs == [] then Zero
    else Add(if bs[0] == host then Zero else Momentum(bs[0].m, bs[0].v),
             OthersMomentum(host, bs[1..]))
  }

  lemma {:induction false} OthersMassRemove(host: Body, bs: seq<Body>, i: nat)
    requires i < |bs| && bs[i] != host
    ensures OthersMass(host, bs) == OthersMass(host, bs[..i] + bs[i + 1..]) + bs[i].m
    decreases i
  {
    var rest := bs[..i] + bs[i + 1..];
    if i == 0 {
      assert rest == bs[1..];
    } else {
      OthersMassRemove(host, bs[1..], i - 1);
      assert rest[0] == bs[0];
      assert rest[1..] == bs[1..][..i - 1] + bs[1..][i..];
    }
  }

  lemma {:induction false} OthersMomentumRemove(host: Body, bs: seq<Body>, i: nat)
    requires i < |bs| && bs[i] != host
    ensures OthersMomentum(host, bs) ==
            Add(OthersMomentum(host, bs[..i] + bs[i + 1..]), Momentum(bs[i].m, bs[i].v))
    decreases i
  {
    var rest := bs[..i] + bs[i + 1..];
    if i == 0 {
      assert rest == bs[1..];
    } else {
      OthersMomentumRemove(host, bs[1..], i - 1);
      assert rest[0] == bs[0];
      assert rest[1..] == bs[1..][..i - 1] + bs[1..][i..];
    }
  }

  /** A merge pass moves mass from the absorbed bodies to host, losing none. */
  lemma {:induction false} MergePassConservesMass(host: Body, d2: map<Body, real>, s: MergeState, bs: seq<Body>, i: nat)
    requires Measured(bs, d2) && s.m > 0.0 && OthersPositive(host, bs)
    ensures var (t, rest) := MergePass(host, d2, s, bs, i);
            t.m + OthersMass(host, rest) == s.m + OthersMass(host, bs)
    decreases |bs| - i
  {
    if i >= |bs| {
    } else if bs[i] == host || !Near(d2[bs[i]], s.rad) {
      MergePassConservesMass(host, d2, s, bs, i + 1);
    } else {
      var rest := bs[..i] + bs[i + 1..];
      assert forall b :: b in rest ==> b in bs;
      var t := Absorb(s, bs[i].m, bs[i].v);
      assert MergePass(host, d2, s, bs, i) == MergePass(host, d2, t, rest, i + 1);
      MergePassConservesMass(host, d2, t, rest, i + 1);
      OthersMassRemove(host, bs, i);
    }
  }

  /** Moving w from one side of a sum to the other keeps the sum. */
  lemma Transfer(gained: Vec, before: Vec, left: Vec, all: Vec, w: Vec)
    requires gained == Add(before, w) && all == Add(left, w)
    ensures Add(gained, left) == Add(before, all)
  {
  }

  /** A merge pass moves momentum from the absorbed bodies to host, losing none. */
  lemma {:induction false} MergePassConservesMomentum(host: Body, d2: map<Body, real>, s: MergeState, bs: seq<Body>, i: nat)
    requires Measured(bs, d2) && s.m > 0.0 && OthersPositive(host, bs)
    ensures var r := MergePass(host, d2, s, bs, i);
            Add(r.0.mom, OthersMomentum(host, r.1)) == Add(s.mom, OthersMomentum(host, bs))
    decreases |bs| - i
  {
    if i >= |bs| {
    } else if bs[i] == host || !Near(d2[bs[i]], s.rad) {
      MergePassConservesMomentum(host, d2, s, bs, i + 1);
    } else {
      var rest := bs[..i] + bs[i + 1..];
      assert forall b :: b in rest ==> b in bs;
      var t := Absorb(s, bs[i].m, bs[i].v);
      var r := MergePass(host, d2, t, rest, i + 1);
      assert MergePass(host, d2, s, bs, i) == r;
      MergePassConservesMomentum(host, d2, t, rest, i + 1);
      var w := Momentum(bs[i].m, bs[i].v);
      OthersMomentumRemove(host, bs, i);
      Transfer(t.mom, s.mom, OthersMomentum(host, rest), OthersMomentum(host, bs), w);
    }
  }

  /**
   * A merge pass only removes bodies: the survivors keep their order, host
   * survives, host's mass never shrinks, and a pass that removes nothing
   * changes nothing.
   */
  lemma {:induction false} MergePassShape(host: Body, d2: map<Body, real>, s: MergeState, bs: seq<Body>, i: nat)
    requires Measured(bs, d2) && s.m > 0.0 && OthersPositive(host, bs)
    ensures IsSubseq(MergePass(host, d2, s, bs, i).1, bs)
    ensures host in bs ==> host in MergePass(host, d2, s, bs, i).1
    ensures MergePass(host, d2, s, bs, i).0.m >= s.m
    ensures |MergePass(host, d2, s, bs, i).1| == |bs| ==> MergePass(host, d2, s, bs, i) == (s, bs)
    decreases |bs| - i
  {
    if i >= |bs| {
      SubseqRefl(bs);
    } else if bs[i] == host || !Near(d2[bs[i]], s.rad) {
      MergePassShape(host, d2, s, bs, i + 1);
    } else {
      var rest := bs[..i] + bs[i + 1..];
      assert forall b :: b in rest ==> b in bs;
      var t := Absorb(s, bs[i].m, bs[i].v);
      MergePassShape(host, d2, t, rest, i + 1);
      SubseqRemove(bs, i);
      SubseqTrans(MergePass(host, d2, t, rest, i + 1).1, rest, bs);
      SubseqFacts(MergePass(host, d2, t, rest, i + 1).1, rest);
      if host in bs {
        assert host in rest by {
          var k :| 0 <= k < |bs| && bs[k] == host;
          assert k != i;
          if k < i { assert rest[k] == host; } else { assert rest[k - 1] == host; }
        }
      }
    }
  }

  /**
   * The other direction: if no body host visits is within merge distance
   * of it at the start, the pass absorbs nothing.
   */
  lemma {:induction false} MergePassNoneNear(host: Body, d2: map<Body, real>, s: MergeState, bs: seq<Body>, i: nat)
    requires Measured(bs, d2) && s.m > 0.0 && OthersPositive(host, bs)
    requires forall k :: i <= k < |bs| && bs[k] != host ==> !Near(d2[bs[k]], s.rad)
    ensures MergePass(host, d2, s, bs, i) == (s, bs)
    decreases |bs| - i
  {
    if i < |bs| {
      MergePassNoneNear(host, d2, s, bs, i + 1);
    }
  }

  /**
   * A pass keeps host's radius equal to Radius of its mass, so the radius only grows.
   */
  lemma {:induction false} MergePassRadius(host: Body, d2: map<Body, real>, s: MergeState, bs: seq<Body>, i: nat)
    requires Measured(bs, d2) && s.m > 0.0 && OthersPositive(host, bs) && s.rad == Radius(s.m)
    ensures var t := MergePass(host, d2, s, bs, i).0;
            t.m > 0.0 && t.rad == Radius(t.m) && t.rad >= s.rad
    decreases |bs| - i
  {
    if i >= |bs| {
    } else if bs[i] == host || !Near(d2[bs[i]], s.rad) {
      MergePassRadius(host, d2, s, bs, i + 1);
    } else {
      var rest := bs[..i] + bs[i + 1..];
      assert forall b :: b in rest ==> b in bs;
      var t := Absorb(s, bs[i].m, bs[i].v);
      MergePassRadius(host, d2, t, rest, i + 1);
      AbsorbRadius(s, bs[i].m, bs[i].v);
    }
  }

  /**
   * Every body a pass removes was within merge distance of host, measured
   * with host's final radius.
   */
  lemma {:induction false} MergePassRemovedNear(host: Body, d2: map<Body, real>, s: MergeState, bs: seq<Body>, i: nat)
    requires Measured(bs, d2) && s.m > 0.0 && OthersPositive(host, bs) && Distinct(bs)
    requires s.rad == Radius(s.m)
    ensures forall b :: b in bs && b !in MergePass(host, d2, s, bs, i).1 ==>
              b != host && Near(d2[b], MergePass(host, d2, s, bs, i).0.rad)
    decreases |bs| - i
  {
    if i >= |bs| {
    } else if bs[i] == host || !Near(d2[bs[i]], s.rad) {
      MergePassRemovedNear(host, d2, s, bs, i + 1);
    } else {
      var rest := bs[..i] + bs[i + 1..];
      assert forall b :: b in rest ==> b in bs;
      var t := Absorb(s, bs[i].m, bs[i].v);
      SubseqRemove(bs, i);
      SubseqDistinct(rest, bs);
      var r := MergePass(host, d2, t, rest, i + 1);
      assert MergePass(host, d2, s, bs, i) == r;
      MergePassRemovedNear(host, d2, t, rest, i + 1);
      MergePassRadius(host, d2, s, bs, i);
      ThresholdMonotone(s.rad, r.0.rad);
      RemoveKeepsOthers(bs, i);
    }
  }

  // ---------------------------------------------------------------- bounce

  /**
   * One axis of `bounce`: first reflect off the upper wall, then off the
   * lower one; both can fire when the coordinate is past twice the bound.
   */
  function Reflect(x: real, u: real, bound: real): (r: (real, real))
    ensures bound >= 0.0 && 0.0 <= x <= bound ==> r == (x, u)
    ensures bound >= 0.0 && bound < x <= 2.0 * bound ==> r == (2.0 * bound - x, -u)
    ensures bound >= 0.0 && x < 0.0 ==> r == (-x, -u)
    ensures bound >= 0.0 && x > 2.0 * bound ==> r == (x - 2.0 * bound, u)
    ensures bound >= 0.0 && -bound <= x <= 2.0 * bound ==> 0.0 <= r.0 <= bound
  {
    var (x1, u1) := if x > bound then (2.0 * bound - x, -u) else (x, u);
    if x1 < 0.0 then (-x1, -u1) else (x1, u1)
  }

  /** A body 5 past the wall at 100 comes back to 95 with its speed negated. */
  lemma ReflectPastWall()
    ensures Reflect(105.0, 3.0, 100.0) == (95.0, -3.0)
  {
  }

  // ---------------------------------------------------------------- trail

  /**
   * `update_trail` on the list t with capacity cap: append e, then drop the
   * oldest entry if the list is longer than cap.
   */
  function Pushed<T>(t: seq<T>, e: T, cap: int): (r: seq<T>)
    ensures cap >= 1 ==> |r| > 0 && r[|r| - 1] == e
    ensures |t| <= cap ==> |r| <= cap
    ensures |t| >= cap ==> |r| == |t|
  {
    var t1 := t + [e];
    if |t1| > cap then t1[1..] else t1
  }

  /** Successive trail updates with the entries es, oldest first. */
  function PushAll<T>(t: seq<T>, es: seq<T>, cap: int): seq<T>
  {
    if es == [] then t else Pushed(PushAll(t, es[..|es| - 1], cap), es[|es| - 1], cap)
  }

  /**
   * A trail within its capacity holds, after any number of updates, the
   * newest min(length, cap) positions in order.
   */
  lemma {:induction false} PushAllWindow<T>(t: seq<T>, es: seq<T>, cap: int)
    requires |t| <= cap
    ensures var n := |t| + |es|;
            PushAll(t, es, cap) == (t + es)[if n <= cap then 0 else n - cap..]
  {
    if es != [] {
      var init := es[..|es| - 1];
      PushAllWindow(t, init, cap);
      assert (t + init) + [es[|es| - 1]] == t + es;
    }
  }

  /** After at least cap updates a trail holds exactly the last cap of them. */
  lemma TrailKeepsNewest<T>(t: seq<T>, es: seq<T>, cap: int)
    requires |t| <= cap <= |es|
    ensures PushAll(t, es, cap) == es[|es| - cap..]
  {
    PushAllWindow(t, es, cap);
    assert (t + es)[|t| + |es| - cap..] == es[|es| - cap..];
  }

  // ---------------------------------------------------------------- the body

  class Body {
    var m: real
    var p: Vec
    var v: Vec
    var f: Vec
    var rad: int
    var prevPositions: seq<(int, int)>
    const trailSize: int
    const shape: Shape

    /**
     * `Body.__init__`. Every caller passes integer coordinates, so the first
     * trail entry is the start position itself. A negative mass has a
     * complex cube root in Python and `int()` of it fails.
     */
    constructor (x: int, y: int, mass: real, velocity: Vec, trailSize: int, shape: Shape)
      requires mass >= 0.0
      ensures m == mass && p == Vec(x as real, y as real) && v == velocity && f == Zero
      ensures rad == Radius(mass) && rad >= 1
      ensures prevPositions == [(x, y)]
      ensures this.trailSize == trailSize && this.shape == shape
    {
      m := mass;
      p := Vec(x as real, y as real);
      v := velocity;
      f := Zero;
      rad := Radius(mass);
      prevPositions := [(x, y)];
      this.trailSize := trailSize;
      this.shape := shape;
    }

    /**
     * `update_force`: f becomes the sum of the pulls of every body in the
     * list other than this one. When some other body sits at distance 0 the
     * division fails (ok is false) before f is written.
     */
    method UpdateForce(bodies: seq<Body>, G: real) returns (ok: bool)
      modifies this`f
      ensures ok <==> old(Separated(this, bodies))
      ensures ok ==> f == old(NetForce(this, bodies, G))
      ensures !ok ==> f == old(f)
    {
      var fx: seq<real> := [];
      var fy: seq<real> := [];
      var i := 0;
      while i < |bodies|
        invariant 0 <= i <= |bodies|
        invariant Separated(this, bodies[..i])
        invariant Vec(Sum(fx), Sum(fy)) == NetForce(this, bodies[..i], G)
      {
        var b := bodies[i];
        assert bodies[..i + 1][..i] == bodies[..i];
        if b != this {
          var r2 := Dist2(p, b.p);
          if r2 == 0.0 {
            return false;
          }
          var pull := Pull(m, p, b.m, b.p, G);
          assert (fx + [pull.x])[..|fx|] == fx;
          assert (fy + [pull.y])[..|fy|] == fy;
          fx := fx + [pull.x];
          fy := fy + [pull.y];
        }
        i := i + 1;
      }
      assert bodies[..i] == bodies;
      f := Vec(Sum(fx), Sum(fy));
      return true;
    }

    /**
     * The calls `update_bodies` makes on this body after its merge:
     * `update_force`, and unless that divided by zero, `update_velocity`,
     * `update_position` and, on every 4th tick, `update_trail`.
     */
    method Advance(bodies: seq<Body>, G: real, iteration: int) returns (ok: bool)
      requires m > 0.0
      modifies this`f, this`v, this`p, this`prevPositions
      ensures ok <==> old(Separated(this, bodies))
      ensures ok ==> f == old(NetForce(this, bodies, G))
      ensures ok ==> v == Vec(old(v.x) + f.x / m, old(v.y) + f.y / m)
      ensures ok ==> p == Add(old(p), v)
      ensures ok && G == 0.0 ==> v == old(v)
      ensures !ok ==> f == old(f) && v == old(v) && p == old(p)
      ensures ok && iteration % 4 == 0 ==>
                prevPositions == Pushed(old(prevPositions), (Trunc(p.x), Trunc(p.y)), trailSize)
      ensures !ok || iteration % 4 != 0 ==> prevPositions == old(prevPositions)
    {
      if Separated(this, bodies) {
        NetForceZeroGravity(this, bodies);
      }
      ok := UpdateForce(bodies, G);
      if ok {
        ghost var v0 := v;
        UpdateVelocity();
        if G == 0.0 {
          ZeroAcceleration(v0, f, m, v);
        }
        UpdatePosition();
        if iteration % 4 == 0 {
          UpdateTrail();
        }
      }
    }

    /** `update_velocity`: v += f / m, componentwise. */
    method UpdateVelocity()
      requires m != 0.0
      modifies this`v
      ensures v == Vec(old(v.x) + f.x / m, old(v.y) + f.y / m)
    {
      v := Vec(v.x + f.x / m, v.y + f.y / m);
    }

    /** `update_position`: p += v, componentwise. */
    method UpdatePosition()
      modifies this`p
      ensures p == Add(old(p), v)
    {
      p := Add(p, v);
    }

    /**
     * `merge`: walk the shared list, absorbing every other body visited
     * that is within 0.8 * rad (the current, already grown rad), and hand
     * back the list with the absorbed bodies removed. The new velocity is
     * the one whose momentum is what the pass accumulated.
     */
    method Merge(bodies: seq<Body>) returns (rest: seq<Body>)
      requires m > 0.0 && rad >= 1 && OthersPositive(this, bodies) && Distinct(bodies)
      modifies this`m, this`v, this`rad
      ensures var (t, r) := old(MergeOf(this, bodies));
              rest == r && m == t.m && rad == t.rad && Momentum(m, v) == t.mom
      ensures rad >= 1
    {
      ghost var d2 := Distances(p, bodies);
      ghost var goal := MergeOf(this, bodies);
      rest := bodies;
      var i := 0;
      while i < |rest|
        invariant m > 0.0 && rad >= 1 && OthersPositive(this, rest) && Measured(rest, d2)
        invariant forall c :: c in rest ==> c in bodies
        invariant MergePass(this, d2, MergeState(m, Momentum(m, v), rad), rest, i) == goal
        decreases |rest| - i
      {
        var b := rest[i];
        ghost var s := MergeState(m, Momentum(m, v), rad);
        if b == this {
          MergePassSkip(this, d2, s, rest, i);
        } else {
          var distance2 := Dist2(p, b.p);
          assert distance2 == d2[b];
          if distance2 >= Threshold(rad) {
            MergePassSkip(this, d2, s, rest, i);
          } else {
            MergePassTake(this, d2, s, rest, i);
            ghost var t := Absorb(s, b.m, b.v);
            MergedVelocityMomentum(m, v, b.m, b.v);
            v := MergedVelocity(m, v, b.m, b.v);
            m := m + b.m;
            rad := Radius(m);
            assert MergeState(m, Momentum(m, v), rad) == t;
            rest := rest[..i] + rest[i + 1..];
          }
        }
        i := i + 1;
      }
    }

    /** `bounce`: reflect off the walls of [0, xbound] x [0, ybound], axis by axis. */
    method Bounce(xbound: real, ybound: real)
      modifies this`p, this`v
      ensures (p.x, v.x) == Reflect(old(p.x), old(v.x), xbound)
      ensures (p.y, v.y) == Reflect(old(p.y), old(v.y), ybound)
    {
      if p.x > xbound {
        p, v := p.(x := 2.0 * xbound - p.x), v.(x := -v.x);
      }
      if p.y > ybound {
        p, v := p.(y := 2.0 * ybound - p.y), v.(y := -v.y);
      }
      if p.x < 0.0 {
        p, v := p.(x := -p.x), v.(x := -v.x);
      }
      if p.y < 0.0 {
        p, v := p.(y := -p.y), v.(y := -v.y);
      }
    }

    /** `update_trail`: append the truncated position, evicting the oldest past trailSize. */
    method UpdateTrail()
      modifies this`prevPositions
      ensures prevPositions == Pushed(old(prevPositions), (Trunc(p.x), Trunc(p.y)), trailSize)
    {
      prevPositions := prevPositions + [(Trunc(p.x), Trunc(p.y))];
      if |prevPositions| > trailSize {
        prevPositions := prevPositions[1..];
      }
    }
  }

  /** Adding a zero force over any non-zero mass leaves the velocity as it was. */
  lemma ZeroAcceleration(v0: Vec, f: Vec, m: real, v: Vec)
    requires m != 0.0 && f == Zero && v == Vec(v0.x + f.x / m, v0.y + f.y / m)
    ensures v == v0
  {
  }

  /** No body of the list other than a sits at distance 0 from pos. */
  ghost predicate SeparatedAt(a: Body, pos: Vec, bs: seq<Body>)
    reads set b | b in bs && b != a
  {
    forall b :: b in bs && b != a ==> Dist2(pos, b.p) != 0.0
  }

  /**
   * The force `update_force` computes for a, of mass m and at position pos,
   * from the list bs, summed in list order.
   */
  ghost function NetForceAt(a: Body, m: real, pos: Vec, bs: seq<Body>, G: real): Vec
    reads set b | b in bs && b != a
    requires SeparatedAt(a, pos, bs)
  {
    if bs == [] then Zero
    else
      var b := bs[|bs| - 1];
      var prior := NetForceAt(a, m, pos, bs[..|bs| - 1], G);
      if b == a then prior else Add(prior, Pull(m, pos, b.m, b.p, G))
  }

  /** No body of the list other than a sits where a is. */
  ghost predicate Separated(a: Body, bs: seq<Body>)
    reads a, bs
  {
    SeparatedAt(a, a.p, bs)
  }

  /** The force `update_force` computes for a from the list bs. */
  ghost function NetForce(a: Body, bs: seq<Body>, G: real): Vec
    reads a, bs
    requires Separated(a, bs)
  {
    NetForceAt(a, a.m, a.p, bs, G)
  }

  /** Without gravity the net force is zero. */
  lemma {:induction false} NetForceZeroGravity(a: Body, bs: seq<Body>)
    requires Separated(a, bs)
    ensures NetForce(a, bs, 0.0) == Zero
  {
    if bs != [] {
      NetForceZeroGravity(a, bs[..|bs| - 1]);
    }
  }
  /** The forces `update_force` gives each body of xs from the list bs, summed. */
  ghost function TotalForce(xs: seq<Body>, bs: seq<Body>, G: real): Vec
    reads xs, bs
    requires forall a :: a in xs ==> Separated(a, bs)
  {
    if xs == [] then Zero
    else Add(TotalForce(xs[..|xs| - 1], bs, G), NetForce(xs[|xs| - 1], bs, G))
  }

  /** What the bodies of xs pull on c, summed. */
  ghost function PullsOnto(xs: seq<Body>, c: Body, G: real): Vec
    reads xs, c
    requires forall a :: a in xs ==> Dist2(a.p, c.p) != 0.0
  {
    if xs == [] then Zero
    else
      var a := xs[|xs| - 1];
      Add(PullsOnto(xs[..|xs| - 1], c, G), Pull(a.m, a.p, c.m, c.p, G))
  }

  /** No body of xs coincides with c, seen from either side. */
  lemma SeparatedFrom(xs: seq<Body>, c: Body)
    requires c !in xs && Separated(c, xs)
    ensures forall a :: a in xs ==> Dist2(a.p, c.p) != 0.0
  {
    forall a | a in xs ensures Dist2(a.p, c.p) != 0.0 {
      Dist2Symmetric(a.p, c.p);
    }
  }

  /** One body of xs fewer changes c's force and its reaction by opposite amounts. */
  lemma ReactionStep(xs: seq<Body>, c: Body, G: real)
    requires xs != [] && c !in xs && Separated(c, xs)
    ensures Separated(c, xs[..|xs| - 1])
    ensures forall a :: a in xs ==> Dist2(a.p, c.p) != 0.0
    ensures Add(PullsOnto(xs, c, G), NetForce(c, xs, G)) ==
            Add(PullsOnto(xs[..|xs| - 1], c, G), NetForce(c, xs[..|xs| - 1], G))
  {
    SeparatedFrom(xs, c);
    var init, a := xs[..|xs| - 1], xs[|xs| - 1];
    assert forall b :: b in init ==> b in xs;
    var action, reaction := Pull(c.m, c.p, a.m, a.p, G), Pull(a.m, a.p, c.m, c.p, G);
    assert PullsOnto(xs, c, G) == Add(PullsOnto(init, c, G), reaction);
    assert NetForce(c, xs, G) == Add(NetForce(c, init, G), action);
    PullAntisymmetric(c.m, c.p, a.m, a.p, G);
  }

  /** What the others pull on c cancels c's own net force. */
  lemma {:induction false} PullsOntoReaction(xs: seq<Body>, c: Body, G: real)
    requires c !in xs && Separated(c, xs)
    ensures forall a :: a in xs ==> Dist2(a.p, c.p) != 0.0
    ensures Add(PullsOnto(xs, c, G), NetForce(c, xs, G)) == Zero
  {
    SeparatedFrom(xs, c);
    if xs != [] {
      ReactionStep(xs, c, G);
      PullsOntoReaction(xs[..|xs| - 1], c, G);
    }
  }

  /** Adding c at the end of the list adds, to a's force, c's pull on a. */
  lemma NetForceExtend(a: Body, bs: seq<Body>, c: Body, G: real)
    requires a != c && Separated(a, bs + [c])
    ensures Separated(a, bs) && Dist2(a.p, c.p) != 0.0
    ensures NetForce(a, bs + [c], G) == Add(NetForce(a, bs, G), Pull(a.m, a.p, c.m, c.p, G))
  {
    assert (bs + [c])[..|bs|] == bs;
  }

  /**
   * The last body a of xs: with c appended to the list, a's force gains
   * c's pull on a, which is also what a adds to c's reaction.
   */
  lemma ExtendStep(xs: seq<Body>, bs: seq<Body>, c: Body, G: real)
    requires xs != [] && c !in xs && forall a :: a in xs ==> Separated(a, bs + [c])
    ensures forall a :: a in xs ==> Separated(a, bs) && Dist2(a.p, c.p) != 0.0
    ensures TotalForce(xs, bs + [c], G) == Add(TotalForce(xs[..|xs| - 1], bs + [c], G),
                                               Add(NetForce(xs[|xs| - 1], bs, G), Pull(xs[|xs| - 1].m, xs[|xs| - 1].p, c.m, c.p, G)))
    ensures Add(TotalForce(xs, bs, G), PullsOnto(xs, c, G)) ==
            Add(Add(TotalForce(xs[..|xs| - 1], bs, G), PullsOnto(xs[..|xs| - 1], c, G)),
                Add(NetForce(xs[|xs| - 1], bs, G), Pull(xs[|xs| - 1].m, xs[|xs| - 1].p, c.m, c.p, G)))
  {
    forall a | a in xs ensures Separated(a, bs) && Dist2(a.p, c.p) != 0.0 {
      NetForceExtend(a, bs, c, G);
    }
    var init, a := xs[..|xs| - 1], xs[|xs| - 1];
    assert forall b :: b in init ==> b in xs;
    NetForceExtend(a, bs, c, G);
  }

  /** Adding c at the end of the list adds c's pulls on every body of xs. */
  lemma {:induction false} TotalForceExtend(xs: seq<Body>, bs: seq<Body>, c: Body, G: real)
    requires c !in xs && forall a :: a in xs ==> Separated(a, bs + [c])
    ensures forall a :: a in xs ==> Separated(a, bs) && Dist2(a.p, c.p) != 0.0
    ensures TotalForce(xs, bs + [c], G) == Add(TotalForce(xs, bs, G), PullsOnto(xs, c, G))
  {
    forall a | a in xs ensures Separated(a, bs) && Dist2(a.p, c.p) != 0.0 {
      NetForceExtend(a, bs, c, G);
    }
    if xs != [] {
      ExtendStep(xs, bs, c, G);
      TotalForceExtend(xs[..|xs| - 1], bs, c, G);
    }
  }

  /**
   * Newton's third law for the whole list: when no two bodies coincide, the
   * forces `update_force` would give all of them, from the same positions,
   * cancel out.
   */
  lemma {:induction false} TotalForceZero(bs: seq<Body>, G: real)
    requires Distinct(bs) && forall a :: a in bs ==> Separated(a, bs)
    ensures TotalForce(bs, bs, G) == Zero
  {
    if bs != [] {
      var init, c := bs[..|bs| - 1], bs[|bs| - 1];
      assert bs == init + [c];
      assert c !in init && Distinct(init) by {
        DistinctInit(bs);
      }
      assert forall a :: a in init ==> a in bs;
      TotalForceExtend(init, init, c, G);
      TotalForceZero(init, G);
      PullsOntoReaction(init, c, G);
      assert NetForce(c, bs, G) == NetForce(c, init, G);
    }
  }
}
