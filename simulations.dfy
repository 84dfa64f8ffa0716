// Simulations.py: the simulation object that owns the list of bodies, its
// per-tick driver, the mouse gesture that adds a body, and the two scenario
// builders (random arrows and planets; a sun with orbiting planets).
module Simulations {
  import opened Numeric
  import opened Lists
  import opened Particles

  /** The total mass of the bodies of a list. */
  ghost function TotalMass(bs: seq<Body>): real
    reads bs
  {
    if bs == [] then 0.0 else bs[0].m + TotalMass(bs[1..])
  }

  /** The total mass depends on the masses alone. */
  twostate lemma {:induction false} TotalMassFrame(bs: seq<Body>)
    requires forall c :: c in bs ==> old(c.m) == c.m
    ensures TotalMass(bs) == old(TotalMass(bs))
  {
    if bs != [] {
      TotalMassFrame(bs[1..]);
    }
  }

  lemma {:induction false} OthersMassAbsent(host: Body, bs: seq<Body>)
    requires host !in bs
    ensures OthersMass(host, bs) == TotalMass(bs)
  {
    if bs != [] {
      OthersMassAbsent(host, bs[1..]);
    }
  }

  /** A body listed once contributes its own mass plus the others' mass. */
  lemma {:induction false} TotalMassSplit(host: Body, bs: seq<Body>)
    requires host in bs && Distinct(bs)
    ensures TotalMass(bs) == host.m + OthersMass(host, bs)
  {
    if bs[0] == host {
      OthersMassAbsent(host, bs[1..]);
    } else {
      TotalMassSplit(host, bs[1..]);
    }
  }

  /** Equal momenta at the same non-zero mass mean equal velocities. */
  lemma MomentumCancel(m: real, v: Vec, w: Vec)
    requires m != 0.0 && Momentum(m, v) == Momentum(m, w)
    ensures v == w
  {
    assert m * (v.x - w.x) == 0.0;
    assert m * (v.y - w.y) == 0.0;
  }

  /** A velocity that `uniform(-lim, lim)` can give, componentwise. */
  predicate WithinSpeed(v: Vec, lim: real)
  {
    -lim <= v.x <= lim && -lim <= v.y <= lim
  }

  /** A position that `randint(0, max)` can give, componentwise. */
  predicate OnScreen(b: Body, maxPos: (int, int))
    reads b
  {
    b.p.x.Floor as real == b.p.x && 0.0 <= b.p.x <= maxPos.0 as real &&
    b.p.y.Floor as real == b.p.y && 0.0 <= b.p.y <= maxPos.1 as real
  }

  /**
   * A body as `Body.__init__` leaves it: no force yet, the radius of its
   * mass, and a trail holding only its own (integer) position.
   */
  predicate Newborn(c: Body)
    reads c
  {
    c.m >= 0.0 && c.f == Zero && c.rad == Radius(c.m) && c.prevPositions == [(c.p.x.Floor, c.p.y.Floor)]
  }

  /** What `Random_sim` makes of one of its first nrParticles draws. */
  predicate RandomArrow(c: Body, maxPos: (int, int))
    reads c
  {
    OnScreen(c, maxPos) && Newborn(c) && 1.0 <= c.m <= 200.0 && WithinSpeed(c.v, 2.0) &&
    c.trailSize == 30 && c.shape == Arrow
  }

  /** What `Random_sim` makes of one of its last nrPlanets draws. */
  predicate RandomPlanet(c: Body, maxPos: (int, int))
    reads c
  {
    OnScreen(c, maxPos) && Newborn(c) && 200.0 <= c.m <= 1000.0 && WithinSpeed(c.v, 1.0) &&
    c.trailSize == 200 && c.shape == Planet
  }

  /** `random.randint(lo, hi)`: some integer of [lo, hi]; the distribution is not modelled. */
  method RandInt(lo: int, hi: int) returns (r: int)
    requires lo <= hi
    ensures lo <= r <= hi
  {
    r :| lo <= r <= hi;
  }

  predicate InRange(r: real, lo: real, hi: real) { lo <= r <= hi }

  /** `random.uniform(lo, hi)`: some real of [lo, hi]; the distribution is not modelled. */
  method Uniform(lo: real, hi: real) returns (r: real)
    requires lo <= hi
    ensures lo <= r <= hi
  {
    assert InRange(lo, lo, hi);
    r :| InRange(r, lo, hi);
    assert InRange(r, lo, hi);
  }

  /**
   * `N_Body` with its two scenario subclasses folded in: the gravitational
   * constant and the list of bodies.
   */
  class NBody {
    var bodies: seq<Body>
    const G: real

    /** The list holds distinct bodies of positive mass, each with the radius of its mass. */
    ghost predicate Valid()
      reads this, bodies
    {
      WellFormed() && Sized()
    }

    /** The list holds distinct bodies of positive mass and radius at least 1. */
    ghost predicate WellFormed()
      reads this, bodies
    {
      Distinct(bodies) && forall c :: c in bodies ==> c.m > 0.0 && c.rad >= 1
    }

    /** Every listed body has the radius of its mass, as its constructor and merging leave it. */
    ghost predicate Sized()
      reads this, bodies
    {
      forall c :: c in bodies ==> c.m >= 0.0 && c.rad == Radius(c.m)
    }

    /** `N_Body.__init__`; the list starts empty until a scenario fills it. */
    constructor (G: real)
      ensures this.G == G && bodies == [] && Valid()
    {
      this.G := G;
      bodies := [];
    }

    /**
     * The first call of the loop of `update_bodies` for body b: b merges
     * with the list and the list loses the absorbed bodies. The new list,
     * b's mass, radius and momentum are those of the merge pass; the total
     * mass is kept, and a merge that absorbs nothing leaves b's velocity
     * alone.
     */
    method MergeBody(b: Body)
      requires WellFormed() && b in bodies && b.rad == Radius(b.m)
      modifies this, b`m, b`v, b`rad
      ensures var (t, r) := old(MergeOf(b, bodies));
              bodies == r && b.m == t.m && b.rad == t.rad && Momentum(b.m, b.v) == t.mom
      ensures WellFormed() && b in bodies && IsSubseq(bodies, old(bodies)) && b.rad == Radius(b.m)
      ensures TotalMass(bodies) == old(TotalMass(bodies))
      ensures b.m >= old(b.m)
      ensures |bodies| == |old(bodies)| ==> bodies == old(bodies) && b.v == old(b.v)
      ensures forall c :: c in old(bodies) && c !in bodies ==> c != b && Near(Dist2(b.p, c.p), b.rad)
    {
      ghost var before := bodies;
      ghost var d2 := Distances(b.p, bodies);
      ghost var s0 := MergeState(b.m, Momentum(b.m, b.v), b.rad);
      ghost var v0 := b.v;
      TotalMassSplit(b, bodies);
      var rest := b.Merge(bodies);
      MergePassConservesMass(b, d2, s0, before, 0);
      MergePassShape(b, d2, s0, before, 0);
      MergePassRadius(b, d2, s0, before, 0);
      MergePassRemovedNear(b, d2, s0, before, 0);
      SubseqDistinct(rest, before);
      SubseqFacts(rest, before);
      bodies := rest;
      TotalMassSplit(b, bodies);
      if |bodies| == |before| {
        MomentumCancel(b.m, b.v, v0);
      }
    }

    /**
     * One pass of the loop of `update_bodies` for body b: merge, then
     * force, velocity, position and, every 4th tick, the trail. merged is
     * b's velocity after the merge. The force is the one from the merged
     * list at b's position before it moves; only b moves, so the others
     * are where b saw them, including any moved earlier in the tick. ok is
     * false when `update_force` divides by zero; b has then merged but not
     * moved.
     */
    method UpdateBody(b: Body, iteration: int) returns (ok: bool, ghost merged: Vec)
      requires WellFormed() && b in bodies && b.rad == Radius(b.m)
      modifies this, b
      ensures WellFormed() && b in bodies && IsSubseq(bodies, old(bodies)) && b.rad == Radius(b.m)
      ensures TotalMass(bodies) == old(TotalMass(bodies))
      ensures b.m >= old(b.m)
      ensures var (t, r) := old(MergeOf(b, bodies));
              bodies == r && b.m == t.m && b.rad == t.rad && Momentum(b.m, merged) == t.mom
      ensures ok <==> SeparatedAt(b, old(b.p), bodies)
      ensures ok ==> b.f == NetForceAt(b, b.m, old(b.p), bodies, G) &&
                     b.v == Vec(merged.x + b.f.x / b.m, merged.y + b.f.y / b.m) &&
                     b.p == Add(old(b.p), b.v)
      ensures !ok ==> b.f == old(b.f) && b.v == merged && b.p == old(b.p)
      ensures ok && iteration % 4 == 0 ==>
                b.prevPositions == Pushed(old(b.prevPositions), (Trunc(b.p.x), Trunc(b.p.y)), b.trailSize)
      ensures !ok || iteration % 4 != 0 ==> b.prevPositions == old(b.prevPositions)
      ensures |bodies| == |old(bodies)| ==> bodies == old(bodies)
      ensures |bodies| == |old(bodies)| && G == 0.0 && ok ==> Drifted(b)
      ensures forall c :: c in old(bodies) && c !in bodies ==> AbsorbedBy(c, b, old(b.p))
    {
      MergeBody(b);
      merged := b.v;
      label afterMerge:
      ok := b.Advance(bodies, G, iteration);
      TotalMassFrame@afterMerge(bodies);
    }

    /**
     * UpdateBody on b as the tick sees it: what b's mass, radius, position
     * and trail have become, what the list has lost and who absorbed it.
     */
    method Step(b: Body, iteration: int) returns (ok: bool)
      requires WellFormed() && b in bodies && b.rad == Radius(b.m)
      modifies this, b
      ensures WellFormed() && b in bodies && IsSubseq(bodies, old(bodies)) && b.rad == Radius(b.m)
      ensures TotalMass(bodies) == old(TotalMass(bodies)) && b.m >= old(b.m)
      ensures ok ==> Moved(b, old(b.p), old(b.prevPositions), iteration)
      ensures !ok ==> b.p == old(b.p) && b.prevPositions == old(b.prevPositions) && !Separated(b, bodies)
      ensures iteration % 4 != 0 ==> b.prevPositions == old(b.prevPositions)
      ensures |bodies| == |old(bodies)| ==> bodies == old(bodies)
      ensures |bodies| == |old(bodies)| && G == 0.0 && ok ==> Drifted(b)
      ensures forall c :: c in old(bodies) && c !in bodies ==> AbsorbedBy(c, b, old(b.p))
    {
      ghost var merged;
      ok, merged := UpdateBody(b, iteration);
    }

    /**
     * Where a tick of `update_bodies` stands once it has visited the bodies
     * of stepped and is at slot i: xs is the list the tick started with,
     * start their starting states and mass their total mass. The list has
     * only lost bodies and kept its mass; the visited bodies followed by the
     * rest of the list are in the order of xs; when the last visit failed,
     * that body is not separated from the others; and every body of xs is
     * as Done describes. While no merge has happened, the visited bodies are
     * the first i of the list.
     */
    ghost predicate Progress(xs: seq<Body>, start: map<Body, Snap>, host: map<Body, Body>, mass: real,
                             stepped: seq<Body>, i: nat, ok: bool, iteration: int)
      reads this, bodies, xs
    {
      WellFormed() && Distinct(xs) && IsSubseq(bodies, xs) && |bodies| <= |xs| &&
      (forall c :: c in bodies ==> c in xs) &&
      TotalMass(bodies) == mass &&
      |stepped| == i && IsSubseq(stepped + From(bodies, i), xs) &&
      (!ok ==> stepped != [] && stepped[|stepped| - 1] in bodies &&
               !Separated(stepped[|stepped| - 1], bodies)) &&
      (forall c {:trigger InStart(c, xs)} :: c in xs && InStart(c, xs) ==>
         c in start && start[c].m >= 0.0 && start[c].rad == Radius(start[c].m) &&
         Done(c, start[c], c in stepped, c in stepped && (ok || c != stepped[|stepped| - 1]), iteration,
              ok && |bodies| == |xs| && G == 0.0) &&
         (c !in bodies ==> c in host && host[c] in stepped && host[c] in xs && host[c] in start &&
                           AbsorbedBy(c, host[c], start[host[c]].p))) &&
      (|bodies| == |xs| ==> bodies == xs && i <= |bodies| && stepped == bodies[..i])
    }

    /**
     * One pass of the loop of `update_bodies`, seen from the tick as a
     * whole: UpdateBody on b, the body at slot i of the list, after the
     * bodies of prior. Progress holds again with b added to the visited
     * bodies.
     */
    method Visit(b: Body, i: nat, iteration: int, ghost prior: seq<Body>, ghost xs: seq<Body>,
                 ghost start: map<Body, Snap>, ghost host: map<Body, Body>, ghost mass: real)
      returns (ok: bool, ghost host': map<Body, Body>)
      requires Progress(xs, start, host, mass, prior, i, true, iteration) && i < |bodies| && b == bodies[i]
      modifies this, b
      ensures Progress(xs, start, host', mass, prior + [b], i + 1, ok, iteration)
      ensures |bodies| <= |old(bodies)|
    {
      assert b !in prior && forall c :: c in prior ==> c in xs by {
        assert From(bodies, i) == bodies[i..];
        OrderFacts(prior, bodies[i..], xs);
        assert bodies[i..][0] == b;
      }
      assert InStart(b, xs) by { SubseqFacts(bodies, xs); }
      ghost var before := bodies;
      ok := Step(b, iteration);
      assert IsSubseq(prior + [b] + From(bodies, i + 1), xs) && IsSubseq(bodies, xs) by {
        VisitOrder(prior, before, bodies, i, xs);
        SubseqTrans(bodies, before, xs);
      }
      assert |bodies| <= |before| && |bodies| <= |xs| && (forall c :: c in bodies ==> c in before && c in xs) &&
             (|bodies| == |xs| ==> bodies == xs) by {
        SubseqFacts(bodies, before);
        SubseqFacts(bodies, xs);
      }
      ghost var stepped := prior + [b];
      assert stepped[|stepped| - 1] == b;
      assert Done(b, start[b], true, ok, iteration, ok && |bodies| == |xs| && G == 0.0);
      forall c | c in xs && c != b
        ensures SnapOf(c) == old(SnapOf(c))
      {
      }
      DoneAfterVisit(b, xs, start, prior, ok, iteration, ok && |bodies| == |xs| && G == 0.0,
                     |before| == |xs| && G == 0.0);
      host' := AbsorbedAfterVisit(b, xs, start, host, prior, before, bodies);
      if |bodies| == |xs| {
        assert bodies == before;
        PrefixExtend(before, i);
      }
    }

    /**
     * Where the loop of `update_bodies` leaves the tick: with the loop done
     * or stopped at a failed visit, Progress gives everything UpdateBodies
     * promises about the list and its bodies.
     */
    twostate lemma Finish(new start: map<Body, Snap>, new host: map<Body, Body>, new mass: real,
                          new stepped: seq<Body>, new i: nat, new ok: bool, new iteration: int)
      requires Progress(old(bodies), start, host, mass, stepped, i, ok, iteration) && !(ok && i < |bodies|)
      requires mass == old(TotalMass(bodies))
      requires forall c :: c in old(bodies) ==> c in start && start[c] == old(SnapOf(c))
      ensures Valid() && IsSubseq(bodies, old(bodies))
      ensures TotalMass(bodies) == old(TotalMass(bodies))
      ensures Distinct(stepped) && forall c :: c in stepped ==> c in old(bodies)
      ensures IsSubseq(stepped, old(bodies))
      ensures ok ==> |stepped| >= |bodies|
      ensures !ok ==> stepped != [] && stepped[|stepped| - 1] in old(bodies) && stepped[|stepped| - 1] in bodies &&
                      !Separated(stepped[|stepped| - 1], bodies) && Halted(stepped[|stepped| - 1])
      ensures forall c :: c in old(bodies) ==> c.m >= old(c.m)
      ensures forall c :: c in old(bodies) && c !in stepped ==> Untouched(c)
      ensures forall c :: c in stepped && (ok || c != stepped[|stepped| - 1]) ==>
                Moved(c, old(c.p), old(c.prevPositions), iteration)
      ensures iteration % 4 != 0 ==> forall c :: c in old(bodies) ==> c.prevPositions == old(c.prevPositions)
      ensures G == 0.0 && ok && |bodies| == |old(bodies)| ==>
                bodies == old(bodies) && stepped == bodies && forall c :: c in bodies ==> Drifted(c)
      ensures forall c :: c in old(bodies) && c !in bodies ==>
                c in host && host[c] in stepped && AbsorbedBy(c, host[c], old(host[c].p))
    {
      OrderFacts(stepped, From(bodies, i), old(bodies));
      SubseqPrefix(stepped, From(bodies, i), old(bodies));
      Conclude(old(bodies), start, stepped, ok, iteration, ok && |bodies| == |old(bodies)| && G == 0.0);
      forall c | c in bodies
        ensures c.m >= 0.0 && c.rad == Radius(c.m)
      {
        assert InStart(c, old(bodies));
      }
      forall c | c in old(bodies) && c !in bodies
        ensures c in host && host[c] in stepped && AbsorbedBy(c, host[c], old(host[c].p))
      {
        assert InStart(c, old(bodies));
      }
      if !ok {
        var last := stepped[|stepped| - 1];
        assert last in bodies;
        assert !Separated(last, bodies);
        assert last.p == old(last.p);
      }
    }

    /**
     * `update_bodies`: visit the shared list by index, as Python's list
     * iterator does, while merges shrink it. stepped lists the bodies
     * visited, in the order of the starting list. Each visited body has
     * moved by its new velocity and, every 4th tick, pushed its truncated
     * new position onto its trail; a body that slides into an already
     * visited slot is not visited this tick and keeps all its state. The
     * tick stops at the first body whose force divides by zero: that body
     * has merged but not moved.
     */
    method UpdateBodies(iteration: int) returns (ok: bool, ghost stepped: seq<Body>, ghost host: map<Body, Body>)
      requires Valid()
      modifies this, bodies
      ensures Valid() && IsSubseq(bodies, old(bodies))
      ensures TotalMass(bodies) == old(TotalMass(bodies))
      ensures Distinct(stepped) && forall c :: c in stepped ==> c in old(bodies)
      ensures IsSubseq(stepped, old(bodies))
      ensures ok ==> |stepped| >= |bodies|
      ensures !ok ==> stepped != [] && stepped[|stepped| - 1] in old(bodies) && stepped[|stepped| - 1] in bodies &&
                      !Separated(stepped[|stepped| - 1], bodies) && Halted(stepped[|stepped| - 1])
      ensures forall c :: c in old(bodies) ==> c.m >= old(c.m)
      ensures forall c :: c in old(bodies) && c !in stepped ==> Untouched(c)
      ensures forall c :: c in stepped && (ok || c != stepped[|stepped| - 1]) ==>
                Moved(c, old(c.p), old(c.prevPositions), iteration)
      ensures iteration % 4 != 0 ==> forall c :: c in old(bodies) ==> c.prevPositions == old(c.prevPositions)
      ensures G == 0.0 && ok && |bodies| == |old(bodies)| ==>
                bodies == old(bodies) && stepped == bodies && forall c :: c in bodies ==> Drifted(c)
      ensures forall c :: c in old(bodies) && c !in bodies ==>
                c in host && host[c] in stepped && AbsorbedBy(c, host[c], old(host[c].p))
    {
      ok := true;
      stepped := [];
      ghost var start := map c | c in bodies :: SnapOf(c);
      ghost var mass := TotalMass(bodies);
      host := map[];
      var i := 0;
      SubseqRefl(bodies);
      assert [] + From(bodies, 0) == bodies;
      while ok && i < |bodies|
        invariant Progress(old(bodies), start, host, mass, stepped, i, ok, iteration)
        decreases |bodies| - i
      {
        var b := bodies[i];
        assert b in bodies;
        ok, host := Visit(b, i, iteration, stepped, old(bodies), start, host, mass);
        stepped := stepped + [b];
        i := i + 1;
      }
      Finish(start, host, mass, stepped, i, ok, iteration);
    }

    /**
     * `mouse_line`: a drag from start to end held for duration seconds
     * adds a planet at start (minus the pan offset) with velocity
     * 0.02 * (start - end), mass duration ** 3 and a trail of 20.
     */
    method MouseLine(start: (int, int), end: (int, int), duration: real, panOffset: (int, int))
      requires duration >= 0.0
      modifies this
      ensures |bodies| == |old(bodies)| + 1 && bodies[..|old(bodies)|] == old(bodies)
      ensures var nb := bodies[|bodies| - 1];
              fresh(nb) &&
              nb.p == Vec((start.0 - panOffset.0) as real, (start.1 - panOffset.1) as real) &&
              nb.v == Vec(0.02 * (start.0 - end.0) as real, 0.02 * (start.1 - end.1) as real) &&
              nb.m == duration * duration * duration && Newborn(nb) &&
              nb.trailSize == 20 && nb.shape == Planet
      ensures duration > 0.0 && old(Valid()) ==> Valid()
    {
      var vx := 0.02 * (start.0 - end.0) as real;
      var vy := 0.02 * (start.1 - end.1) as real;
      var mass := duration * duration * duration;
      var x := start.0 - panOffset.0;
      var y := start.1 - panOffset.1;
      var nb := new Body(x, y, mass, Vec(vx, vy), 20, Planet);
      if Distinct(bodies) {
        DistinctAppend(bodies, nb);
      }
      bodies := bodies + [nb];
    }

    /** Appending b to the list for a body not yet listed. */
    method Append(b: Body)
      requires Valid() && b !in bodies && b.m > 0.0 && b.rad == Radius(b.m)
      modifies this
      ensures bodies == old(bodies) + [b] && Valid()
    {
      DistinctAppend(bodies, b);
      bodies := bodies + [b];
    }

    /**
     * `Random_sim.generate_bodies`: nrParticles arrows, then nrPlanets
     * planets, at random integer positions inside [0, maxPos].
     */
    method GenerateRandom(nrPlanets: int, nrParticles: int, maxPos: (int, int))
      requires maxPos.0 >= 0 && maxPos.1 >= 0
      modifies this
      ensures Valid()
      ensures |bodies| == Max0(nrParticles) + Max0(nrPlanets)
      ensures forall k :: 0 <= k < Max0(nrParticles) ==> fresh(bodies[k]) && RandomArrow(bodies[k], maxPos)
      ensures forall k :: Max0(nrParticles) <= k < |bodies| ==> fresh(bodies[k]) && RandomPlanet(bodies[k], maxPos)
    {
      bodies := [];
      var i := 0;
      while i < nrParticles
        invariant 0 <= i <= Max0(nrParticles) && |bodies| == i && Valid()
        invariant forall k :: 0 <= k < |bodies| ==> fresh(bodies[k]) && RandomArrow(bodies[k], maxPos)
      {
        var b := NewArrow(maxPos);
        Append(b);
        i := i + 1;
      }
      var j := 0;
      while j < nrPlanets
        invariant 0 <= j <= Max0(nrPlanets) && |bodies| == Max0(nrParticles) + j && Valid()
        invariant forall k :: 0 <= k < Max0(nrParticles) ==> fresh(bodies[k]) && RandomArrow(bodies[k], maxPos)
        invariant forall k :: Max0(nrParticles) <= k < |bodies| ==> fresh(bodies[k]) && RandomPlanet(bodies[k], maxPos)
      {
        var b := NewRandomPlanet(maxPos);
        Append(b);
        j := j + 1;
      }
    }

    /**
     * `Solar_system.generate_bodies`: a sun of mass 30000 at the middle of
     * the screen, then nrPlanets planets, each sent off perpendicular to
     * its offset from (mid[0], mid[0]). ok is false where Python raises
     * (see OrbitalVelocity); culprit is then the planet being placed, drawn
     * on the screen like every other.
     */
    method GenerateSolarSystem(nrPlanets: int, maxPos: (int, int)) returns (ok: bool, ghost culprit: Body?)
      requires maxPos.0 >= 0 && maxPos.1 >= 0
      modifies this
      ensures G < 0.0 && nrPlanets > 0 ==> !ok
      ensures nrPlanets <= 0 ==> ok
      ensures !ok ==> culprit != null && fresh(culprit) && OnScreen(culprit, maxPos) &&
                      (G < 0.0 || SunOffset(maxPos, culprit.p) == Zero)
      ensures ok ==> Valid() && |bodies| == Max0(nrPlanets) + 1
      ensures ok ==> fresh(bodies[0]) && Sun(bodies[0], maxPos)
      ensures ok ==> forall k :: 1 <= k < |bodies| ==> fresh(bodies[k]) && SolarPlanet(bodies[k], maxPos)
    {
      var mid := (Trunc(maxPos.0 as real / 2.0), Trunc(maxPos.1 as real / 2.0));
      var sun := new Body(mid.0, mid.1, 30000.0, Zero, 50, Planet);
      assert Sun(sun, maxPos);
      bodies := [sun];
      culprit := null;
      var i := 0;
      while i < nrPlanets
        invariant 0 <= i <= Max0(nrPlanets) && |bodies| == i + 1 && Valid()
        invariant G < 0.0 ==> i == 0
        invariant bodies[0] == sun && fresh(sun) && Sun(sun, maxPos)
        invariant forall k :: 1 <= k < |bodies| ==> fresh(bodies[k]) && SolarPlanet(bodies[k], maxPos)
      {
        var placed, b := NewSolarPlanet(G, mid.0, bodies[0].m, maxPos);
        if !placed {
          return false, b;
        }
        Append(b);
        i := i + 1;
      }
      return true, null;
    }
  }

  /** One body of the first loop of `Random_sim.generate_bodies`. */
  method NewArrow(maxPos: (int, int)) returns (b: Body)
    requires maxPos.0 >= 0 && maxPos.1 >= 0
    ensures fresh(b) && RandomArrow(b, maxPos)
  {
    var x := RandInt(0, maxPos.0);
    var y := RandInt(0, maxPos.1);
    var mass := RandInt(1, 200);
    var vx := Uniform(-2.0, 2.0);
    var vy := Uniform(-2.0, 2.0);
    b := new Body(x, y, mass as real, Vec(vx, vy), 30, Arrow);
  }

  /** One body of the second loop of `Random_sim.generate_bodies`. */
  method NewRandomPlanet(maxPos: (int, int)) returns (b: Body)
    requires maxPos.0 >= 0 && maxPos.1 >= 0
    ensures fresh(b) && RandomPlanet(b, maxPos)
  {
    var x := RandInt(0, maxPos.0);
    var y := RandInt(0, maxPos.1);
    var mass := RandInt(200, 1000);
    var vx := Uniform(-1.0, 1.0);
    var vy := Uniform(-1.0, 1.0);
    b := new Body(x, y, mass as real, Vec(vx, vy), 200, Planet);
  }

  /**
   * One pass of the loop of `Solar_system.generate_bodies`, with mid0 the
   * sun's x and sunMass its mass; placed is false where Python raises.
   */
  method NewSolarPlanet(G: real, mid0: int, sunMass: real, maxPos: (int, int)) returns (placed: bool, b: Body)
    requires maxPos.0 >= 0 && maxPos.1 >= 0 && mid0 == Trunc(maxPos.0 as real / 2.0) && sunMass > 0.0
    ensures fresh(b) && OnScreen(b, maxPos) && Newborn(b)
    ensures placed <==> G >= 0.0 && SunOffset(maxPos, b.p) != Zero
    ensures placed ==> SolarPlanet(b, maxPos)
  {
    var x := RandInt(0, maxPos.0);
    var y := RandInt(0, maxPos.1);
    var mass := RandInt(1, 150);
    var velocity;
    placed, velocity := OrbitalVelocity(G, mid0, x, y, sunMass + mass as real);
    b := new Body(x, y, mass as real, velocity, 20, Planet);
  }

  /**
   * The velocity `Solar_system` gives a planet at (x, y) of the given
   * combined mass with the sun: the unit vector toward (mid0, mid0) turned
   * a quarter and scaled by 3.8 times the square root of G * combinedMass
   * over the square root of the distance. ok is false where Python
   * raises: a planet on that point divides by zero, and a negative G makes
   * the square root of a negative number.
   */
  method OrbitalVelocity(G: real, mid0: int, x: int, y: int, combinedMass: real) returns (ok: bool, velocity: Vec)
    requires combinedMass > 0.0
    ensures ok <==> G >= 0.0 && (x, y) != (mid0, mid0)
    ensures ok ==> Perpendicular(velocity, Vec((mid0 - x) as real, (mid0 - y) as real))
  {
    var disX := (mid0 - x) as real;
    var disY := (mid0 - y) as real;
    var dis2 := disX * disX + disY * disY;
    SquareNonzero(disX);
    SquareNonzero(disY);
    if dis2 == 0.0 {
      assert disX == 0.0 && disY == 0.0;
      return false, Zero;
    }
    var dis := Sqrt(dis2);
    var root := Sqrt(dis);
    var radicand := G * combinedMass / root;
    NegativeRadicand(G, combinedMass, root);
    if radicand < 0.0 {
      return false, Zero;
    }
    var speed := Sqrt(radicand);
    velocity := OrbitVelocity(3.8 * speed, disX, disY, dis);
    ok := true;
  }

  /** Body c has kept its position and trail since the pre-state. */
  twostate predicate Halted(c: Body)
    reads c
  {
    c.p == old(c.p) && c.prevPositions == old(c.prevPositions)
  }

  /** Nothing of body c has changed since the pre-state. */
  twostate predicate Untouched(c: Body)
    reads c
  {
    c.m == old(c.m) && c.p == old(c.p) && c.v == old(c.v) && c.f == old(c.f) &&
    c.rad == old(c.rad) && c.prevPositions == old(c.prevPositions)
  }

  /**
   * Host h, which stood at hp when it merged, has absorbed c: c lies within
   * merge distance of hp, measured with h's radius after the merge.
   */
  predicate AbsorbedBy(c: Body, h: Body, hp: Vec)
    reads c, h
  {
    c != h && Near(Dist2(hp, c.p), h.rad)
  }

  /**
   * Body c is one of the bodies a tick started with. This is `c in start`
   * under a name of its own, so that the quantifiers over those bodies in
   * Progress and the lemmas beside it have a term to trigger on.
   */
  predicate InStart(c: Body, start: seq<Body>)
  {
    c in start
  }

  /** The state of a body that a tick can change. */
  datatype Snap = Snap(m: real, p: Vec, v: Vec, f: Vec, rad: int, trail: seq<(int, int)>)

  /** Body c's current state. */
  function SnapOf(c: Body): Snap
    reads c
  {
    Snap(c.m, c.p, c.v, c.f, c.rad, c.prevPositions)
  }

  /**
   * What one tick of `update_bodies` has done so far to body c, which
   * started the tick in state s: its mass has not dropped and it is
   * untouched unless visited. A visited body that moved has moved by its
   * new velocity and, on every 4th tick only, pushed its truncated position
   * onto its trail; the one that failed has kept its position and trail.
   * When drifting (no gravity, no merge, no failure), a visited body has
   * kept its velocity and moved by it.
   */
  predicate Done(c: Body, s: Snap, visited: bool, moved: bool, iteration: int, drifting: bool)
    reads c
  {
    c.m >= s.m &&
    (iteration % 4 != 0 ==> c.prevPositions == s.trail) &&
    (!visited ==> SnapOf(c) == s) &&
    (visited && !moved ==> c.p == s.p && c.prevPositions == s.trail) &&
    (moved ==> Moved(c, s.p, s.trail, iteration)) &&
    (visited && drifting ==> c.v == s.v && c.p == Add(s.p, s.v)) &&
    (visited ==> c.m >= 0.0 && c.rad == Radius(c.m))
  }

  /**
   * A visit to b, which no body of prior is, keeps Done true of every
   * other body of xs, which it leaves unchanged, and makes it true of b.
   */
  twostate lemma DoneAfterVisit(new b: Body, xs: seq<Body>, new start: map<Body, Snap>, new prior: seq<Body>,
                                new ok: bool, new iteration: int, new drifting: bool, new wasDrifting: bool)
    requires b in xs && b in start && b !in prior && (drifting ==> wasDrifting)
    requires forall c {:trigger InStart(c, xs)} :: c in xs && InStart(c, xs) ==>
               c in start && start[c].m >= 0.0 && start[c].rad == Radius(start[c].m) &&
               old(Done(c, start[c], c in prior, c in prior, iteration, wasDrifting))
    requires forall c :: c in xs && c != b ==> SnapOf(c) == old(SnapOf(c))
    requires Done(b, start[b], true, ok, iteration, drifting)
    ensures forall c {:trigger InStart(c, xs)} :: c in xs && InStart(c, xs) ==>
              c in start && start[c].m >= 0.0 && start[c].rad == Radius(start[c].m) &&
              Done(c, start[c], c in prior + [b], c in prior + [b] && (ok || c != b), iteration, drifting)
  {
    forall c | c in xs && InStart(c, xs)
      ensures c in start && start[c].m >= 0.0 && start[c].rad == Radius(start[c].m) &&
              Done(c, start[c], c in prior + [b], c in prior + [b] && (ok || c != b), iteration, drifting)
    {
      if c != b {
        assert old(Done(c, start[c], c in prior, c in prior, iteration, wasDrifting));
      }
    }
  }

  /**
   * A visit to b, which no body of prior is, keeps a host for every body
   * of xs that an earlier visit absorbed, and makes b the host of each
   * body the list lost from before to after: every absorbed body lies
   * within merge distance of where its host stood when it merged.
   */
  twostate lemma AbsorbedAfterVisit(new b: Body, xs: seq<Body>, new start: map<Body, Snap>,
                                    new host: map<Body, Body>, new prior: seq<Body>, new before: seq<Body>,
                                    new after: seq<Body>)
    returns (host': map<Body, Body>)
    requires b in xs && b in start && b !in prior && b in before && old(b.p) == start[b].p
    requires forall c {:trigger InStart(c, xs)} :: c in xs && InStart(c, xs) && c !in before ==>
               c in host && host[c] in prior && host[c] in xs && host[c] in start &&
               old(AbsorbedBy(c, host[c], start[host[c]].p))
    requires forall c :: c in xs && c != b ==> SnapOf(c) == old(SnapOf(c))
    requires forall c :: c in before && c !in after ==> AbsorbedBy(c, b, old(b.p))
    ensures forall c {:trigger InStart(c, xs)} :: c in xs && InStart(c, xs) && c !in after ==>
              c in host' && host'[c] in prior + [b] && host'[c] in xs && host'[c] in start &&
              AbsorbedBy(c, host'[c], start[host'[c]].p)
  {
    var gone := set c | c in before && c !in after;
    host' := map c | c in host.Keys + gone :: if c in gone then b else host[c];
    forall c | c in xs && InStart(c, xs) && c !in after
      ensures c in host' && host'[c] in prior + [b] && host'[c] in xs && host'[c] in start &&
              AbsorbedBy(c, host'[c], start[host'[c]].p)
    {
      if c !in gone {
        var h := host[c];
        assert old(AbsorbedBy(c, h, start[h].p));
        assert SnapOf(c) == old(SnapOf(c)) && SnapOf(h) == old(SnapOf(h));
      }
    }
  }

  /**
   * What the tick has done to each body, read off from Done once the loop
   * is over; the last body visited is the one the tick stopped at, if it
   * stopped.
   */
  twostate lemma Conclude(bs: seq<Body>, new start: map<Body, Snap>, new stepped: seq<Body>,
                          new ok: bool, new iteration: int, new drifting: bool)
    requires forall c :: c in bs ==> c in start && start[c] == old(SnapOf(c))
    requires forall c :: c in stepped ==> c in bs
    requires !ok ==> stepped != []
    requires forall c {:trigger InStart(c, bs)} :: InStart(c, bs) ==>
               c in start &&
               Done(c, start[c], c in stepped, c in stepped && (ok || c != stepped[|stepped| - 1]), iteration, drifting)
    ensures forall c :: c in bs ==> c.m >= old(c.m)
    ensures forall c :: c in bs && c !in stepped ==> Untouched(c)
    ensures forall c :: c in stepped && (ok || c != stepped[|stepped| - 1]) ==>
              Moved(c, old(c.p), old(c.prevPositions), iteration)
    ensures !ok ==> stepped[|stepped| - 1] in bs &&
                    var last := stepped[|stepped| - 1];
                    last.p == old(last.p) && last.prevPositions == old(last.prevPositions)
    ensures iteration % 4 != 0 ==> forall c :: c in bs ==> c.prevPositions == old(c.prevPositions)
    ensures drifting ==> forall c :: c in stepped ==> Drifted(c)
  {
    forall c | c in bs
      ensures c.m >= old(c.m)
      ensures c !in stepped ==> Untouched(c)
      ensures iteration % 4 != 0 ==> c.prevPositions == old(c.prevPositions)
    {
      assert InStart(c, bs);
    }
    forall c | c in stepped && (ok || c != stepped[|stepped| - 1])
      ensures Moved(c, old(c.p), old(c.prevPositions), iteration)
    {
      assert InStart(c, bs);
    }
    if !ok {
      var last := stepped[|stepped| - 1];
      assert last in stepped;
      assert InStart(last, bs);
    }
    forall c | c in stepped && drifting
      ensures Drifted(c)
    {
      assert InStart(c, bs);
    }
  }

  /**
   * Body c has taken its step from position p0 and trail trail0: it moved
   * by its (new) velocity and, on every 4th tick only, pushed its truncated
   * new position onto the trail.
   */
  predicate Moved(c: Body, p0: Vec, trail0: seq<(int, int)>, iteration: int)
    reads c
  {
    c.p == Add(p0, c.v) &&
    c.prevPositions == if iteration % 4 == 0
                       then Pushed(trail0, (Trunc(c.p.x), Trunc(c.p.y)), c.trailSize)
                       else trail0
  }

  /** Body c has kept its velocity and moved by exactly it, once. */
  twostate predicate Drifted(c: Body)
    reads c
  {
    c.v == old(c.v) && c.p == Add(old(c.p), old(c.v))
  }

  /** The sun `Solar_system` puts at the middle of the screen. */
  predicate Sun(c: Body, maxPos: (int, int))
    reads c
  {
    c.p == Vec(Trunc(maxPos.0 as real / 2.0) as real, Trunc(maxPos.1 as real / 2.0) as real) &&
    c.m == 30000.0 && Newborn(c) && c.v == Zero && c.trailSize == 50 && c.shape == Planet
  }

  /**
   * A planet of `Solar_system`: off the point (mid[0], mid[0]) and moving
   * at right angles to its offset from it.
   */
  predicate SolarPlanet(c: Body, maxPos: (int, int))
    reads c
  {
    OnScreen(c, maxPos) && Newborn(c) && 1.0 <= c.m <= 150.0 && c.trailSize == 20 &&
    c.shape == Planet && SunOffset(maxPos, c.p) != Zero && Perpendicular(c.v, SunOffset(maxPos, c.p))
  }

  function Max0(n: int): nat { if n < 0 then 0 else n }

  /** `(mid[0] - x, mid[0] - y)`: the offset Solar_system aims perpendicular to. */
  function SunOffset(maxPos: (int, int), p: Vec): Vec
  {
    var mid0 := Trunc(maxPos.0 as real / 2.0) as real;
    Vec(mid0 - p.x, mid0 - p.y)
  }

  predicate Perpendicular(a: Vec, b: Vec)
  {
    a.x * b.x + a.y * b.y == 0.0
  }

  /**
   * `math.sqrt` of a non-negative float: some value that is positive for a
   * positive argument; which one is not modelled.
   */
  method Sqrt(x: real) returns (r: real)
    requires x >= 0.0
    ensures r >= 0.0 && (x > 0.0 ==> r > 0.0)
  {
    assert SqrtBound(x, 1.0);
    r :| SqrtBound(x, r);
    assert SqrtBound(x, r);
  }

  /** A negative G over positive mass and distance gives a negative radicand. */
  lemma NegativeRadicand(g: real, mass: real, root: real)
    requires mass > 0.0 && root > 0.0
    ensures g * mass / root < 0.0 <==> g < 0.0
  {
    if g < 0.0 {
      assert g * mass < 0.0;
    } else {
      assert g * mass >= 0.0;
    }
  }

  predicate SqrtBound(x: real, r: real) { r >= 0.0 && (x > 0.0 ==> r > 0.0) }

  /**
   * The planet's velocity: the unit vector (dx, dy) / d toward the sun,
   * turned a quarter, (x, y) to (y, -x), and scaled by k.
   */
  function OrbitVelocity(k: real, dx: real, dy: real, d: real): (v: Vec)
    requires d != 0.0
    ensures Perpendicular(v, Vec(dx, dy))
  {
    var sunNormalizedX, sunNormalizedY := dx / d, dy / d;
    TurnedQuarter(k, dx, dy, d);
    Vec(k * sunNormalizedY, k * -sunNormalizedX)
  }

  /** Scaling (dy/d, -dx/d) by any k gives a vector perpendicular to (dx, dy). */
  lemma TurnedQuarter(k: real, dx: real, dy: real, d: real)
    requires d != 0.0
    ensures Perpendicular(Vec(k * (dy / d), k * -(dx / d)), Vec(dx, dy))
  {
    var a, b := dx / d, dy / d;
    assert k * b * dx == k * (b * dx);
    assert k * -a * dy == -(k * (a * dy));
    assert b * dx == a * dy by {
      assert b * dx * d == dy * dx;
      assert a * dy * d == dx * dy;
    }
  }
}
