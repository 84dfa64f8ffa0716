# N-body simulation: a Dafny model of the physics core

This project models the physics engine of a small n-body toy: point masses that attract each other,
merge when they come close, and leave a bounded trail behind them.

- `Body` (Particle.py) becomes the class `Particles.Body`. Its fields are a mass `m`, a position `p`,
  a velocity `v`, a net force `f`, an integer radius `rad` and a trail `prevPositions`.
  Its methods update these fields in place:
  - `UpdateForce`: net force from every other body;
  - `UpdateVelocity`, `UpdatePosition`: one explicit Euler step;
  - `Merge`: inelastic absorption of nearby bodies, which also shrinks the shared list;
  - `Bounce`: reflection at the walls;
  - `UpdateTrail`: a bounded FIFO of truncated positions.
- The simulation object (Simulations.py) becomes the class `Simulations.NBody`.
  - It owns the list of bodies as `bodies: seq<Body>` and the gravitational constant `G`.
  - `UpdateBodies` is the per-tick driver.
  - `MouseLine` adds a body from a mouse drag.
  - The two scenarios, `Random_sim` and `Solar_system`, are its methods `GenerateRandom` and
    `GenerateSolarSystem`.
- The colour helpers (Color.py) are the module `Colors`: the rejection samplers `RandomVibrant` and
  `RandomDull`, and the linear gradient `ColorGradient.GetColor`.

Arithmetic is over exact reals. The model follows these pieces of the code's behaviour:

- The force is `G·m_a·m_b·(x_b−x_a)/r²`. Its displacement is not normalised, so two bodies of mass 10
  that are 10 apart (with G = 1) pull with 10, not 1 (`Particles.PullTwoTens`).
- `int()` truncates toward zero (`Numeric.Trunc`). The radius and the trail entries use it; nothing
  rounds.
- A zero distance in `update_force` divides by zero. The model reports it as `ok == false` before
  `f` is written, and the driver stops there.
- Both list loops (`merge`, `update_bodies`) walk the live list by index while entries are removed
  from it, as Python's list iterator does. The entry that slides into a visited slot is skipped in
  that pass (`Particles.MergePass`).
- In the merge test, `distance < 0.8·rad` is compared as `distance² < (0.8·rad)²`. `Body.Merge`
  requires `rad ≥ 1`, which every body has (its radius is the radius of its mass, at least 1, from construction on), so both
  sides are non-negative and the two tests agree.
- Later bodies in a tick see the already-moved positions of earlier ones: `UpdateBodies` runs the
  whole per-body sequence on one body before going to the next.
- `Solar_system` aims each planet's velocity perpendicular to its offset from `(mid[0], mid[0])`,
  not from the sun at `(mid[0], mid[1])`. The model keeps this (`Simulations.SunOffset`).
- `bounce` is defined but never called by the driver, so `UpdateBodies` does not call `Bounce`.

Several contracts below are stated against reference definitions that follow the source line by
line: `Particles.Pull` is one term of the force sum (Particle.py:32-37), `Particles.NetForceAt` the
whole sum over the list (Particle.py:27-38), `Particles.MergedVelocity` the momentum-weighted
velocity of a merge (Particle.py:62-64), `Particles.Near` the merge-distance test
(Particle.py:60-61), `Particles.MergePass` the loop of `merge` over the live list
(Particle.py:56-67) and `Colors.Lerp` one channel of the gradient (Color.py:60-62).

## Model

| member | source | states |
|---|---|---|
| Numeric.Trunc | Particle.py:93 | `int()` of a float: the result is the integer toward zero within 1 of the input, below it for x ≥ 0 and above it for x < 0 |
| Numeric.Dist2 | Particle.py:60 | the squared distance the force and the merge test use is never negative |
| Numeric.FloorCbrt | Particle.py:15 | the cube root of the mass truncated to an integer: the largest n with n³ ≤ m |
| Numeric.FloorCbrtMonotone | Particle.py:66 | a larger mass never has a smaller integer cube root |
| Particles.Radius | Particle.py:15 | a body's radius is at least 1 |
| Particles.RadiusMonotone | Particle.py:66 | the radius never decreases as the mass grows |
| Particles.PullAntisymmetric | Particle.py:32-37 | the term b contributes to a's force is exactly the negation of the term a contributes to b's |
| Particles.PullTwoTens | Particle.py:32-37 | masses 10 and 10, 10 apart, G = 1: the pull is (10, 0), because the displacement is not normalised |
| Particles.Absorb | Particle.py:65-66 | after an absorption the radius is at least 1 |
| Particles.AbsorbRadius | Particle.py:65-66 | after an absorption the radius is at least the radius of either body before it |
| Particles.MergedVelocityMomentum | Particle.py:62-65 | the merged velocity carries the momentum of both bodies: (m_a+m_b)·v' = m_a·v_a + m_b·v_b |
| Particles.MergedVelocityHeadOn | Particle.py:62-64 | masses 10 and 10 at velocities (2,0) and (−2,0) merge to a body at rest |
| Particles.MergePassSkipsNext | Particle.py:56-67 | with self first and two bodies a, c after it, both within merge distance: the pass absorbs a, removes it at the visited index, and then skips c, which has slid into that index, so the list comes back as [self, c] |
| Particles.OthersMassRemove | Particle.py:67 | removing a body other than self from the list takes exactly its mass out of the others' mass |
| Particles.OthersMomentumRemove | Particle.py:67 | removing a body other than self from the list takes exactly its momentum out of the others' momentum |
| Particles.MergePassConservesMass | Particle.py:56-67 | a merge pass keeps self's mass plus the other bodies' mass unchanged |
| Particles.MergePassConservesMomentum | Particle.py:56-67 | a merge pass keeps self's momentum plus the other bodies' momentum unchanged |
| Particles.MergePassShape | Particle.py:56-67 | a pass only removes bodies: survivors keep their order, self is never removed, self's mass never shrinks, and a pass that removes nothing changes nothing |
| Particles.MergePassNoneNear | Particle.py:56-61 | if no visited body is within merge distance, the pass absorbs nothing |
| Particles.MergePassRadius | Particle.py:65-66 | self's radius stays the radius of its mass, so it only grows during a pass |
| Particles.MergePassRemovedNear | Particle.py:56-67 | every removed body is not self and is within merge distance of self's final radius |
| Particles.Reflect | Particle.py:74-85 | one axis of bounce: a coordinate inside [0, bound] is unchanged; one in (bound, 2·bound] becomes 2·bound − x and one below 0 becomes −x, with the velocity negated in both; past 2·bound both reflections fire; the result lies in [0, bound] for −bound ≤ x ≤ 2·bound |
| Particles.ReflectPastWall | Particle.py:74-76 | 5 past the wall at 100 with speed 3 comes back to 95 with speed −3 |
| Particles.Pushed | Particle.py:93-95 | a trail update puts the new entry last; a trail within its capacity stays within it, and a full one keeps its length |
| Particles.PushAllWindow | Particle.py:87-95 | after any number of updates a trail within its capacity holds exactly the newest min(length, capacity) positions, in order |
| Particles.TrailKeepsNewest | Particle.py:87-95 | after at least capacity updates the trail is exactly the last capacity positions |
| Particles.Body.constructor | Particle.py:10-20 | a new body has the given mass, position and velocity, a zero force, radius Radius(mass) ≥ 1, and a trail holding just its start position |
| Particles.Body.UpdateForce | Particle.py:22-38 | succeeds exactly when no other body coincides with this one; then f is the sum over every other body of its pull, and nothing else changes; on failure f is untouched |
| Particles.Body.UpdateVelocity | Particle.py:40-42 | v gains f/m componentwise; nothing else changes |
| Particles.Body.UpdatePosition | Particle.py:44-46 | p gains v componentwise; nothing else changes |
| Particles.Body.Merge | Particle.py:48-67 | for a list without repeats and a radius of at least 1, the list returned and the new mass, radius and momentum are those of the merge pass MergePass over the list, run from the body's starting state |
| Particles.Body.Bounce | Particle.py:69-85 | each axis of position and velocity is reflected as Reflect states, independently of the other |
| Particles.Body.UpdateTrail | Particle.py:87-95 | the trail becomes Pushed with the truncated current position |
| Particles.Body.Advance | Simulations.py:26-30 | force, velocity, position and every 4th tick the trail: succeeds exactly when no other body coincides with this one; then f is the net force of the list on the body, v becomes the old velocity plus f/m, p gains the new v, and on the 4th tick the trail is pushed with the truncated new position; with G = 0 the velocity is unchanged; a failure leaves force, velocity, position and trail as they were, and off-ticks leave the trail alone |
| Particles.NetForceZeroGravity | Particle.py:36-38 | with G = 0 the net force is zero |
| Particles.PullsOntoReaction | Particle.py:33-37 | what the other bodies pull on c cancels c's own net force |
| Particles.TotalForceExtend | Particle.py:28-38 | adding a body c at the end of the list adds c's pull on every other body to their total force |
| Particles.TotalForceZero | Particle.py:22-38 | Newton's third law: when no two bodies coincide, the forces `update_force` gives all bodies of the list, from the same positions, sum to zero |
| Simulations.TotalMassSplit | Particle.py:57 | a body listed once contributes its own mass plus the others' mass to the total |
| Simulations.RandInt | Simulations.py:70 | `randint(lo, hi)` returns an integer in [lo, hi] |
| Simulations.Uniform | Simulations.py:74 | `uniform(lo, hi)` returns a real in [lo, hi] |
| Simulations.NBody.constructor | Simulations.py:15-16 | the simulation keeps G and starts with no bodies |
| Simulations.NBody.MergeBody | Simulations.py:25 | the new list and the body's mass, radius and momentum are exactly those of the merge pass over the list from the body's starting state; the list stays distinct, keeps the body and only loses entries (in order); the total mass is kept, the body's mass never shrinks, and removing nothing leaves the list and the velocity unchanged; the body keeps the radius of its mass; every body the list lost is another body, within merge distance of this one measured with its final radius |
| Simulations.NBody.UpdateBody | Simulations.py:24-30 | one body's full step: first the merge pass exactly as MergeBody; then it succeeds exactly when no body of the merged list sits at the body's position, and on success the force is the net force of the merged list at that position (the other bodies where they are now, so ones moved earlier in the tick count at their new positions), the velocity is the merged velocity plus f/m, the position gains that velocity, and every 4th tick the trail is pushed with the truncated new position; on failure the body has merged but keeps its position, force and trail; every body the list lost lies within merge distance of where the body stood before it moved, measured with its new radius, which is the radius of its new mass |
| Simulations.NBody.UpdateBodies | Simulations.py:18-30 | visits the live list by index: stepped lists the bodies visited, without repeats and in the order of the starting list; when the tick runs through, no fewer bodies were visited than remain; each visited body except a failing last one has moved by its new velocity (p = old p + v) and, on every 4th tick only, pushed its truncated new position onto its trail; the failing body coincides with another and keeps its position and trail; every body of the starting list that was not visited (one that slid into a visited slot after a removal, or was absorbed first) keeps all of its state; the list only loses entries (in order), keeps its total mass and keeps every body at the radius of its mass; no mass shrinks; for each body the tick removed, host names a visited body that absorbed it: the removed body lies within merge distance of where its host stood at the start of the tick (its host had not moved before it merged), measured with the host's radius after the tick; off the 4th tick no trail changes; with G = 0 and no merge every body is visited once, in order, keeps its velocity and moves by it |
| Simulations.NBody.MouseLine | Simulations.py:41-53 | appends exactly one new body, leaving the others in place: velocity 0.02·(start − end), mass duration³, position start − pan offset, trail size 20, no force, the radius of its mass and a trail holding just its position |
| Simulations.NBody.Append | Simulations.py:53 | appending a body not yet listed, of positive mass and with the radius of its mass, keeps the list distinct, every mass positive and every radius the radius of its mass |
| Simulations.NBody.GenerateRandom | Simulations.py:67-87 | nr_particles + nr_planets new bodies at integer positions in [0, max_pos], each with no force, the radius of its mass and a trail holding just its position: first the arrows with mass in [1, 200], speed components in [−2, 2] and trail 30, then the planets with mass in [200, 1000], speed components in [−1, 1] and trail 200 |
| Simulations.NewArrow | Simulations.py:69-77 | one arrow as Random_sim makes it |
| Simulations.NewRandomPlanet | Simulations.py:79-87 | one planet as Random_sim makes it |
| Simulations.NBody.GenerateSolarSystem | Simulations.py:104-144 | with no planets to place it succeeds; a negative G with any planet fails; a failure names the new planet being placed, drawn on the screen, and unless G is negative it sits exactly on (mid[0], mid[0]); on success, nr_planets + 1 new bodies: the sun of mass 30000 at rest at mid, then planets of mass in [1, 150] off (mid[0], mid[0]) and moving perpendicular to their offset from it |
| Simulations.NewSolarPlanet | Simulations.py:115-144 | draws one new planet on screen with no force, the radius of its mass and its position as trail; it is placed exactly when G ≥ 0 and it is off (mid[0], mid[0]), and then it moves perpendicular to its offset from that point |
| Simulations.OrbitalVelocity | Simulations.py:122-135 | succeeds exactly when G ≥ 0 and the planet is not on (mid[0], mid[0]) (Python divides by the zero distance there, and takes the square root of a negative number for G < 0); the velocity is then perpendicular to the offset |
| Simulations.Sqrt | Simulations.py:124 | `sqrt` of a non-negative value is non-negative, and positive for a positive argument |
| Simulations.OrbitVelocity | Simulations.py:125-135 | the unit offset turned a quarter and scaled is perpendicular to the offset |
| Simulations.TurnedQuarter | Simulations.py:129-130 | (dy/d, −dx/d) scaled by any k is perpendicular to (dx, dy) |
| Colors.RandomVibrant | Color.py:15-24 | returns the first draw whose pairwise channel distances sum to more than 200; a result has three distinct channels in 0..255; if none is returned, no draw qualified |
| Colors.RandomDull | Color.py:26-36 | returns the first draw with distance sum in (80, 200) and channel sum in (200, 500); a result has three distinct channels in 0..255; if none is returned, no draw qualified |
| Colors.ColorGradient.GetColor | Color.py:52-63 | partition 0 gives c1 exactly, partition parts gives c2 exactly |
| Colors.LerpEnds | Color.py:60-62 | one channel equals the first colour's at partition 0 and the second's at partition parts |
| Colors.LerpBetween | Color.py:60-62 | for 0 ≤ part ≤ parts a channel lies between the two end channels |
| Colors.GetColorBetween | Color.py:52-63 | for 0 ≤ part ≤ parts every channel of the result lies between the corresponding channels of c1 and c2 |
| Colors.GetColorChannelwise | Color.py:57-62 | each output channel depends only on that channel of c1 and c2 |

## Left out

- Main.py and Ticker.py are not part of this model. They hold the pygame window, event loop, panning, mouse handling, on-screen text and wall-clock timing.
- Drawing is left out: `draw_trail`, `draw_line`, `Arrow.draw`, `Planet.draw`, `N_Body.draw` and the empty `gradient_particle`. Arrow, Planet and Particle only differ in drawing, so they are a `Shape` tag on `Body`.
- The rendering fields `color`, `trail_color` and `thickness` are left out, and so is the choice of colour in the scenario builders; they feed only the drawing.
- Floating point is not modelled: all arithmetic is exact over `real`.
- Numeric.FloorCbrt: computes the exact integer cube root. In IEEE doubles `mass ** (1/3)` falls just below the integer at perfect cubes such as 64 (3.9999999999999996), 125, 216, 343, 512, 729 and 1000, so `int()` gives one less there. At those masses the model's radius is one larger than Python's (4 instead of 3 at 64), the merge distance 0.8·rad is larger with it (3.2 instead of 2.4), and `Near`, `MergePass` and every merge decision built on them can absorb a body Python leaves alone. `randint` draws such masses: 64 and 125 for arrows, 216 to 1000 for planets.
- Simulations.Sqrt: `sqrt` is a nondeterministic value that is only known to be non-negative, and positive for a positive argument. So the planets' speed is not modelled, only their direction.
- Simulations.RandInt, Simulations.Uniform: `randint`, `uniform` and `sample` are nondeterministic choices in their ranges. Their distributions are not modelled.
- Colors.RandomVibrant, Colors.RandomDull: the source loops until a draw is accepted. The model reads the draws from a finite stream and returns `None` if none was accepted, so it does not model the loop's nontermination when no sample ever qualifies.
- Particles.Body.constructor: requires a non-negative mass. A negative mass has a complex cube root in Python, and `int()` of it raises. The first trail entry is the start position itself because every caller passes integers.
- Particles.Body.UpdateForce: Python raises ZeroDivisionError when another body coincides with this one. The model returns `ok == false` instead, and the driver stops the tick there.
- Particles.Body.Merge: requires this body and the others to have positive mass (the source divides by `m_a + m_b`), a radius of at least 1 (every body has one; it keeps the squared merge test equal to Python's), and a list without repeats. Each absorbed entry is removed at the visited index; `list.remove` removes the first equal entry, which is the same one only when the list never holds a body twice, as the driver's list never does.
- Simulations.NBody.UpdateBodies: requires every body to have positive mass and the radius of its mass (every constructed body has one, and merging keeps it). A body added by `MouseLine` with duration 0 has mass 0, and Python then divides by zero in `update_velocity`. The G = 0 property is stated for a tick in which nothing merges (the body count is unchanged), tick by tick; the multi-tick loop lives in Main.py. The loop ends at the first failure, where Python's ZeroDivisionError ends the tick. For each visited body the contract states the move and the trail push, but not the force and merged velocity behind the new velocity: those depend on the list as it stood when that body was visited, which the tick-level contract does not name; `UpdateBody` states them for one visit. For the same reason the tick-level contract gives each visited body's new mass only as a bound (it never shrinks, and the total is kept), not as its own mass plus the masses it absorbed, and it does not say that every body within merge distance of a host is absorbed: which ones are depends on the order of the pass and the radius at each step, which `MergePass` states.
- Simulations.NBody.constructor: `N_Body.__init__` leaves `bodies` unset until a scenario fills it. The model starts with the empty list.
- Simulations.NBody.GenerateRandom, Simulations.NBody.GenerateSolarSystem: require non-negative screen sizes; `randint(0, n)` raises for n < 0.
- Simulations.NBody.GenerateSolarSystem: the sun's position list `mid` is shared with the sun object in Python. The model copies it, since nothing changes it during generation.
- Aliasing of position and velocity lists between bodies is not modelled: each body's vectors are values.
