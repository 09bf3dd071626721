# SENPAI universe engine, modelled in Dafny

This project models the simulation step engine of SENPAI (`sources/universe.c`).
A `t_universe` holds an array of particles and the physical constants `c_grav`,
`c_elec` and `c_time`. Each particle has a label, a mass, a charge, and a position,
velocity (`spd`), acceleration and force vector. The universe also holds an
iteration counter and a simulated clock. One `universe_iterate` runs four passes
over the array, each finishing before the next starts, then bumps the counter:

1. force, `particle_update_frc`
2. acceleration, `particle_update_acc`
3. velocity, `particle_update_spd`
4. position, `particle_update_pos`

`universe_simulate` repeats iterate, record, then `time += c_time` until the clock
reaches `max_time`. The operations that return `t_universe *` report failure by
returning NULL and keep whatever they had already written; `universe_simulate`
returns `EXIT_FAILURE` on the first such failure and `EXIT_SUCCESS` otherwise;
`particle_init` has no failure path.

The project has four modules:

- `Vec3d` (`vec3d.dfy`): 3-vectors of reals. Holds the vector helpers the engine calls: subtraction, addition, scaling, division and unit vector. The magnitude is supplied from outside.
- `Model` (`model.dfy`): the particle record, the universe state as a value, and one function per operation. Each pass is written as the C loop runs it: index by index, stopping at the first failure. It yields an `Outcome` (`Completed` or `Aborted`), which carries the state reached in either case.
- `Engine` (`engine.dfy`): class `Universe`, which holds the particle array and the counter and clock fields. Its methods update the array in place with the loops of the C code. Each method's postcondition ties its result and new state to the function of `Model` that describes the same call.
- `Properties` (`properties.dfy`): what the engine guarantees, proved about those functions:
  - failure conditions
  - the overwrite behaviour of the force loop
  - phase order and the semi-implicit Euler update
  - the closed-form motion of a lone particle
  - the number of steps the time loop performs

The square-root magnitude and the Lennard-Jones term have no code in this model. They are parameters of the universe. Two predicates state what some lemmas assume of them:

- `IsNorm(mag)`: the magnitude is non-negative, zero only on the zero vector, symmetric, and positively homogeneous.
- `ForceBlind(lj)`: the Lennard-Jones term does not read the force fields.

## Model

| member | source | states |
|---|---|---|
| Engine.Universe.constructor | sources/universe.c:54-57 | the universe holds the given particle records, the three constants, iteration counter 0 (line 27) and clock 0.0 |
| Engine.Universe.ParticleInit | sources/universe.c:172-183 | particle i becomes the default record: zero position, velocity, acceleration and force, element "??", mass 1.0, charge 0.0; every other particle is unchanged and the call always succeeds |
| Engine.Universe.UpdateFrc | sources/universe.c:185-220 | the loop over every other particle leaves in the force of particle part_id exactly what `Force` gives on the array before the call; it succeeds iff `Force` completes; only that force field changes, also on failure |
| Engine.Universe.UpdateAcc | sources/universe.c:222-231 | succeeds iff the mass is non-zero; then only the acceleration of part_id changes, to force / mass (`AccStep`); on failure nothing changes |
| Engine.Universe.UpdateSpd | sources/universe.c:233-245 | only the velocity of part_id changes, gaining acceleration * c_time |
| Engine.Universe.UpdatePos | sources/universe.c:247-259 | only the position of part_id changes, gaining velocity * c_time |
| Engine.Universe.Iterate | sources/universe.c:103-123 | the four in-place loops produce exactly the state `Step` gives for the state before the call, and succeed iff it completes |
| Engine.Universe.Simulate | sources/universe.c:125-136 | the time loop produces exactly the state `Simulation` gives, and succeeds iff it completes; with exact reals it terminates for c_time > 0 |
| Vec3d.Add | sources/universe.c:241 | vec3d_add: componentwise sum; its definition is the specification |
| Vec3d.Sub | sources/universe.c:201 | `Sub(a, b)` is the vector that, added to b, gives a |
| Vec3d.Scale | sources/universe.c:239 | vec3d_mul: every component times k; its definition is the specification |
| Vec3d.Div | sources/universe.c:227 | division fails iff the divisor is zero; otherwise the quotient times the divisor gives back the vector |
| Vec3d.Unit | sources/universe.c:207 | the unit vector fails iff the magnitude is zero; otherwise it times the magnitude gives back the vector |
| Vec3d.UnitHasNormOne | sources/universe.c:204-208 | with a true norm, a non-zero separation has a unit vector, and it has magnitude one |
| Vec3d.UnitAntisymmetric | sources/universe.c:201-208 | the direction from a to b is the opposite of the direction from b to a |
| Model.Blank | sources/universe.c:172-183 | the record particle_init leaves: zero vectors, element "??", mass 1.0, charge 0.0; its definition is the specification |
| Model.PairScalar | sources/universe.c:210-212 | the gravitational c_grav·m1·m2/dst² plus Coulomb c_elec·q1·q2/dst² plus Lennard-Jones scalar of one pair; its definition is the specification |
| Model.PairForce | sources/universe.c:201-215 | one pair's force fails iff the magnitude of the separation is <= 0 |
| Model.FrcScan | sources/universe.c:196-216 | the inner loop of particle_update_frc from index j on, each other particle overwriting the force; its definition is the specification, characterised by `Properties.FrcScanAbortsIff` and `Properties.FrcScanLastPair` |
| Model.Force | sources/universe.c:185-220 | particle_update_frc on particle i: the inner loop from index 0 with the particle's current force; `Engine.Universe.UpdateFrc` is proved against it |
| Model.SpdStep | sources/universe.c:233-245 | particle_update_spd on one record: velocity + acceleration · c_time, nothing else changed; its definition is the specification |
| Model.PosStep | sources/universe.c:247-259 | particle_update_pos on one record: position + velocity · c_time, nothing else changed; its definition is the specification |
| Model.AccStep | sources/universe.c:222-231 | fails iff the mass is zero; otherwise only the acceleration changes, and acceleration * mass = force |
| Model.ForcePass | sources/universe.c:108-110 | the force pass changes nothing but force fields, and leaves the particles before its start index untouched |
| Model.AccPass | sources/universe.c:111-113 | the acceleration pass completes iff every remaining particle has non-zero mass; then each remaining particle is its `AccStep` and the earlier ones are untouched |
| Model.SpdPass | sources/universe.c:114-116 | every remaining particle gets its velocity update; the earlier ones are untouched |
| Model.PosPass | sources/universe.c:117-119 | every remaining particle gets its position update; the earlier ones are untouched |
| Model.Step | sources/universe.c:103-123 | a step keeps the number of particles and the clock; the counter gains 1 on success and is unchanged on failure |
| Model.StepsLeft | sources/universe.c:127 | no pass of the time loop is left iff time >= max_time |
| Model.StepsLeftDecreases | sources/universe.c:127-133 | each pass of the time loop takes exactly one pass off the passes left |
| Model.StepsLeftIsLeast | sources/universe.c:127-133 | the passes left are the fewest steps of c_time that carry the clock from time to max_time |
| Model.Simulation | sources/universe.c:125-136 | a completed run ends with time >= max_time; an aborted run stopped with time < max_time (when it completes is stated by `Properties.SimulationCompletesIff`) |
| Properties.FrcScanAbortsIff | sources/universe.c:196-216 | the inner force loop fails iff it meets another particle at separation magnitude <= 0 |
| Properties.ForceFailsIffCoincident | sources/universe.c:201-208 | with a true norm, particle_update_frc fails iff another particle sits at the same position |
| Properties.PairForceBlind | sources/universe.c:210-214 | a pair's force does not depend on either particle's force field |
| Properties.PairForceAlongSeparation | sources/universe.c:201-214 | a successful pair force lies along the separation from the subject to the source: times the distance it is the separation times grav + elec + lj, and the distance is positive |
| Properties.PairForceMagnitude | sources/universe.c:204-214 | with a true norm, a successful pair force has magnitude abs(grav + elec + lj) |
| Properties.FrcScanLastPair | sources/universe.c:196-216 | the inner loop's result is the force of the last other pair it visits, or its starting force when it visits none |
| Properties.ForceIsLastPair | sources/universe.c:196-219 | the force overwrites rather than accumulates: a completed call leaves only the pair force of the last index other than part_id; with one particle or none it keeps the old force |
| Properties.ForceWithoutPairs | sources/universe.c:196-198 | with one particle or none, particle_update_frc succeeds and leaves the force as it was |
| Properties.FrcScanBlind | sources/universe.c:196-216 | the inner loop gives the same outcome on two arrays that differ only in force fields |
| Properties.ForcePassUsesStartSnapshot | sources/universe.c:108-110 | every force of a completed force pass is what particle_update_frc gives on the array as it was when the pass began, though earlier forces were already overwritten |
| Properties.ForcePassAbortsIff | sources/universe.c:108-110 | with a true norm, the force pass fails iff a particle it still has to visit has a coincident partner |
| Properties.ForcePassWithoutPairs | sources/universe.c:108-110 | with one particle or none, the force pass succeeds and changes nothing |
| Properties.IterateIsSemiImplicitEuler | sources/universe.c:103-123 | for every particle, a completed step applies four things in phase order. The force is computed from the positions at the start of the step. Acceleration = force / mass. The velocity gains acceleration * c_time. The position gains the new velocity * c_time. Label, mass and charge stay |
| Properties.IterateFailsIff | sources/universe.c:108-113 | with a true norm, universe_iterate fails iff two particles coincide or some particle has zero mass |
| Properties.Iterated | sources/universe.c:103-123 | k calls of universe_iterate, the first failure ending them; its definition is the specification |
| Properties.IteratedComposes | sources/universe.c:103-123 | k1 + k2 iterations are k1 iterations followed by k2, the first failure ending them |
| Properties.LoneStep | sources/universe.c:103-123 | a lone particle of non-zero mass takes one acceleration, velocity and position update per step and never fails |
| Properties.AxisStep | sources/universe.c:233-259 | one velocity-then-position update along one axis moves the constant-acceleration closed form from step k to step k + 1 |
| Properties.VecStep | sources/universe.c:233-259 | the same for vectors |
| Properties.CoastStep | sources/universe.c:222-259 | one more step takes a lone particle's closed form at step k to its closed form at step k + 1 |
| Properties.LoneParticleUniformAcceleration | sources/universe.c:103-123 | after k steps a lone particle of non-zero mass has velocity v0 + a·k·dt and position x0 + v0·k·dt + a·dt²·k(k+1)/2, with a = force / mass, and the counter gained k |
| Properties.BlankStaysAtRest | sources/universe.c:172-183 | a default particle alone in its universe never moves, and every step succeeds |
| Properties.StepIgnoresTime | sources/universe.c:103-123 | universe_iterate neither reads nor changes the clock |
| Properties.IteratedIgnoresTime | sources/universe.c:103-123 | k calls of universe_iterate neither read nor change the clock |
| Properties.IteratedPrefix | sources/universe.c:103-123 | if k calls of universe_iterate in a row complete, so does every shorter run of them |
| Properties.IteratedAfterStep | sources/universe.c:103-123 | n calls of universe_iterate are one successful call followed by n - 1 more |
| Properties.SimulationIsIterated | sources/universe.c:125-136 | a completed run ends with exactly the particles and counter of StepsLeft calls of universe_iterate on its start state; recording and the clock change nothing else |
| Properties.SimulationSteps | sources/universe.c:125-136 | a completed run performs exactly as many iterations as passes were left and ends that many steps of c_time later, with the same number of particles; a failed run performed no more |
| Properties.SimulationCompletesIff | sources/universe.c:125-136 | universe_simulate returns EXIT_SUCCESS iff, for every pass k from 1 to StepsLeft, k calls of universe_iterate complete and universe_printstate accepts their state with the clock at time + (k - 1)·c_time; one failed iterate or one failed record makes it fail |
| Properties.SimulationCompletesIffIterated | sources/universe.c:125-136 | when recording always succeeds, as the C universe_printstate does, universe_simulate succeeds iff StepsLeft calls of universe_iterate in a row complete |
| Properties.SimulationFromStart | sources/universe.c:125-136 | from time 0 with max_time > 0, and with exact reals, the number of passes is ceil(max_time / c_time), the fewest steps reaching max_time; a completed run ends in the state of exactly that many calls of universe_iterate, with the clock at that many steps |

## Left out

- `universe_init` is not modelled beyond its result. It counts lines, allocates, opens the per-particle output files, parses the input with `fscanf`, and converts mass from atomic mass units and position from picometres. The constructor takes the already-parsed particle records. Its only other effects are the constants, the counter set to 0 and the clock set to 0.0.
- `universe_printstate` is file output. `Simulate` and `Simulation` take it as a parameter `record` that says whether writing the state succeeds. As written, the C function always succeeds.
- `universe_clean` is not modelled. It only closes files and frees memory.
- The logging done by `retstr`/`retstri` is not modelled. A failure is the `false` result of a method, or the `Aborted` outcome of a function.
- `vec3d_mag` and `lennardjones` have no code in this model, and the vector library and `lennard-jones.h` are not part of it. Both are functions given to the universe. Lemmas that need their behaviour take `IsNorm(mag)` or `ForceBlind(lj)` as a hypothesis.
- `vec3d_unit` is modelled as the vector divided by its magnitude, which fails when the magnitude is zero.
- `vec3d_sub`, `vec3d_add` and `vec3d_mul` are modelled as always succeeding. The engine's NULL checks on them are never taken.
- Doubles are modelled as exact reals, so floating-point rounding, overflow, infinities and NaN are not captured. A distance whose square underflows to 0 is not captured either.
- The iteration counter is an unbounded natural number. The wrap-around of the 64-bit counter is not modelled.
- Engine.Universe.Simulate: requires c_time > 0. With c_time <= 0 and time < max_time, the C loop never ends unless an operation fails, and that divergence is not modelled. Termination and the pass count are statements about exact reals. With doubles, the C loop also never ends when c_time is below half an ulp of time, because `time += c_time` then leaves time unchanged. Rounding can also make the C pass count differ from ceil((max_time - time) / c_time): ten additions of 0.1 to 0.0 stay below 1.0, so c_time = 0.1 and max_time = 1.0 give 11 passes, not 10.
- Model.Simulation: requires c_time > 0, for the same reason; the number of passes left is its termination measure. Like `Simulate`, it advances an exact real clock. The double-precision cases above are not captured: a clock that stops advancing for a tiny c_time, and a pass count shifted by rounding.
- The force of `particle_update_frc` is modelled as written: each other particle overwrites it. A pairwise sum of the contributions would be the physical reading, and the code does not compute one. `Properties.ForceIsLastPair` states what the code computes.
