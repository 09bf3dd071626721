/**
 * The state of a universe and what one call of each operation in
 * sources/universe.c does to it, as functions on values.
 *
 * Every pass over the particle array is written the way the C loop runs it:
 * index by index, each index seeing the array as the earlier indices left it,
 * and stopping at the first failure. A failed call in C returns NULL but keeps
 * whatever it had already written, so every pass yields an `Outcome` that
 * carries the state it reached whether it completed or aborted.
 */
module Model {
  import opened Vec3d

  /** t_particle: a label, mass, charge and the four vectors of the integrator. */
  datatype Particle = Particle(
    element: string,
    mass: real,
    charge: real,
    pos: Vec3,
    spd: Vec3,
    acc: Vec3,
    frc: Vec3)

  /**
   * The constants of a universe (c_grav, c_elec, c_time) and the two helpers
   * whose code is not part of this model: the vector magnitude and the
   * Lennard-Jones term, which receives the two particle records.
   */
  datatype Laws = Laws(
    cGrav: real,
    cElec: real,
    cTime: real,
    mag: Vec3 -> real,
    lj: (Particle, Particle) -> real)

  /** The parts of t_universe that the engine changes. */
  datatype State = State(particles: seq<Particle>, iterations: nat, time: real)

  /** The state a pass reached, and whether it completed or stopped on a failure. */
  datatype Outcome<S> = Completed(state: S) | Aborted(state: S)

  /** The record particle_init leaves behind. */
  function Blank(): Particle
  {
    Particle("??", 1.0, 0.0, Zero, Zero, Zero, Zero)
  }

  /** q is p with, at most, a different force. */
  predicate SameButFrc(p: Particle, q: Particle)
  {
    q == p.(frc := q.frc)
  }

  /** Two arrays of particles that differ at most in their forces. */
  predicate AllSameButFrc(ps: seq<Particle>, qs: seq<Particle>)
  {
    |ps| == |qs| && forall j :: 0 <= j < |ps| ==> SameButFrc(ps[j], qs[j])
  }

  // ---------------------------------------------------------------------------
  // particle_update_frc

  /**
   * The sum of the gravitational, Coulomb and Lennard-Jones scalars that
   * particle_update_frc computes for a pair of masses m1, m2 and charges
   * q1, q2 at distance dst, given the Lennard-Jones value lj of the pair.
   */
  function PairScalar(law: Laws, m1: real, q1: real, m2: real, q2: real, lj: real, dst: real): real
    requires dst != 0.0
  {
    var frcGrav := law.cGrav * m1 * m2 / (dst * dst);
    var frcElec := law.cElec * q1 * q2 / (dst * dst);
    frcGrav + frcElec + lj
  }

  /**
   * The force one pass of the inner loop of particle_update_frc writes for the
   * pair (cur, other): the unit vector from cur to other scaled by PairScalar.
   * It fails when the magnitude of the separation is negative or zero.
   */
  function PairForce(cur: Particle, other: Particle, law: Laws): (r: Option<Vec3>)
    ensures r.None? <==> law.mag(Sub(other.pos, cur.pos)) <= 0.0
  {
    var temp := Sub(other.pos, cur.pos);
    var dst := law.mag(temp);
    if dst < 0.0 then None
    else match Unit(law.mag, temp)
      case None => None
      case Some(e) =>
        Some(Scale(e, PairScalar(law, cur.mass, cur.charge, other.mass, other.charge, law.lj(cur, other), dst)))
  }

  /**
   * The inner loop of particle_update_frc for particle i, from index j on,
   * when the force field of particle i currently holds f. Each pair overwrites
   * the force; the result is the force left in place.
   */
  function FrcScan(ps: seq<Particle>, i: nat, j: nat, f: Vec3, law: Laws): Outcome<Vec3>
    requires i < |ps| && j <= |ps|
    decreases |ps| - j
  {
    if j == |ps| then Completed(f)
    else if j == i then FrcScan(ps, i, j + 1, f, law)
    else match PairForce(ps[i].(frc := f), ps[j], law)
      case None => Aborted(f)
      case Some(g) => FrcScan(ps, i, j + 1, g, law)
  }

  /** particle_update_frc(universe, i) on the particles ps. */
  function Force(ps: seq<Particle>, i: nat, law: Laws): Outcome<Vec3>
    requires i < |ps|
  {
    FrcScan(ps, i, 0, ps[i].frc, law)
  }

  // ---------------------------------------------------------------------------
  // particle_update_acc, particle_update_spd, particle_update_pos

  /** particle_update_acc: the acceleration becomes force over mass; fails on zero mass. */
  function AccStep(p: Particle): (r: Option<Particle>)
    ensures r.None? <==> p.mass == 0.0
    ensures r.Some? ==> r.value == p.(acc := r.value.acc) && Scale(r.value.acc, p.mass) == p.frc
  {
    match Div(p.frc, p.mass)
    case None => None
    case Some(a) => Some(p.(acc := a))
  }

  /** particle_update_spd: the velocity gains acceleration times the time step. */
  function SpdStep(p: Particle, dt: real): Particle
  {
    p.(spd := Add(p.spd, Scale(p.acc, dt)))
  }

  /** particle_update_pos: the position gains velocity times the time step. */
  function PosStep(p: Particle, dt: real): Particle
  {
    p.(pos := Add(p.pos, Scale(p.spd, dt)))
  }

  // ---------------------------------------------------------------------------
  // The four passes of universe_iterate, from index k on

  /** The force pass: particle_update_frc on k, k+1, ..., stopping at the first failure. */
  function ForcePass(ps: seq<Particle>, k: nat, law: Laws): (r: Outcome<seq<Particle>>)
    requires k <= |ps|
    ensures AllSameButFrc(ps, r.state)
    ensures forall j :: 0 <= j < k ==> r.state[j] == ps[j]
    decreases |ps| - k
  {
    if k == |ps| then Completed(ps)
    else
      var o := Force(ps, k, law);
      var t := ps[k := ps[k].(frc := o.state)];
      if o.Aborted? then Aborted(t) else ForcePass(t, k + 1, law)
  }

  /** The acceleration pass: particle_update_acc on k, k+1, ..., stopping at the first zero mass. */
  function AccPass(ps: seq<Particle>, k: nat): (r: Outcome<seq<Particle>>)
    requires k <= |ps|
    ensures |r.state| == |ps|
    ensures r.Completed? <==> forall j :: k <= j < |ps| ==> ps[j].mass != 0.0
    ensures r.Completed? ==> forall j :: 0 <= j < |ps| ==>
      if j < k then r.state[j] == ps[j] else AccStep(ps[j]) == Some(r.state[j])
    decreases |ps| - k
  {
    if k == |ps| then Completed(ps)
    else match AccStep(ps[k])
      case None => Aborted(ps)
      case Some(p) =>
        assert forall j :: k < j < |ps| ==> ps[k := p][j] == ps[j];
        AccPass(ps[k := p], k + 1)
  }

  /** The velocity pass: particle_update_spd on k, k+1, ... */
  function SpdPass(ps: seq<Particle>, k: nat, dt: real): (r: seq<Particle>)
    requires k <= |ps|
    ensures |r| == |ps|
    ensures forall j :: 0 <= j < |ps| ==> r[j] == if j < k then ps[j] else SpdStep(ps[j], dt)
    decreases |ps| - k
  {
    if k == |ps| then ps else SpdPass(ps[k := SpdStep(ps[k], dt)], k + 1, dt)
  }

  /** The position pass: particle_update_pos on k, k+1, ... */
  function PosPass(ps: seq<Particle>, k: nat, dt: real): (r: seq<Particle>)
    requires k <= |ps|
    ensures |r| == |ps|
    ensures forall j :: 0 <= j < |ps| ==> r[j] == if j < k then ps[j] else PosStep(ps[j], dt)
    decreases |ps| - k
  {
    if k == |ps| then ps else PosPass(ps[k := PosStep(ps[k], dt)], k + 1, dt)
  }

  // ---------------------------------------------------------------------------
  // universe_iterate and universe_simulate

  /**
   * universe_iterate: the four passes in order, each over the whole array,
   * then one more iteration on the counter. A failing pass stops the step with
   * the counter untouched and the particles as that pass left them.
   */
  function Step(s: State, law: Laws): (r: Outcome<State>)
    ensures |r.state.particles| == |s.particles| && r.state.time == s.time
    ensures r.state.iterations == if r.Completed? then s.iterations + 1 else s.iterations
  {
    match ForcePass(s.particles, 0, law)
    case Aborted(f) => Aborted(s.(particles := f))
    case Completed(f) =>
      match AccPass(f, 0)
      case Aborted(a) => Aborted(s.(particles := a))
      case Completed(a) =>
        var v := SpdPass(a, 0, law.cTime);
        Completed(State(PosPass(v, 0, law.cTime), s.iterations + 1, s.time))
  }

  /** The least integer not below x. */
  function Ceil(x: real): int
  {
    -((-x).Floor)
  }

  /** How many passes of the loop in universe_simulate remain from time t. */
  function StepsLeft(t: real, maxTime: real, dt: real): (n: nat)
    requires 0.0 < dt
    ensures n == 0 <==> maxTime <= t
  {
    if maxTime <= t then 0 else Ceil((maxTime - t) / dt)
  }

  lemma DivShift(a: real, d: real)
    requires 0.0 < d
    ensures (a - d) / d == a / d - 1.0
  {
    assert (a - d) / d == a / d - d / d;
  }

  /** One pass of the time loop takes one step off the passes left. */
  lemma StepsLeftDecreases(t: real, maxTime: real, dt: real)
    requires 0.0 < dt && t < maxTime
    ensures StepsLeft(t + dt, maxTime, dt) == StepsLeft(t, maxTime, dt) - 1
  {
    var x := (maxTime - t) / dt;
    DivShift(maxTime - t, dt);
    assert (maxTime - (t + dt)) / dt == x - 1.0;
    assert 0.0 < x;
    if maxTime <= t + dt {
      assert x <= 1.0;
    }
  }

  /**
   * The passes left from time t are the fewest steps of length dt that carry
   * the clock from t to maxTime or beyond: one step fewer stays below maxTime.
   */
  lemma StepsLeftIsLeast(t: real, maxTime: real, dt: real)
    requires 0.0 < dt && t < maxTime
    ensures maxTime <= t + (StepsLeft(t, maxTime, dt) as real) * dt
    ensures t + ((StepsLeft(t, maxTime, dt) - 1) as real) * dt < maxTime
  {
    var x := (maxTime - t) / dt;
    var n := StepsLeft(t, maxTime, dt);
    assert (n - 1) as real < x <= n as real;
    assert x * dt == maxTime - t;
    assert x * dt <= (n as real) * dt;
    assert ((n - 1) as real) * dt < x * dt;
    assert ((n - 1) as real) * dt < maxTime - t;
  }

  /**
   * universe_simulate: while the time is below maxTime, iterate, record the
   * state, and advance the time by one step; the first failure of either ends
   * the run. `record` says whether universe_printstate succeeds on a state.
   */
  function Simulation(s: State, maxTime: real, law: Laws, record: State -> bool): (r: Outcome<State>)
    requires 0.0 < law.cTime
    ensures r.Completed? ==> maxTime <= r.state.time
    ensures r.Aborted? ==> r.state.time < maxTime
    decreases StepsLeft(s.time, maxTime, law.cTime)
  {
    if maxTime <= s.time then Completed(s)
    else match Step(s, law)
      case Aborted(t) => Aborted(t)
      case Completed(t) =>
        if !record(t) then Aborted(t)
        else
          StepsLeftDecreases(s.time, maxTime, law.cTime);
          Simulation(t.(time := t.time + law.cTime), maxTime, law, record)
  }
}
