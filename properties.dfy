/**
 * What the engine of sources/universe.c guarantees, stated over the functions
 * of module Model that its methods are proved against.
 *
 * Two hypotheses describe the code this model does not contain: `IsNorm`
 * (the vector magnitude behaves as a norm) and `ForceBlind` (the
 * Lennard-Jones term does not look at the force fields of the two records it
 * is given). Each lemma takes only the ones it needs.
 */
module Properties {
  import opened Vec3d
  import opened Model

  /** lj gives the same value for records that differ only in their forces. */
  ghost predicate ForceBlind(lj: (Particle, Particle) -> real)
  {
    forall a, b, c, d :: SameButFrc(a, c) && SameButFrc(b, d) ==> lj(a, b) == lj(c, d)
  }

  /** Some two distinct particles sit at the same position. */
  ghost predicate HasCoincidentPair(ps: seq<Particle>)
  {
    exists i, j :: 0 <= i < |ps| && 0 <= j < |ps| && i != j && ps[i].pos == ps[j].pos
  }

  /** Some particle has zero mass. */
  ghost predicate HasMassless(ps: seq<Particle>)
  {
    exists j :: 0 <= j < |ps| && ps[j].mass == 0.0
  }

  /** The largest index below n other than i, or a negative number when there is none. */
  function LastOther(i: nat, n: nat): int
  {
    if n - 1 != i then n - 1 else n - 2
  }

  // ---------------------------------------------------------------------------
  // particle_update_frc

  /** The inner loop stops exactly when it meets another particle at magnitude <= 0. */
  lemma {:induction false} FrcScanAbortsIff(ps: seq<Particle>, i: nat, j: nat, f: Vec3, law: Laws)
    requires i < |ps| && j <= |ps|
    ensures FrcScan(ps, i, j, f, law).Aborted?
        <==> exists m :: j <= m < |ps| && m != i && law.mag(Sub(ps[m].pos, ps[i].pos)) <= 0.0
    decreases |ps| - j
  {
    if j < |ps| {
      if j == i {
        FrcScanAbortsIff(ps, i, j + 1, f, law);
      } else {
        match PairForce(ps[i].(frc := f), ps[j], law)
        case None =>
        case Some(g) => FrcScanAbortsIff(ps, i, j + 1, g, law);
      }
    }
  }

  /** With a true magnitude, particle_update_frc fails exactly when another particle coincides with i. */
  lemma ForceFailsIffCoincident(ps: seq<Particle>, i: nat, law: Laws)
    requires IsNorm(law.mag) && i < |ps|
    ensures Force(ps, i, law).Aborted? <==> exists j :: 0 <= j < |ps| && j != i && ps[j].pos == ps[i].pos
  {
    FrcScanAbortsIff(ps, i, 0, ps[i].frc, law);
    forall j | 0 <= j < |ps|
      ensures law.mag(Sub(ps[j].pos, ps[i].pos)) <= 0.0 <==> ps[j].pos == ps[i].pos
    {
      var d := Sub(ps[j].pos, ps[i].pos);
      assert d == Zero ==> ps[j].pos == Add(ps[i].pos, Zero) == ps[i].pos;
    }
  }

  /** With a force-blind Lennard-Jones term, the pair force ignores both force fields. */
  lemma PairForceBlind(a: Particle, b: Particle, c: Particle, d: Particle, law: Laws)
    requires ForceBlind(law.lj) && SameButFrc(a, c) && SameButFrc(b, d)
    ensures PairForce(a, b, law) == PairForce(c, d, law)
  {
    assert a.pos == c.pos && b.pos == d.pos;
    assert a.mass == c.mass && a.charge == c.charge && b.mass == d.mass && b.charge == d.charge;
    assert law.lj(a, b) == law.lj(c, d);
  }

  /**
   * A successful pair force points along the separation from cur to other:
   * scaled by the distance it is the separation scaled by the sum of the
   * gravitational, Coulomb and Lennard-Jones scalars.
   */
  lemma PairForceAlongSeparation(cur: Particle, other: Particle, law: Laws)
    requires PairForce(cur, other, law).Some?
    ensures var d := Sub(other.pos, cur.pos);
      var dst := law.mag(d);
      && dst > 0.0
      && Scale(PairForce(cur, other, law).value, dst)
         == Scale(d, PairScalar(law, cur.mass, cur.charge, other.mass, other.charge, law.lj(cur, other), dst))
  {
    var d := Sub(other.pos, cur.pos);
    var dst := law.mag(d);
    var k := PairScalar(law, cur.mass, cur.charge, other.mass, other.charge, law.lj(cur, other), dst);
    var e := Unit(law.mag, d).value;
    assert PairForce(cur, other, law).value == Scale(e, k);
    ScaleCommutes(e, k, dst);
  }

  /**
   * With a true norm, a successful pair force is a unit vector scaled by the
   * scalar sum, so its magnitude is the absolute value of that sum.
   */
  lemma PairForceMagnitude(cur: Particle, other: Particle, law: Laws)
    requires IsNorm(law.mag) && PairForce(cur, other, law).Some?
    ensures var dst := law.mag(Sub(other.pos, cur.pos));
      var k := PairScalar(law, cur.mass, cur.charge, other.mass, other.charge, law.lj(cur, other), dst);
      law.mag(PairForce(cur, other, law).value) == if k < 0.0 then -k else k
  {
    var d := Sub(other.pos, cur.pos);
    var dst := law.mag(d);
    var k := PairScalar(law, cur.mass, cur.charge, other.mass, other.charge, law.lj(cur, other), dst);
    var e := Unit(law.mag, d).value;
    assert PairForce(cur, other, law).value == Scale(e, k);
    assert d != Zero;
    UnitHasNormOne(law.mag, d);
    if k < 0.0 {
      assert Scale(e, k) == Neg(Scale(e, -k));
      assert law.mag(Scale(e, -k)) == -k * law.mag(e);
    } else {
      assert law.mag(Scale(e, k)) == k * law.mag(e);
    }
  }

  lemma {:induction false} FrcScanLastPair(ps: seq<Particle>, i: nat, j: nat, f: Vec3, law: Laws)
    requires ForceBlind(law.lj) && i < |ps| && j <= |ps|
    ensures match FrcScan(ps, i, j, f, law)
      case Aborted(_) => true
      case Completed(g) =>
        if LastOther(i, |ps|) < j then g == f
        else PairForce(ps[i], ps[LastOther(i, |ps|)], law) == Some(g)
    decreases |ps| - j
  {
    if j < |ps| {
      if j == i {
        FrcScanLastPair(ps, i, j + 1, f, law);
      } else {
        PairForceBlind(ps[i].(frc := f), ps[j], ps[i], ps[j], law);
        match PairForce(ps[i].(frc := f), ps[j], law)
        case None =>
        case Some(g) => FrcScanLastPair(ps, i, j + 1, g, law);
      }
    }
  }

  /**
   * particle_update_frc overwrites the force for every other particle, so a
   * completed call leaves the force of the LAST other particle only; with no
   * other particle the force keeps its old value.
   */
  lemma ForceIsLastPair(ps: seq<Particle>, i: nat, law: Laws)
    requires ForceBlind(law.lj) && i < |ps|
    ensures match Force(ps, i, law)
      case Aborted(_) => true
      case Completed(g) =>
        if |ps| <= 1 then g == ps[i].frc
        else PairForce(ps[i], ps[LastOther(i, |ps|)], law) == Some(g)
  {
    FrcScanLastPair(ps, i, 0, ps[i].frc, law);
  }

  /** With one particle or none, particle_update_frc never fails and changes nothing. */
  lemma ForceWithoutPairs(ps: seq<Particle>, i: nat, law: Laws)
    requires i < |ps| <= 1
    ensures Force(ps, i, law) == Completed(ps[i].frc)
  {
    assert FrcScan(ps, i, 1, ps[i].frc, law) == Completed(ps[i].frc);
  }

  // ---------------------------------------------------------------------------
  // The force pass of universe_iterate

  /** Scanning two arrays that differ only in forces gives the same outcome. */
  lemma {:induction false} FrcScanBlind(a: seq<Particle>, b: seq<Particle>, i: nat, j: nat, f: Vec3, law: Laws)
    requires ForceBlind(law.lj) && AllSameButFrc(a, b) && i < |a| && j <= |a|
    ensures FrcScan(a, i, j, f, law) == FrcScan(b, i, j, f, law)
    decreases |a| - j
  {
    if j < |a| {
      if j == i {
        FrcScanBlind(a, b, i, j + 1, f, law);
      } else {
        assert SameButFrc(a[i], b[i]) && SameButFrc(a[j], b[j]);
        PairForceBlind(a[i].(frc := f), a[j], b[i].(frc := f), b[j], law);
        match PairForce(a[i].(frc := f), a[j], law)
        case None =>
        case Some(g) => FrcScanBlind(a, b, i, j + 1, g, law);
      }
    }
  }

  /**
   * The force pass computes every particle's force from the array as it was
   * when the pass began, although earlier particles' forces have already been
   * overwritten: s is the array after k calls of a pass started on ps.
   */
  lemma {:induction false} ForcePassUsesStartSnapshot(ps: seq<Particle>, s: seq<Particle>, k: nat, law: Laws)
    requires ForceBlind(law.lj) && k <= |s| && AllSameButFrc(ps, s)
    requires forall j :: k <= j < |s| ==> s[j] == ps[j]
    ensures match ForcePass(s, k, law)
      case Aborted(_) => true
      case Completed(r) => forall j :: k <= j < |ps| ==> Force(ps, j, law) == Completed(r[j].frc)
    decreases |s| - k
  {
    if k < |s| {
      var o := Force(s, k, law);
      FrcScanBlind(s, ps, k, 0, s[k].frc, law);
      var t := s[k := s[k].(frc := o.state)];
      if o.Completed? {
        ForcePassUsesStartSnapshot(ps, t, k + 1, law);
      }
    }
  }

  /** The force pass stops exactly when one of the particles it has left has a coincident partner. */
  lemma {:induction false} ForcePassAbortsIff(s: seq<Particle>, k: nat, law: Laws)
    requires IsNorm(law.mag) && k <= |s|
    ensures ForcePass(s, k, law).Aborted?
        <==> exists i, j :: k <= i < |s| && 0 <= j < |s| && i != j && s[i].pos == s[j].pos
    decreases |s| - k
  {
    if k < |s| {
      var o := Force(s, k, law);
      ForceFailsIffCoincident(s, k, law);
      var t := s[k := s[k].(frc := o.state)];
      if o.Completed? {
        ForcePassAbortsIff(t, k + 1, law);
        assert forall j :: 0 <= j < |s| ==> t[j].pos == s[j].pos;
      }
    }
  }

  /** With one particle or none, the force pass is a no-op that cannot fail. */
  lemma ForcePassWithoutPairs(ps: seq<Particle>, law: Laws)
    requires |ps| <= 1
    ensures ForcePass(ps, 0, law) == Completed(ps)
  {
    if |ps| == 1 {
      ForceWithoutPairs(ps, 0, law);
      assert ps[0 := ps[0].(frc := ps[0].frc)] == ps;
    }
  }

  // ---------------------------------------------------------------------------
  // universe_iterate

  /** After the acceleration pass the velocity and position updates of q from p. */
  ghost predicate SemiImplicitEuler(p: Particle, q: Particle, dt: real)
  {
    && q.element == p.element && q.mass == p.mass && q.charge == p.charge
    && p.mass != 0.0 && Scale(q.acc, p.mass) == q.frc
    && q.spd == Add(p.spd, Scale(q.acc, dt))
    && q.pos == Add(p.pos, Scale(q.spd, dt))
  }

  /**
   * A completed step is a semi-implicit Euler step for every particle: the
   * force is what particle_update_frc gives on the positions at the start of
   * the step, acceleration = force / mass, the velocity gains acceleration *
   * c_time, and the position gains the NEW velocity * c_time.
   */
  lemma IterateIsSemiImplicitEuler(s: State, law: Laws)
    requires ForceBlind(law.lj)
    ensures match Step(s, law)
      case Aborted(_) => true
      case Completed(t) =>
        forall j :: 0 <= j < |s.particles| ==>
          && Force(s.particles, j, law) == Completed(t.particles[j].frc)
          && SemiImplicitEuler(s.particles[j], t.particles[j], law.cTime)
  {
    var ps := s.particles;
    ForcePassUsesStartSnapshot(ps, ps, 0, law);
    match ForcePass(ps, 0, law)
    case Aborted(_) =>
    case Completed(f) =>
      match AccPass(f, 0)
      case Aborted(_) =>
      case Completed(a) =>
        var v := SpdPass(a, 0, law.cTime);
        var x := PosPass(v, 0, law.cTime);
        forall j | 0 <= j < |ps|
          ensures Force(ps, j, law) == Completed(x[j].frc)
          ensures SemiImplicitEuler(ps[j], x[j], law.cTime)
        {
          assert SameButFrc(ps[j], f[j]);
          assert AccStep(f[j]) == Some(a[j]);
          assert v[j] == SpdStep(a[j], law.cTime);
          assert x[j] == PosStep(v[j], law.cTime);
        }
  }

  /**
   * With a true magnitude, universe_iterate fails exactly when two particles
   * coincide or some particle has zero mass.
   */
  lemma IterateFailsIff(s: State, law: Laws)
    requires IsNorm(law.mag)
    ensures Step(s, law).Aborted? <==> HasCoincidentPair(s.particles) || HasMassless(s.particles)
  {
    var ps := s.particles;
    ForcePassAbortsIff(ps, 0, law);
    match ForcePass(ps, 0, law)
    case Aborted(_) =>
    case Completed(f) =>
      assert forall j :: 0 <= j < |ps| ==> f[j].mass == ps[j].mass;
  }

  /** k calls of universe_iterate, the first failure ending them. */
  function Iterated(s: State, law: Laws, k: nat): Outcome<State>
  {
    if k == 0 then Completed(s)
    else match Iterated(s, law, k - 1)
      case Aborted(t) => Aborted(t)
      case Completed(t) => Step(t, law)
  }

  /** k1 + k2 steps are k1 steps followed by k2 steps. */
  lemma {:induction false} IteratedComposes(s: State, law: Laws, k1: nat, k2: nat)
    ensures Iterated(s, law, k1 + k2) == match Iterated(s, law, k1)
      case Aborted(t) => Aborted(t)
      case Completed(t) => Iterated(t, law, k2)
  {
    if k2 > 0 {
      IteratedComposes(s, law, k1, k2 - 1);
      match Iterated(s, law, k1)
      case Aborted(t) =>
        assert Iterated(s, law, k1 + k2 - 1) == Aborted(t);
      case Completed(t) =>
        assert Iterated(s, law, k1 + k2 - 1) == Iterated(t, law, k2 - 1);
    }
  }

  /**
   * A lone particle of non-zero mass after k steps: its force never changes,
   * so it moves under the constant acceleration a = force / mass, with the
   * velocity v0 + a*k*dt and the position x0 + v0*k*dt + a*dt*dt*k*(k+1)/2
   * of semi-implicit Euler.
   */
  function Coast(p: Particle, dt: real, k: nat): Particle
    requires p.mass != 0.0
  {
    var a := Div(p.frc, p.mass).value;
    p.(acc := if k == 0 then p.acc else a, spd := SpdAt(p.spd, a, k, dt), pos := PosAt(p.pos, p.spd, a, k, dt))
  }

  /** Velocity after k steps from v under constant acceleration a. */
  function SpdAt(v: Vec3, a: Vec3, k: nat, dt: real): Vec3
  {
    Vec3(Reached(v.x, a.x, k, dt), Reached(v.y, a.y, k, dt), Reached(v.z, a.z, k, dt))
  }

  /** Position after k steps from x with initial velocity v under constant acceleration a. */
  function PosAt(x: Vec3, v: Vec3, a: Vec3, k: nat, dt: real): Vec3
  {
    Vec3(Travelled(x.x, v.x, a.x, k, dt), Travelled(x.y, v.y, a.y, k, dt), Travelled(x.z, v.z, a.z, k, dt))
  }

  /** Velocity along one axis after k steps under constant acceleration a. */
  function Reached(v: real, a: real, k: nat, dt: real): real
  {
    v + a * ((k as real) * dt)
  }

  /** Position along one axis after k semi-implicit Euler steps under constant acceleration a. */
  function Travelled(x: real, v: real, a: real, k: nat, dt: real): real
  {
    x + v * ((k as real) * dt) + a * (dt * dt * ((k as real) * (k as real + 1.0) / 2.0))
  }

  lemma LoneStep(p: Particle, law: Laws, it: nat, tm: real)
    requires p.mass != 0.0
    ensures Step(State([p], it, tm), law)
         == Completed(State([PosStep(SpdStep(AccStep(p).value, law.cTime), law.cTime)], it + 1, tm))
  {
    ForcePassWithoutPairs([p], law);
    var q := AccStep(p).value;
    assert AccPass([p], 0) == Completed([q]) by {
      assert [p][0 := q] == [q];
    }
    var v := SpdStep(q, law.cTime);
    assert SpdPass([q], 0, law.cTime) == [v] by {
      assert [q][0 := v] == [v];
    }
    assert PosPass([v], 0, law.cTime) == [PosStep(v, law.cTime)] by {
      assert [v][0 := PosStep(v, law.cTime)] == [PosStep(v, law.cTime)];
    }
  }

  lemma PolyStep(x: real, v: real, a: real, K: real, dt: real)
    ensures (v + a * (K * dt)) + a * dt == v + a * ((K + 1.0) * dt)
    ensures (x + v * (K * dt) + a * (dt * dt * (K * (K + 1.0) / 2.0))) + ((v + a * (K * dt)) + a * dt) * dt
         == x + v * ((K + 1.0) * dt) + a * (dt * dt * ((K + 1.0) * ((K + 1.0) + 1.0) / 2.0))
  {
  }

  /**
   * One semi-implicit Euler step along one axis (velocity first, then the
   * position with the new velocity) moves the closed form from k to k + 1.
   */
  lemma AxisStep(x: real, v: real, a: real, k: nat, dt: real)
    ensures Reached(v, a, k, dt) + a * dt == Reached(v, a, k + 1, dt)
    ensures Travelled(x, v, a, k, dt) + Reached(v, a, k + 1, dt) * dt == Travelled(x, v, a, k + 1, dt)
  {
    var K := k as real;
    assert (k + 1) as real == K + 1.0;
    PolyStep(x, v, a, K, dt);
    assert Reached(v, a, k + 1, dt) == (v + a * (K * dt)) + a * dt;
  }

  /** One semi-implicit Euler step moves the vector closed form from k to k + 1. */
  lemma VecStep(x: Vec3, v: Vec3, a: Vec3, k: nat, dt: real)
    ensures Add(SpdAt(v, a, k, dt), Scale(a, dt)) == SpdAt(v, a, k + 1, dt)
    ensures Add(PosAt(x, v, a, k, dt), Scale(SpdAt(v, a, k + 1, dt), dt)) == PosAt(x, v, a, k + 1, dt)
  {
    AxisStep(x.x, v.x, a.x, k, dt);
    AxisStep(x.y, v.y, a.y, k, dt);
    AxisStep(x.z, v.z, a.z, k, dt);
    var w := SpdAt(v, a, k + 1, dt);
    assert w == Vec3(Reached(v.x, a.x, k + 1, dt), Reached(v.y, a.y, k + 1, dt), Reached(v.z, a.z, k + 1, dt));
    var l := Add(PosAt(x, v, a, k, dt), Scale(w, dt));
    assert l.x == Travelled(x.x, v.x, a.x, k, dt) + Reached(v.x, a.x, k + 1, dt) * dt;
    assert l.y == Travelled(x.y, v.y, a.y, k, dt) + Reached(v.y, a.y, k + 1, dt) * dt;
    assert l.z == Travelled(x.z, v.z, a.z, k, dt) + Reached(v.z, a.z, k + 1, dt) * dt;
  }

  /** One more step takes Coast(p, dt, k) to Coast(p, dt, k + 1). */
  lemma CoastStep(p: Particle, dt: real, k: nat)
    requires p.mass != 0.0
    ensures PosStep(SpdStep(AccStep(Coast(p, dt, k)).value, dt), dt) == Coast(p, dt, k + 1)
  {
    var a := Div(p.frc, p.mass).value;
    var q := Coast(p, dt, k);
    assert AccStep(q).value == q.(acc := a);
    VecStep(p.pos, p.spd, a, k, dt);
  }

  /** A lone particle of non-zero mass follows Coast step after step. */
  lemma {:induction false} LoneParticleUniformAcceleration(p: Particle, law: Laws, it: nat, tm: real, k: nat)
    requires p.mass != 0.0
    ensures Iterated(State([p], it, tm), law, k) == Completed(State([Coast(p, law.cTime, k)], it + k, tm))
  {
    if k == 0 {
      assert Coast(p, law.cTime, 0) == p;
    } else {
      LoneParticleUniformAcceleration(p, law, it, tm, k - 1);
      var q := Coast(p, law.cTime, k - 1);
      LoneStep(q, law, it + k - 1, tm);
      CoastStep(p, law.cTime, k - 1);
    }
  }

  /**
   * A particle fresh from particle_init, alone in its universe, stays where
   * it is: every step completes and leaves it unchanged.
   */
  lemma BlankStaysAtRest(law: Laws, it: nat, tm: real, k: nat)
    ensures Iterated(State([Blank()], it, tm), law, k) == Completed(State([Blank()], it + k, tm))
  {
    LoneParticleUniformAcceleration(Blank(), law, it, tm, k);
    assert Coast(Blank(), law.cTime, k) == Blank();
  }

  // ---------------------------------------------------------------------------
  // universe_simulate

  /** The outcome o with its state's clock set to x. */
  function AtTime(o: Outcome<State>, x: real): Outcome<State>
  {
    match o
    case Completed(r) => Completed(r.(time := x))
    case Aborted(r) => Aborted(r.(time := x))
  }

  /** universe_iterate never reads the clock, and leaves it as it was. */
  lemma StepIgnoresTime(s: State, law: Laws, x: real)
    ensures Step(s.(time := x), law) == AtTime(Step(s, law), x)
  {
    assert s.(time := x).particles == s.particles;
  }

  /** The same holds for k calls of universe_iterate. */
  lemma {:induction false} IteratedIgnoresTime(s: State, law: Laws, k: nat, x: real)
    ensures Iterated(s.(time := x), law, k) == AtTime(Iterated(s, law, k), x)
  {
    if k > 0 {
      IteratedIgnoresTime(s, law, k - 1, x);
      match Iterated(s, law, k - 1)
      case Aborted(t) =>
      case Completed(t) =>
        StepIgnoresTime(t, law, x);
    }
  }

  /**
   * What a run from s that had n passes of the time loop left did: if it
   * completed, n more iterations and a clock n steps of dt later, with the
   * same number of particles; if it stopped early, at most n more iterations.
   */
  ghost predicate RanFor(s: State, o: Outcome<State>, n: nat, dt: real)
  {
    match o
    case Completed(r) =>
      && r.iterations == s.iterations + n
      && r.time == s.time + (n as real) * dt
      && |r.particles| == |s.particles|
    case Aborted(r) => r.iterations <= s.iterations + n
  }

  /** A run that had n passes left, seen from one pass later. */
  lemma RanForShift(s: State, t: State, o: Outcome<State>, n: nat, dt: real)
    requires 1 <= n && t.iterations == s.iterations + 1 && t.time == s.time + dt
    requires |t.particles| == |s.particles|
    requires RanFor(t, o, n - 1, dt)
    ensures RanFor(s, o, n, dt)
  {
    if o.Completed? {
      assert o.state.time == (s.time + dt) + ((n - 1) as real) * dt;
      assert ((n - 1) as real) * dt + dt == (n as real) * dt;
    }
  }

  /** A completed run of k iterations, restarted with the clock at x. */
  lemma IteratedRetimed(t: State, u: State, law: Laws, k: nat, x: real)
    requires u == t.(time := x)
    ensures match Iterated(t, law, k)
      case Completed(r) => Iterated(u, law, k) == Completed(r.(time := x))
      case Aborted(_) => true
  {
    IteratedIgnoresTime(t, law, k, x);
  }

  /** n calls of universe_iterate are one call followed by n - 1 more. */
  lemma IteratedAfterStep(s: State, law: Laws, u: State, n: nat)
    requires 1 <= n && Step(s, law) == Completed(u)
    ensures Iterated(s, law, n) == Iterated(u, law, n - 1)
  {
    IteratedComposes(s, law, 1, n - 1);
    assert Iterated(s, law, 1) == Step(s, law);
  }

  /** One pass of the loop of universe_simulate that neither fails nor ends the run. */
  lemma SimulationUnfold(s: State, maxTime: real, law: Laws, record: State -> bool)
    requires 0.0 < law.cTime && s.time < maxTime
    requires Step(s, law).Completed? && record(Step(s, law).state)
    ensures Simulation(s, maxTime, law, record)
         == Simulation(Step(s, law).state.(time := s.time + law.cTime), maxTime, law, record)
  {
  }

  /**
   * A completed run performs StepsLeft iterations, each advancing the clock by
   * exactly c_time; an aborted run performed no more than that.
   */
  lemma {:induction false} SimulationSteps(s: State, maxTime: real, law: Laws, record: State -> bool)
    requires 0.0 < law.cTime
    ensures RanFor(s, Simulation(s, maxTime, law, record), StepsLeft(s.time, maxTime, law.cTime), law.cTime)
    decreases StepsLeft(s.time, maxTime, law.cTime)
  {
    var dt := law.cTime;
    var n := StepsLeft(s.time, maxTime, dt);
    if s.time < maxTime {
      var o := Step(s, law);
      if o.Completed? && record(o.state) {
        var t := o.state.(time := s.time + dt);
        SimulationUnfold(s, maxTime, law, record);
        StepsLeftDecreases(s.time, maxTime, dt);
        SimulationSteps(t, maxTime, law, record);
        RanForShift(s, t, Simulation(t, maxTime, law, record), n, dt);
      }
    }
  }

  /** If o completed, its state is that of n calls of universe_iterate on s, up to the clock. */
  ghost predicate EndsAsIterated(s: State, law: Laws, n: nat, o: Outcome<State>)
  {
    o.Completed? ==> Iterated(s, law, n) == Completed(o.state.(time := s.time))
  }

  /** A run that ends as n - 1 iterations from one pass later ends as n iterations from s. */
  lemma EndsAsIteratedShift(s: State, u: State, t: State, law: Laws, n: nat, m: nat, o: Outcome<State>)
    requires 1 <= n && m == n - 1 && Step(s, law) == Completed(u) && t == u.(time := s.time + law.cTime)
    requires EndsAsIterated(t, law, m, o)
    ensures EndsAsIterated(s, law, n, o)
  {
    IteratedAfterStep(s, law, u, n);
    IteratedRetimed(t, u, law, m, s.time);
  }

  /**
   * A completed run ends with the particles and the counter of StepsLeft
   * calls of universe_iterate on its starting state: recording and the clock
   * change nothing else.
   */
  lemma {:induction false} SimulationIsIterated(s: State, maxTime: real, law: Laws, record: State -> bool)
    requires 0.0 < law.cTime
    ensures EndsAsIterated(s, law, StepsLeft(s.time, maxTime, law.cTime), Simulation(s, maxTime, law, record))
    decreases StepsLeft(s.time, maxTime, law.cTime)
  {
    var dt := law.cTime;
    var n := StepsLeft(s.time, maxTime, dt);
    if maxTime <= s.time {
      assert Simulation(s, maxTime, law, record) == Completed(s);
      assert Iterated(s, law, 0) == Completed(s);
    } else {
      var o := Step(s, law);
      if o.Completed? && record(o.state) {
        var u := o.state;
        var t := u.(time := s.time + dt);
        SimulationUnfold(s, maxTime, law, record);
        StepsLeftDecreases(s.time, maxTime, dt);
        SimulationIsIterated(t, maxTime, law, record);
        EndsAsIteratedShift(s, u, t, law, n, StepsLeft(t.time, maxTime, dt), Simulation(t, maxTime, law, record));
      } else {
        assert Simulation(s, maxTime, law, record).Aborted?;
      }
    }
  }

  /** Once one call of universe_iterate fails, every longer run of them fails too. */
  lemma IteratedPrefix(s: State, law: Laws, j: nat, k: nat)
    requires j <= k && Iterated(s, law, k).Completed?
    ensures Iterated(s, law, j).Completed?
  {
    IteratedComposes(s, law, j, k - j);
  }

  /**
   * Each of the first n passes of the time loop from s succeeds: the k-th call
   * of universe_iterate completes, and recording accepts its state with the
   * clock still at PassClock(s, law, k), as it stands before line 133
   * advances it.
   */
  ghost predicate PassesAccepted(s: State, law: Laws, record: State -> bool, n: nat)
  {
    forall k :: 1 <= k <= n ==> PassOk(s, law, record, k)
  }

  /** The clock during the k-th pass of the time loop from s. */
  function PassClock(s: State, law: Laws, k: nat): real
  {
    s.time + ((k - 1) as real) * law.cTime
  }

  /** The k-th pass from s completes and its state, at the clock of that pass, is recorded. */
  ghost predicate PassOk(s: State, law: Laws, record: State -> bool, k: nat)
  {
    Iterated(s, law, k).Completed? && record(Iterated(s, law, k).state.(time := PassClock(s, law, k)))
  }

  /** A clock one step ahead is one pass ahead. */
  lemma PassClockShift(s: State, t: State, law: Laws, k: nat)
    requires 2 <= k && t.time == s.time + law.cTime
    ensures PassClock(t, law, k - 1) == PassClock(s, law, k)
  {
    assert (((k - 1) - 1) as real) * law.cTime + law.cTime == ((k - 1) as real) * law.cTime;
  }

  /** Two outcomes that differ only in the clock agree once both clocks are reset. */
  lemma RetimedAgree(a: Outcome<State>, c: Outcome<State>, x: real, y: real, z: real)
    requires c == AtTime(a, z) && x == y
    ensures a.Completed? == c.Completed?
    ensures a.Completed? ==> a.state.(time := x) == c.state.(time := y)
  {
  }

  /** The k-th pass from s is the (k - 1)-th pass from the state after the first one. */
  lemma PassShift(s: State, u: State, t: State, law: Laws, k: nat)
    requires 2 <= k && Step(s, law) == Completed(u) && t == u.(time := s.time + law.cTime)
    ensures Iterated(s, law, k).Completed? == Iterated(t, law, k - 1).Completed?
    ensures Iterated(s, law, k).Completed? ==>
      Iterated(s, law, k).state.(time := PassClock(s, law, k))
      == Iterated(t, law, k - 1).state.(time := PassClock(t, law, k - 1))
  {
    IteratedAfterStep(s, law, u, k);
    assert u.(time := t.time) == t;
    IteratedIgnoresTime(u, law, k - 1, t.time);
    PassClockShift(s, t, law, k);
    RetimedAgree(Iterated(s, law, k), Iterated(t, law, k - 1), PassClock(s, law, k), PassClock(t, law, k - 1), t.time);
  }

  /** Outcomes that agree once retimed are accepted alike. */
  lemma RecordAgree(a: Outcome<State>, c: Outcome<State>, x: real, y: real, record: State -> bool)
    requires a.Completed? == c.Completed?
    requires a.Completed? ==> a.state.(time := x) == c.state.(time := y)
    ensures a.Completed? && record(a.state.(time := x)) <==> c.Completed? && record(c.state.(time := y))
  {
  }

  /** The k-th pass from s is accepted iff the (k - 1)-th pass from the state after the first one is. */
  lemma PassOkShift(s: State, u: State, t: State, law: Laws, record: State -> bool, k: nat)
    requires 2 <= k && Step(s, law) == Completed(u) && t == u.(time := s.time + law.cTime)
    ensures PassOk(s, law, record, k) <==> PassOk(t, law, record, k - 1)
  {
    PassShift(s, u, t, law, k);
    RecordAgree(Iterated(s, law, k), Iterated(t, law, k - 1), PassClock(s, law, k), PassClock(t, law, k - 1), record);
  }

  /** The first pass from s is accepted iff recording accepts the state universe_iterate leaves. */
  lemma PassOkFirst(s: State, u: State, law: Laws, record: State -> bool)
    requires Step(s, law) == Completed(u)
    ensures PassOk(s, law, record, 1) <==> record(u)
  {
    assert Iterated(s, law, 1) == Step(s, law);
    assert PassClock(s, law, 1) == s.time;
    assert u.(time := s.time) == u;
  }

  /** n passes succeed from s iff the first does and the n - 1 after it succeed from t. */
  lemma PassesAcceptedShift(s: State, u: State, t: State, law: Laws, record: State -> bool, n: nat, m: nat)
    requires 1 <= n && m == n - 1 && Step(s, law) == Completed(u) && t == u.(time := s.time + law.cTime)
    ensures PassesAccepted(s, law, record, n) <==> record(u) && PassesAccepted(t, law, record, m)
  {
    PassOkFirst(s, u, law, record);
    if PassesAccepted(s, law, record, n) {
      forall j | 1 <= j <= m
        ensures PassOk(t, law, record, j)
      {
        PassOkShift(s, u, t, law, record, j + 1);
      }
    }
    if record(u) && PassesAccepted(t, law, record, m) {
      forall k | 1 <= k <= n
        ensures PassOk(s, law, record, k)
      {
        if 2 <= k {
          PassOkShift(s, u, t, law, record, k);
        }
      }
    }
  }

  /**
   * universe_simulate returns EXIT_SUCCESS exactly when every pass it makes
   * succeeds: for each of the StepsLeft passes, universe_iterate completes and
   * universe_printstate accepts the state it leaves.
   */
  lemma {:induction false} SimulationCompletesIff(s: State, maxTime: real, law: Laws, record: State -> bool)
    requires 0.0 < law.cTime
    ensures Simulation(s, maxTime, law, record).Completed?
        <==> PassesAccepted(s, law, record, StepsLeft(s.time, maxTime, law.cTime))
    decreases StepsLeft(s.time, maxTime, law.cTime)
  {
    var dt := law.cTime;
    var n := StepsLeft(s.time, maxTime, dt);
    if s.time < maxTime {
      var o := Step(s, law);
      if o.Aborted? {
        assert Iterated(s, law, 1) == o;
        assert !PassOk(s, law, record, 1);
        assert Simulation(s, maxTime, law, record).Aborted?;
      } else {
        var u := o.state;
        var t := u.(time := s.time + dt);
        StepsLeftDecreases(s.time, maxTime, dt);
        PassesAcceptedShift(s, u, t, law, record, n, StepsLeft(t.time, maxTime, dt));
        if record(u) {
          SimulationUnfold(s, maxTime, law, record);
          SimulationCompletesIff(t, maxTime, law, record);
        } else {
          assert Simulation(s, maxTime, law, record).Aborted?;
        }
      }
    }
  }

  /**
   * When universe_printstate always succeeds, universe_simulate succeeds
   * exactly when StepsLeft calls of universe_iterate in a row complete.
   */
  lemma SimulationCompletesIffIterated(s: State, maxTime: real, law: Laws, record: State -> bool)
    requires 0.0 < law.cTime && forall t :: record(t)
    ensures Simulation(s, maxTime, law, record).Completed?
        <==> Iterated(s, law, StepsLeft(s.time, maxTime, law.cTime)).Completed?
  {
    var n := StepsLeft(s.time, maxTime, law.cTime);
    SimulationCompletesIff(s, maxTime, law, record);
    if Iterated(s, law, n).Completed? {
      forall k | 1 <= k <= n
        ensures PassOk(s, law, record, k)
      {
        IteratedPrefix(s, law, k, n);
      }
    }
    if n > 0 && PassesAccepted(s, law, record, n) {
      assert PassOk(s, law, record, n);
    }
  }

  /**
   * A run started at time 0 with maxTime > 0 has ceil(maxTime / c_time) passes
   * of the loop ahead of it: the fewest steps of c_time that bring the clock
   * to maxTime, one step fewer leaving it below maxTime. A completed run ends
   * in the state of exactly that many calls of universe_iterate.
   */
  lemma SimulationFromStart(s: State, maxTime: real, law: Laws, record: State -> bool)
    requires 0.0 < law.cTime && s.time == 0.0 && 0.0 < maxTime
    ensures var n := Ceil(maxTime / law.cTime);
      && 1 <= n
      && maxTime <= (n as real) * law.cTime
      && ((n - 1) as real) * law.cTime < maxTime
      && RanFor(s, Simulation(s, maxTime, law, record), n, law.cTime)
      && EndsAsIterated(s, law, n, Simulation(s, maxTime, law, record))
  {
    var n := StepsLeft(s.time, maxTime, law.cTime);
    assert n == Ceil(maxTime / law.cTime) by {
      assert maxTime - s.time == maxTime;
    }
    StepsLeftIsLeast(s.time, maxTime, law.cTime);
    SimulationSteps(s, maxTime, law, record);
    SimulationIsIterated(s, maxTime, law, record);
  }
}
