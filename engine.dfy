/**
 * t_universe and the operations of sources/universe.c that change it in place.
 *
 * The particle array is updated element by element, as the C loops do, and
 * every method is specified by the function of module Model that describes
 * the same call: its result and the new state are what that function gives
 * for the state before the call.
 */
module Engine {
  import opened Vec3d
  import opened Model

  class Universe {
    const particle: array<Particle>
    const partNb: nat
    var iterations: nat
    var time: real
    const cGrav: real
    const cElec: real
    const cTime: real
    /** The vector magnitude used by particle_update_frc. */
    const mag: Vec3 -> real
    /** The Lennard-Jones term of a (subject, source) pair. */
    const lj: (Particle, Particle) -> real

    ghost predicate Valid()
    {
      particle.Length == partNb
    }

    function Physics(): Laws
    {
      Laws(cGrav, cElec, cTime, mag, lj)
    }

    /** The state the engine changes, as a value. */
    function Abstract(): State
      reads this, particle
    {
      State(particle[..], iterations, time)
    }

    /**
     * A universe holding the particles read from the input file, with the
     * counter and the clock at zero and the constants given.
     */
    constructor (records: seq<Particle>, cGrav: real, cElec: real, cTime: real,
                 mag: Vec3 -> real, lj: (Particle, Particle) -> real)
      ensures Valid() && fresh(particle)
      ensures Abstract() == State(records, 0, 0.0)
      ensures this.cGrav == cGrav && this.cElec == cElec && this.cTime == cTime
      ensures this.mag == mag && this.lj == lj
    {
      particle := new Particle[|records|](j => if 0 <= j < |records| then records[j] else Blank());
      partNb := |records|;
      iterations := 0;
      this.cGrav, this.cElec, this.cTime := cGrav, cElec, cTime;
      this.mag, this.lj := mag, lj;
      time := 0.0;
    }

    /** particle_init on particle i: the default record; it always succeeds. */
    method ParticleInit(i: nat) returns (ok: bool)
      requires Valid() && i < partNb
      modifies particle
      ensures ok && particle[..] == old(particle[..])[i := Blank()]
    {
      particle[i] := Particle("??", 1.0, 0.0, Zero, Zero, Zero, Zero);
      ok := true;
    }

    /**
     * particle_update_frc: for every other particle, in index order, overwrite
     * the force of particle partId with that pair's force. Only that force
     * changes, also when a coincident pair stops the loop.
     */
    method UpdateFrc(partId: nat) returns (ok: bool)
      requires Valid() && partId < partNb
      modifies particle
      ensures var o := Force(old(particle[..]), partId, Physics());
        && ok == o.Completed?
        && particle[..] == old(particle[..])[partId := old(particle[partId]).(frc := o.state)]
    {
      ghost var ps := particle[..];
      var i := 0;
      while i < partNb
        invariant 0 <= i <= partNb
        invariant particle[..] == ps[partId := ps[partId].(frc := particle[partId].frc)]
        invariant FrcScan(ps, partId, i, particle[partId].frc, Physics()) == Force(ps, partId, Physics())
      {
        if i != partId {
          var current := particle[partId];
          var temp := Sub(particle[i].pos, current.pos);
          var dst := mag(temp);
          if dst < 0.0 {
            return false;
          }
          var unit := Unit(mag, temp);
          if unit.None? {
            return false;
          }
          var frcLj := lj(current, particle[i]);
          var frc := PairScalar(Physics(), current.mass, current.charge, particle[i].mass, particle[i].charge, frcLj, dst);
          assert particle[i] == ps[i] && current == ps[partId].(frc := current.frc);
          particle[partId] := current.(frc := Scale(unit.value, frc));
        }
        i := i + 1;
      }
      ok := true;
    }

    /** particle_update_acc: acceleration := force / mass; fails, changing nothing, on zero mass. */
    method UpdateAcc(partId: nat) returns (ok: bool)
      requires Valid() && partId < partNb
      modifies particle
      ensures var p := old(particle[partId]);
        && ok == (p.mass != 0.0)
        && particle[..] == if ok then old(particle[..])[partId := AccStep(p).value] else old(particle[..])
    {
      var current := particle[partId];
      var acc := Div(current.frc, current.mass);
      if acc.None? {
        return false;
      }
      particle[partId] := current.(acc := acc.value);
      ok := true;
    }

    /** particle_update_spd: velocity += acceleration * c_time. */
    method UpdateSpd(partId: nat)
      requires Valid() && partId < partNb
      modifies particle
      ensures particle[..] == old(particle[..])[partId := SpdStep(old(particle[partId]), cTime)]
    {
      var current := particle[partId];
      var temp := Scale(current.acc, cTime);
      particle[partId] := current.(spd := Add(current.spd, temp));
    }

    /** particle_update_pos: position += velocity * c_time. */
    method UpdatePos(partId: nat)
      requires Valid() && partId < partNb
      modifies particle
      ensures particle[..] == old(particle[..])[partId := PosStep(old(particle[partId]), cTime)]
    {
      var current := particle[partId];
      var temp := Scale(current.spd, cTime);
      particle[partId] := current.(pos := Add(current.pos, temp));
    }

    /**
     * universe_iterate: the force, acceleration, velocity and position passes,
     * each over every particle before the next begins, then iterations + 1.
     */
    method Iterate() returns (ok: bool)
      requires Valid()
      modifies this, particle
      ensures var o := Step(old(Abstract()), Physics());
        ok == o.Completed? && Abstract() == o.state
    {
      ghost var s := Abstract();
      var i := 0;
      while i < partNb
        invariant 0 <= i <= partNb
        invariant iterations == s.iterations && time == s.time
        invariant ForcePass(particle[..], i, Physics()) == ForcePass(s.particles, 0, Physics())
      {
        ok := UpdateFrc(i);
        if !ok {
          return;
        }
        i := i + 1;
      }
      ghost var f := particle[..];
      i := 0;
      while i < partNb
        invariant 0 <= i <= partNb
        invariant iterations == s.iterations && time == s.time
        invariant AccPass(particle[..], i) == AccPass(f, 0)
      {
        ok := UpdateAcc(i);
        if !ok {
          return;
        }
        i := i + 1;
      }
      ghost var a := particle[..];
      i := 0;
      while i < partNb
        invariant 0 <= i <= partNb
        invariant iterations == s.iterations && time == s.time
        invariant SpdPass(particle[..], i, cTime) == SpdPass(a, 0, cTime)
      {
        UpdateSpd(i);
        i := i + 1;
      }
      ghost var v := particle[..];
      i := 0;
      while i < partNb
        invariant 0 <= i <= partNb
        invariant iterations == s.iterations && time == s.time
        invariant PosPass(particle[..], i, cTime) == PosPass(v, 0, cTime)
      {
        UpdatePos(i);
        i := i + 1;
      }
      iterations := iterations + 1;
      ok := true;
    }

    /**
     * universe_simulate: while time < maxTime, iterate, record the state and
     * advance the clock by c_time; the first failure ends the run.
     * `record` stands for universe_printstate and says whether it succeeds.
     */
    method Simulate(maxTime: real, record: State -> bool) returns (ok: bool)
      requires Valid() && 0.0 < cTime
      modifies this, particle
      ensures var o := Simulation(old(Abstract()), maxTime, Physics(), record);
        ok == o.Completed? && Abstract() == o.state
    {
      while time < maxTime
        invariant Simulation(Abstract(), maxTime, Physics(), record)
               == Simulation(old(Abstract()), maxTime, Physics(), record)
        decreases StepsLeft(time, maxTime, cTime)
      {
        ok := Iterate();
        if !ok {
          return;
        }
        ok := record(Abstract());
        if !ok {
          return;
        }
        StepsLeftDecreases(time, maxTime, cTime);
        time := time + cTime;
      }
      ok := true;
    }
  }
}
