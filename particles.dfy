/**
 * The ambient particle fields of the hero and about scenes
 * (SaimonApp.createParticles and SaimonApp.animateParticles): a flat buffer
 * of 3·N coordinates, a same-length buffer of velocities, and a per-frame
 * step that moves every coordinate and mirrors it through the origin once it
 * is farther than 25 units out. Coordinates are reals (the source's
 * Float32Array rounding is not modelled).
 */
module Particles {

  /** A coordinate whose magnitude exceeds this is mirrored. */
  const Bound: real := 25.0

  function Abs(x: real): real {
    if x < 0.0 then -x else x
  }

  /** Particles per field: 50 under reduced motion, 200 otherwise. */
  function ParticleCount(reducedMotion: bool): nat {
    if reducedMotion then 50 else 200
  }

  /** Reduced motion builds a quarter of the particles. */
  lemma ReducedMotionCount()
    ensures 4 * ParticleCount(true) == ParticleCount(false)
  {
  }

  /** `(Math.random() - 0.5) * 50`: a starting coordinate. */
  function SpreadPosition(r: real): real {
    (r - 0.5) * 50.0
  }

  /** `(Math.random() - 0.5) * 0.02`: a velocity component. */
  function SpreadVelocity(r: real): real {
    (r - 0.5) * 0.02
  }

  /** Which call of Math.random produced coordinate i: per particle, three
      position draws come first and then three velocity draws. */
  function DrawIndex(i: nat): nat {
    6 * (i / 3) + i % 3
  }

  /** The draws of a particle's coordinate c: positions then velocities. */
  lemma DrawIndexAt(k: nat, c: nat)
    requires c < 3
    ensures DrawIndex(3 * k + c) == 6 * k + c
  {
    assert (3 * k + c) / 3 == k && (3 * k + c) % 3 == c;
  }

  /** The wrap rule: a coordinate farther than Bound out is mirrored. */
  function Wrap(x: real): (r: real)
    ensures Abs(r) == Abs(x)
    ensures Abs(x) <= Bound ==> r == x
  {
    if Abs(x) > Bound then -x else x
  }

  /** One frame of one coordinate: add the velocity, then wrap. */
  function Advance(p: real, v: real): (r: real)
    ensures Abs(r) == Abs(p + v)
  {
    Wrap(p + v)
  }

  /** One frame of the whole buffer. */
  function StepAll(positions: seq<real>, velocities: seq<real>): (r: seq<real>)
    requires |positions| == |velocities|
    ensures |r| == |positions|
    ensures forall i :: 0 <= i < |r| ==> Abs(r[i]) == Abs(positions[i] + velocities[i])
  {
    seq(|positions|, i requires 0 <= i < |positions| => Advance(positions[i], velocities[i]))
  }

  /** n frames of one coordinate. */
  function Drift(p: real, v: real, n: nat): real {
    if n == 0 then p else Advance(Drift(p, v, n - 1), v)
  }

  /** n frames of the whole buffer. */
  function Frames(positions: seq<real>, velocities: seq<real>, n: nat): (r: seq<real>)
    requires |positions| == |velocities|
    ensures |r| == |positions|
  {
    if n == 0 then positions else StepAll(Frames(positions, velocities, n - 1), velocities)
  }

  /** Where a coordinate can be between frames: inside the cube, or just
      mirrored out of it, at most one velocity beyond it and moving back in. */
  predicate Settled(p: real, v: real) {
    Abs(p) <= Bound ||
    (Abs(p) <= Bound + Abs(v) && ((p > 0.0 && v < 0.0) || (p < 0.0 && v > 0.0)))
  }

  /** Mirroring keeps the magnitude, so a mirrored coordinate stays outside
      the cube: the wrap does not bring it back within 25. */
  lemma OverhangWitness()
    ensures Abs(SpreadPosition(0.9999)) <= Bound && Abs(SpreadVelocity(0.9999)) < 0.01
    ensures Abs(Advance(SpreadPosition(0.9999), SpreadVelocity(0.9999))) > Bound
  {
  }

  /** A frame keeps a settled coordinate settled. */
  lemma AdvanceKeepsSettled(p: real, v: real)
    requires Settled(p, v)
    ensures Settled(Advance(p, v), v)
  {
  }

  /** Any number of frames keep a settled coordinate settled. */
  lemma {:induction false} DriftKeepsSettled(p: real, v: real, n: nat)
    requires Settled(p, v)
    ensures Settled(Drift(p, v, n), v)
  {
    if n > 0 {
      DriftKeepsSettled(p, v, n - 1);
      AdvanceKeepsSettled(Drift(p, v, n - 1), v);
    }
  }

  /** The drift bound: a coordinate that starts inside the cube is never
      farther out than 25 plus the magnitude of its velocity. */
  lemma DriftBound(p: real, v: real, n: nat)
    requires Abs(p) <= Bound
    ensures Abs(Drift(p, v, n)) <= Bound + Abs(v)
  {
    DriftKeepsSettled(p, v, n);
  }

  /** Frames of the buffer act coordinate by coordinate. */
  lemma {:induction false} FramesAt(positions: seq<real>, velocities: seq<real>, n: nat, i: nat)
    requires |positions| == |velocities| && i < |positions|
    ensures Frames(positions, velocities, n)[i] == Drift(positions[i], velocities[i], n)
  {
    if n > 0 {
      FramesAt(positions, velocities, n - 1, i);
    }
  }

  /** The drift bound for the whole buffer after any number of frames. */
  lemma FramesBound(positions: seq<real>, velocities: seq<real>, n: nat)
    requires |positions| == |velocities|
    requires forall i :: 0 <= i < |positions| ==> Abs(positions[i]) <= Bound
    ensures forall i :: 0 <= i < |positions| ==>
      Abs(Frames(positions, velocities, n)[i]) <= Bound + Abs(velocities[i])
  {
    forall i | 0 <= i < |positions|
      ensures Abs(Frames(positions, velocities, n)[i]) <= Bound + Abs(velocities[i])
    {
      FramesAt(positions, velocities, n, i);
      DriftBound(positions[i], velocities[i], n);
    }
  }

  /** One particle field: the position buffer of the points geometry, the
      velocities kept beside it, and the points object's rotation about y. */
  class ParticleField {
    var positions: array<real>
    var velocities: array<real>
    var rotationY: real

    ghost predicate Valid()
      reads this, positions, velocities
    {
      positions != velocities &&
      positions.Length == velocities.Length && positions.Length % 3 == 0 &&
      forall i :: 0 <= i < positions.Length ==> Settled(positions[i], velocities[i])
    }

    /** createParticles: sizes both buffers for the particle count and fills
        them from the successive Math.random draws in `random`. */
    constructor (reducedMotion: bool, random: seq<real>)
      requires |random| == 6 * ParticleCount(reducedMotion)
      requires forall k :: 0 <= k < |random| ==> 0.0 <= random[k] < 1.0
      ensures Valid() && fresh(positions) && fresh(velocities) && rotationY == 0.0
      ensures positions.Length == 3 * ParticleCount(reducedMotion)
      ensures forall i :: 0 <= i < positions.Length ==>
        positions[i] == SpreadPosition(random[DrawIndex(i)]) &&
        velocities[i] == SpreadVelocity(random[DrawIndex(i) + 3])
      ensures forall i :: 0 <= i < positions.Length ==>
        -Bound <= positions[i] < Bound && -0.01 <= velocities[i] < 0.01
    {
      var count := ParticleCount(reducedMotion);
      positions := new real[count * 3];
      velocities := new real[count * 3];
      rotationY := 0.0;
      new;
      var i := 0;
      while i < count * 3
        invariant 0 <= i <= count * 3 && i % 3 == 0
        invariant positions.Length == velocities.Length == count * 3
        invariant fresh(positions) && fresh(velocities) && positions != velocities
        invariant rotationY == 0.0
        invariant forall j :: 0 <= j < i ==>
          DrawIndex(j) + 3 < |random| &&
          positions[j] == SpreadPosition(random[DrawIndex(j)]) &&
          velocities[j] == SpreadVelocity(random[DrawIndex(j) + 3])
      {
        FillParticle(random, i);
        i := i + 3;
      }
    }

    /** One iteration of createParticles' loop: the particle whose first
        coordinate is at i takes draws 2i .. 2i + 5. */
    method FillParticle(random: seq<real>, i: nat)
      requires positions != velocities && positions.Length == velocities.Length
      requires i % 3 == 0 && i + 3 <= positions.Length && 2 * i + 6 <= |random|
      modifies positions, velocities
      ensures forall j :: 0 <= j < positions.Length && !(i <= j < i + 3) ==>
        positions[j] == old(positions[j]) && velocities[j] == old(velocities[j])
      ensures forall j :: i <= j < i + 3 ==>
        DrawIndex(j) + 3 < |random| &&
        positions[j] == SpreadPosition(random[DrawIndex(j)]) &&
        velocities[j] == SpreadVelocity(random[DrawIndex(j) + 3])
    {
      positions[i] := SpreadPosition(random[2 * i]);
      positions[i + 1] := SpreadPosition(random[2 * i + 1]);
      positions[i + 2] := SpreadPosition(random[2 * i + 2]);
      velocities[i] := SpreadVelocity(random[2 * i + 3]);
      velocities[i + 1] := SpreadVelocity(random[2 * i + 4]);
      velocities[i + 2] := SpreadVelocity(random[2 * i + 5]);
      assert i == 3 * (i / 3);
      DrawIndexAt(i / 3, 0);
      DrawIndexAt(i / 3, 1);
      DrawIndexAt(i / 3, 2);
    }

    /** One frame of animateParticles on a present field in full motion. */
    method Step()
      requires Valid()
      modifies this`rotationY, positions
      ensures Valid()
      ensures positions[..] == StepAll(old(positions[..]), velocities[..])
      ensures velocities[..] == old(velocities[..])
      ensures rotationY == old(rotationY) + 0.001
      ensures forall i :: 0 <= i < positions.Length ==>
        Abs(positions[i]) <= Bound + Abs(velocities[i])
    {
      var i := 0;
      while i < positions.Length
        modifies positions
        invariant 0 <= i <= positions.Length && i % 3 == 0
        invariant forall j :: 0 <= j < i ==>
          positions[j] == Advance(old(positions[j]), velocities[j])
        invariant forall j :: i <= j < positions.Length ==> positions[j] == old(positions[j])
      {
        StepParticle(i);
        i := i + 3;
      }
      rotationY := rotationY + 0.001;
      forall j | 0 <= j < positions.Length
        ensures Settled(positions[j], velocities[j])
      {
        AdvanceKeepsSettled(old(positions[j]), velocities[j]);
      }
    }

    /** One iteration of animateParticles' loop: the particle whose first
        coordinate is at i moves by its velocity and wraps. */
    method StepParticle(i: nat)
      requires positions != velocities && positions.Length == velocities.Length
      requires i + 3 <= positions.Length
      modifies positions
      ensures forall j :: 0 <= j < positions.Length && !(i <= j < i + 3) ==>
        positions[j] == old(positions[j])
      ensures forall j :: i <= j < i + 3 ==> positions[j] == Advance(old(positions[j]), velocities[j])
    {
      positions[i] := positions[i] + velocities[i];
      positions[i + 1] := positions[i + 1] + velocities[i + 1];
      positions[i + 2] := positions[i + 2] + velocities[i + 2];

      if Abs(positions[i]) > Bound { positions[i] := positions[i] * -1.0; }
      if Abs(positions[i + 1]) > Bound { positions[i + 1] := positions[i + 1] * -1.0; }
      if Abs(positions[i + 2]) > Bound { positions[i + 2] := positions[i + 2] * -1.0; }
    }
  }

  /** animateParticles: nothing happens when the field is absent or reduced
      motion is on; otherwise one frame is stepped. */
  method AnimateParticles(particles: ParticleField?, reducedMotion: bool)
    requires particles != null ==> particles.Valid()
    modifies if particles != null then {particles, particles.positions} else {}
    ensures particles != null ==> particles.Valid()
    ensures particles != null ==>
      particles.velocities == old(particles.velocities) &&
      particles.velocities[..] == old(particles.velocities[..])
    ensures particles != null && reducedMotion ==>
      unchanged(particles) && unchanged(particles.positions)
    ensures particles != null && !reducedMotion ==>
      particles.positions == old(particles.positions) &&
      particles.positions[..] == StepAll(old(particles.positions[..]), particles.velocities[..]) &&
      particles.rotationY == old(particles.rotationY) + 0.001
  {
    if particles == null || reducedMotion {
      return;
    }
    particles.Step();
  }
}
