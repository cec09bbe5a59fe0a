/** The reversible-particle scene (src/scenes/SceneArrowOfTime.jsx): thirty
    particles in the unit square, moved each frame by an Euler step with
    reflecting walls, and coarse-grained into a left/right count. Positions
    are fractions of the drawing box; `Math.random` draws are an input. */
module ArrowOfTime {
  import opened JsMath

  datatype Particle = Particle(x: real, y: real, vx: real, vy: real)

  const ParticleCount: nat := 30

  /** One particle from its four uniform draws, consumed in the order x, y,
      vx, vy: clustered in the left part of the box. */
  function InitParticle(r0: real, r1: real, r2: real, r3: real): (p: Particle)
    requires IsNoise(r0) && IsNoise(r1) && IsNoise(r2) && IsNoise(r3)
    ensures 0.3 <= p.x < 0.4 && 0.3 <= p.y < 0.7
    ensures -0.001 <= p.vx < 0.001 && -0.001 <= p.vy < 0.001
  {
    Particle(0.3 + r0 * 0.1, 0.3 + r1 * 0.4, (r2 - 0.5) * 0.002, (r3 - 0.5) * 0.002)
  }

  predicate InitialBox(p: Particle) {
    0.3 <= p.x < 0.4 && 0.3 <= p.y < 0.7
    && -0.001 <= p.vx < 0.001 && -0.001 <= p.vy < 0.001
  }

  /** The particle array built on first mount, particle i from draws 4i .. 4i+3. */
  function InitParticles(noise: seq<real>): (ps: seq<Particle>)
    requires |noise| == 4 * ParticleCount
    requires forall i :: 0 <= i < |noise| ==> IsNoise(noise[i])
    ensures |ps| == ParticleCount
    ensures forall i :: 0 <= i < |ps| ==> InitialBox(ps[i])
  {
    seq(ParticleCount, i requires 0 <= i < ParticleCount =>
      InitParticle(noise[4 * i], noise[4 * i + 1], noise[4 * i + 2], noise[4 * i + 3]))
  }

  /** The effect initialises the particle array only if it does not exist yet;
      a re-run of the effect keeps the particles it already has. */
  function Ensure(current: seq<Particle>, initialised: bool, noise: seq<real>): (ps: seq<Particle>)
    requires |noise| == 4 * ParticleCount
    requires forall i :: 0 <= i < |noise| ==> IsNoise(noise[i])
    ensures initialised ==> ps == current
    ensures !initialised ==> |ps| == ParticleCount && forall i :: 0 <= i < |ps| ==> InitialBox(ps[i])
  {
    if initialised then current else InitParticles(noise)
  }

  /** One axis of the step: move by `v * speed`, flip the velocity if the
      tentative coordinate left [0, 1], then clamp the coordinate into [0, 1]. */
  function Axis(pos: real, v: real, speed: real): (r: (real, real))
    ensures 0.0 <= r.0 <= 1.0
    ensures Abs(r.1) == Abs(v)
  {
    var p := pos + v * speed;
    var v' := if p < 0.0 || p > 1.0 then -v else v;
    (Max(0.0, Min(1.0, p)), v')
  }

  /** The wall rule: the velocity flips exactly when the tentative coordinate
      leaves [0, 1] (a zero velocity flips to itself), and a move that stays
      inside is taken unchanged. */
  lemma AxisBounce(pos: real, v: real, speed: real)
    ensures var r := Axis(pos, v, speed); var target := pos + v * speed;
      ((r.1 == -v && v != 0.0) ==> (target < 0.0 || target > 1.0))
      && ((target < 0.0 || target > 1.0) ==> r.1 == -v)
      && (0.0 <= target <= 1.0 ==> r == (target, v))
  {
  }

  function Step(p: Particle, speed: real): (q: Particle)
    ensures InBox(q)
    ensures Abs(q.vx) == Abs(p.vx) && Abs(q.vy) == Abs(p.vy)
  {
    var ax := Axis(p.x, p.vx, speed);
    var ay := Axis(p.y, p.vy, speed);
    Particle(ax.0, ay.0, ax.1, ay.1)
  }

  predicate InBox(p: Particle) {
    0.0 <= p.x <= 1.0 && 0.0 <= p.y <= 1.0
  }

  /** The per-frame update of the whole array, particle by particle. */
  function StepAll(ps: seq<Particle>, speed: real): (qs: seq<Particle>)
    ensures |qs| == |ps|
    ensures forall i :: 0 <= i < |qs| ==> qs[i] == Step(ps[i], speed)
    ensures forall i :: 0 <= i < |qs| ==> InBox(qs[i])
  {
    seq(|ps|, i requires 0 <= i < |ps| => Step(ps[i], speed))
  }

  /** `frames` consecutive frames at a fixed speed: the particle count never
      changes, and after at least one frame every particle is in the square. */
  function Evolve(ps: seq<Particle>, speed: real, frames: nat): (qs: seq<Particle>)
    decreases frames
    ensures |qs| == |ps|
    ensures frames > 0 ==> forall i :: 0 <= i < |qs| ==> InBox(qs[i])
  {
    if frames == 0 then ps else Evolve(StepAll(ps, speed), speed, frames - 1)
  }

  /** Over any number of frames the particle count is preserved, every particle
      stays in the unit square, and no speed component changes magnitude. */
  lemma {:induction false} EvolveInvariants(ps: seq<Particle>, speed: real, frames: nat)
    requires frames > 0
    ensures |Evolve(ps, speed, frames)| == |ps|
    ensures forall i :: 0 <= i < |ps| ==> InBox(Evolve(ps, speed, frames)[i])
    ensures forall i :: 0 <= i < |ps| ==>
      Abs(Evolve(ps, speed, frames)[i].vx) == Abs(ps[i].vx)
      && Abs(Evolve(ps, speed, frames)[i].vy) == Abs(ps[i].vy)
    decreases frames
  {
    var qs := StepAll(ps, speed);
    if frames > 1 {
      EvolveInvariants(qs, speed, frames - 1);
    }
  }

  /** A step that meets no wall. */
  predicate NoWallHit(p: Particle, speed: real) {
    0.0 <= p.x + p.vx * speed <= 1.0 && 0.0 <= p.y + p.vy * speed <= 1.0
  }

  function Reverse(p: Particle): Particle {
    p.(vx := -p.vx, vy := -p.vy)
  }

  /** Microscopic reversibility: from a position in the box, if a step hits no
      wall, reversing both velocities and stepping again brings the particle
      back to where it was, moving the other way. */
  lemma Reversible(p: Particle, speed: real)
    requires InBox(p) && NoWallHit(p, speed)
    ensures Step(Reverse(Step(p, speed)), speed) == Reverse(p)
  {
    var ax, ay := Axis(p.x, p.vx, speed), Axis(p.y, p.vy, speed);
    AxisReversible(p.x, p.vx, speed);
    AxisReversible(p.y, p.vy, speed);
    var r := Reverse(Step(p, speed));
    assert r == Particle(ax.0, ay.0, -ax.1, -ay.1);
    assert Axis(r.x, r.vx, speed) == (p.x, -p.vx);
    assert Axis(r.y, r.vy, speed) == (p.y, -p.vy);
  }

  /** Reversibility of one axis of the step. */
  lemma AxisReversible(pos: real, v: real, speed: real)
    requires 0.0 <= pos <= 1.0 && 0.0 <= pos + v * speed <= 1.0
    ensures Axis(Axis(pos, v, speed).0, -Axis(pos, v, speed).1, speed) == (pos, -v)
  {
    var r := Axis(pos, v, speed);
    AxisBounce(pos, v, speed);
    assert r == (pos + v * speed, v);
    NegateFactor(v, speed);
    assert r.0 + (-v) * speed == pos;
    assert Axis(r.0, -v, speed) == (pos, -v);
  }

  lemma NegateFactor(v: real, speed: real)
    ensures (-v) * speed == -(v * speed)
  {
  }

  /** The same for the whole array, when no particle touches a wall. */
  lemma ReversibleAll(ps: seq<Particle>, speed: real)
    requires forall i :: 0 <= i < |ps| ==> InBox(ps[i]) && NoWallHit(ps[i], speed)
    ensures StepAll(ReverseAll(StepAll(ps, speed)), speed) == ReverseAll(ps)
  {
    var back := StepAll(ReverseAll(StepAll(ps, speed)), speed);
    forall i | 0 <= i < |ps| ensures back[i] == ReverseAll(ps)[i] {
      Reversible(ps[i], speed);
    }
  }

  function ReverseAll(ps: seq<Particle>): (qs: seq<Particle>)
    ensures |qs| == |ps|
    ensures forall i :: 0 <= i < |ps| ==> qs[i] == Reverse(ps[i])
  {
    seq(|ps|, i requires 0 <= i < |ps| => Reverse(ps[i]))
  }

  /** Particles in the left half (x < 0.5) and in the right half. */
  function CountLeft(ps: seq<Particle>): (n: nat)
    ensures n <= |ps|
  {
    if |ps| == 0 then 0 else (if ps[0].x < 0.5 then 1 else 0) + CountLeft(ps[1..])
  }

  function CountRight(ps: seq<Particle>): (n: nat)
    ensures n <= |ps|
  {
    if |ps| == 0 then 0 else (if ps[0].x < 0.5 then 0 else 1) + CountRight(ps[1..])
  }

  /** The coarse-graining partitions the particles: every particle is counted
      on exactly one side. */
  lemma {:induction false} CountsPartition(ps: seq<Particle>)
    ensures CountLeft(ps) + CountRight(ps) == |ps|
  {
    if |ps| > 0 {
      CountsPartition(ps[1..]);
    }
  }

  /** Counts add up over consecutive runs of particles. */
  lemma {:induction false} CountsAppend(a: seq<Particle>, b: seq<Particle>)
    ensures CountLeft(a + b) == CountLeft(a) + CountLeft(b)
    ensures CountRight(a + b) == CountRight(a) + CountRight(b)
  {
    if |a| > 0 {
      assert (a + b)[1..] == a[1..] + b;
      CountsAppend(a[1..], b);
    } else {
      assert a + b == b;
    }
  }

  /** The left count is the number of particles with x < 0.5: none of them
      exactly when every particle has x >= 0.5, all of them exactly when
      every particle has x < 0.5, and the count of a run is the sum of the
      counts of its parts. */
  lemma {:induction false} CountLeftMeaning(ps: seq<Particle>, k: nat)
    requires k <= |ps|
    ensures CountLeft(ps) == 0 <==> forall i :: 0 <= i < |ps| ==> ps[i].x >= 0.5
    ensures CountLeft(ps) == |ps| <==> forall i :: 0 <= i < |ps| ==> ps[i].x < 0.5
    ensures CountLeft(ps) == CountLeft(ps[..k]) + CountLeft(ps[k..])
  {
    assert ps == ps[..k] + ps[k..];
    CountsAppend(ps[..k], ps[k..]);
    if |ps| > 0 {
      CountLeftMeaning(ps[1..], 0);
      assert forall i :: 1 <= i < |ps| ==> ps[i] == ps[1..][i - 1];
    }
  }

  /** The right count is the number of particles with x >= 0.5, in the same
      three senses. */
  lemma {:induction false} CountRightMeaning(ps: seq<Particle>, k: nat)
    requires k <= |ps|
    ensures CountRight(ps) == 0 <==> forall i :: 0 <= i < |ps| ==> ps[i].x < 0.5
    ensures CountRight(ps) == |ps| <==> forall i :: 0 <= i < |ps| ==> ps[i].x >= 0.5
    ensures CountRight(ps) == CountRight(ps[..k]) + CountRight(ps[k..])
  {
    assert ps == ps[..k] + ps[k..];
    CountsAppend(ps[..k], ps[k..]);
    if |ps| > 0 {
      CountRightMeaning(ps[1..], 0);
      assert forall i :: 1 <= i < |ps| ==> ps[i] == ps[1..][i - 1];
    }
  }

  /** Bars `h` that give each side its share `count / total` of the full
      height `maxBarHeight`, and together fill it. */
  predicate FairBars(h: (real, real), left: nat, right: nat, total: nat, maxBarHeight: real) {
    h.0 * total as real == left as real * maxBarHeight
    && h.1 * total as real == right as real * maxBarHeight
    && h.0 + h.1 == maxBarHeight
  }

  /** The two density bars, `(count / particles.length) * maxBarHeight` each. */
  function BarHeights(left: nat, right: nat, total: nat, maxBarHeight: real): (h: (real, real))
    requires total > 0 && left + right == total
    ensures FairBars(h, left, right, total, maxBarHeight)
    ensures 0.0 <= maxBarHeight ==> 0.0 <= h.0 && 0.0 <= h.1
  {
    var n := total as real;
    var fl := left as real / n;
    var fr := right as real / n;
    assert fl + fr == 1.0 by {
      assert left as real + right as real == n;
      assert fl * n == left as real && fr * n == right as real;
      assert (fl + fr) * n == fl * n + fr * n;
      assert (fl + fr - 1.0) * n == 0.0;
    }
    assert 0.0 <= fl && 0.0 <= fr;
    var l := fl * maxBarHeight;
    var r := fr * maxBarHeight;
    assert l + r == (fl + fr) * maxBarHeight;
    assert 0.0 <= maxBarHeight ==> 0.0 <= l && 0.0 <= r by {
      if 0.0 <= maxBarHeight {
        MulMonotone(maxBarHeight, 0.0, fl);
        MulMonotone(maxBarHeight, 0.0, fr);
      }
    }
    assert l * n == left as real * maxBarHeight by {
      assert l * n == (fl * n) * maxBarHeight;
    }
    assert r * n == right as real * maxBarHeight by {
      assert r * n == (fr * n) * maxBarHeight;
    }
    (l, r)
  }

  /** Only the bars that `BarHeights` draws are fair: a side's share fixes
      its bar. */
  lemma FairBarsUnique(h: (real, real), left: nat, right: nat, total: nat, maxBarHeight: real)
    requires total > 0 && left + right == total
    requires FairBars(h, left, right, total, maxBarHeight)
    ensures h == BarHeights(left, right, total, maxBarHeight)
  {
    var g := BarHeights(left, right, total, maxBarHeight);
    var n := total as real;
    CancelPositive(h.0, g.0, n);
    CancelPositive(h.1, g.1, n);
  }

  /** In any frame the coarse-graining counts every particle once, and the
      bars give each side its share of the full height. */
  lemma FrameBarsSum(ps: seq<Particle>, maxBarHeight: real)
    requires |ps| > 0
    ensures CountLeft(ps) + CountRight(ps) == |ps|
    ensures FairBars(BarHeights(CountLeft(ps), CountRight(ps), |ps|, maxBarHeight),
                     CountLeft(ps), CountRight(ps), |ps|, maxBarHeight)
  {
    CountsPartition(ps);
  }

  /** The status line under the entropy readout. */
  datatype Status = Spreading | Equilibrium | NoMessage

  function StatusOf(left: int, right: int): (s: Status)
    ensures s == Spreading <==> left > right + 3
    ensures s == Equilibrium <==> -4 < left - right < 4
    ensures s == NoMessage <==> right > left + 3
  {
    if left > right + 3 then Spreading
    else if Abs((left - right) as real) < 4.0 then Equilibrium
    else NoMessage
  }
}
