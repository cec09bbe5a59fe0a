/** The measurement scene (src/scenes/SceneBornRule.jsx): a spin in the
    superposition 0.6|up> + 0.8|down> is shown for the first half of a
    six-unit cycle, and the collapsed outcome for the second half. Only the
    logic that picks what is shown is modelled; the drawing is not. */
module BornRule {
  import opened JsMath

  const CycleTime: real := 6.0

  /** `(t * speed * 0.3) % cycleTime`. */
  function Phase(t: real, speed: real): (p: real)
    ensures 0.0 <= t * speed ==> 0.0 <= p < CycleTime
    ensures t * speed <= 0.0 ==> -CycleTime < p <= 0.0
  {
    JsRem(t * speed * 0.3, CycleTime)
  }

  datatype View = Before | After

  /** The superposition is shown while the phase is in the first half of the cycle. */
  function ViewAt(t: real, speed: real): (v: View)
    ensures v == Before <==> Phase(t, speed) < CycleTime / 2.0
  {
    if Phase(t, speed) < CycleTime / 2.0 then Before else After
  }

  /** A non-positive product t * speed never reaches the collapsed view. */
  lemma NegativeTimeShowsBefore(t: real, speed: real)
    requires t * speed <= 0.0
    ensures ViewAt(t, speed) == Before
  {
  }

  /** Within the first cycle, the superposition is shown until t * speed
      reaches 10 and the collapsed outcome from then until 20. */
  lemma {:induction false} FirstCycleViews(t: real, speed: real)
    requires 0.0 <= t * speed < 20.0
    ensures ViewAt(t, speed) == Before <==> t * speed < 10.0
  {
    var a := t * speed * 0.3;
    EuclidModUnique(a, CycleTime, 0, a);
    JsRemIsEuclidModOnNonNegatives(a, CycleTime);
  }

  /** The cycle repeats every 20 units of t * speed. */
  lemma {:induction false} PhasePeriodic(t: real, speed: real, k: nat)
    requires 0.0 <= t && 0.0 < speed
    ensures Phase(t + 20.0 * k as real / speed, speed) == Phase(t, speed)
  {
    var later := t + 20.0 * k as real / speed;
    assert later * speed == t * speed + 20.0 * k as real by {
      assert (20.0 * k as real / speed) * speed == 20.0 * k as real;
    }
    assert 0.0 <= t * speed;
    JsRemPeriodic(t * speed * 0.3, CycleTime, k);
  }

  /** Measured in wall-clock seconds since mount, the phase grows with the
      square of the speed: `t` already holds speed times the elapsed time. */
  lemma PhaseUsesSpeedSquared(elapsed: real, speed: real)
    ensures Phase(speed * elapsed, speed) == JsRem(speed * speed * elapsed * 0.3, CycleTime)
  {
    assert speed * elapsed * speed * 0.3 == speed * speed * elapsed * 0.3;
  }

  datatype Spin = Up | Down

  /** The amplitudes of the superposition label. */
  function Amplitude(s: Spin): real {
    match s
    case Up => 0.6
    case Down => 0.8
  }

  /** The percentages printed under the bars. */
  function LabelPercent(s: Spin): nat {
    match s
    case Up => 36
    case Down => 64
  }

  /** Each printed percentage is the Born-rule probability, the squared
      amplitude, and the two exhaust the outcomes. */
  lemma LabelsFollowBornRule()
    ensures forall s: Spin :: LabelPercent(s) as real == 100.0 * Amplitude(s) * Amplitude(s)
    ensures LabelPercent(Up) + LabelPercent(Down) == 100
    ensures Amplitude(Up) * Amplitude(Up) + Amplitude(Down) * Amplitude(Down) == 1.0
  {
    forall s: Spin ensures LabelPercent(s) as real == 100.0 * Amplitude(s) * Amplitude(s) {
      match s
      case Up =>
      case Down =>
    }
  }

  /** The arrows drawn: both spins before the measurement, one after. */
  function ShownSpins(v: View): (spins: set<Spin>)
    ensures v == Before <==> spins == {Up, Down}
    ensures v == After <==> spins == {Down}
  {
    match v
    case Before => {Up, Down}
    case After => {Down}
  }

  /** After the measurement the scene always reports spin down, the more
      probable of the two outcomes, whatever the time. */
  lemma CollapseIsAlwaysDown(t: real, speed: real)
    requires ViewAt(t, speed) == After
    ensures ShownSpins(ViewAt(t, speed)) == {Down}
    ensures LabelPercent(Down) > LabelPercent(Up)
  {
  }
}
