/** The top-level view (src/App.jsx): the level catalogue, the keyed text
    tables, the scene selected for the active level, and the shared
    parameter record with its three range controls. */
module App {

  datatype Option<T> = None | Some(value: T)

  /** A level of the guided sequence. The subtitle and description are static
      prose and are not modelled. */
  datatype Level = Level(id: int, title: string)

  const LevelCount: nat := 14

  const Levels: seq<Level> := [
    Level(0, "0. The Mystery: Classical Time"),
    Level(1, "1. Decoherence Creates Classicality"),
    Level(2, "2. The Arrow of Time"),
    Level(3, "3. Quantum Fields (QFT)"),
    Level(4, "4. Coupled Subsystems & Entanglement"),
    Level(5, "5. Hilbert Space Unitary Evolution"),
    Level(6, "6. Measurement & the Born Rule"),
    Level(7, "7. Path Integral: Summing Histories"),
    Level(8, "8. The Foundation: Phase Rotation"),
    Level(9, "9. Spacetime & Relativity"),
    Level(10, "10. The Frontier: Quantum Gravity"),
    Level(11, "11. String Theory: Vibrating Geometry"),
    Level(12, "12. Loop Quantum Gravity: Discrete Space"),
    Level(13, "13. Emergent Gravity: From Entanglement")
  ]

  /** The keys of the `INFO` table (formula and hand-off line per level). */
  const InfoKeys: set<int> := {0, 1, 2, 3, 4, 5, 6, 7, 8, 9, 10, 11, 12, 13}

  /** The keys of the `DEEP` table (the companion's long-form sections per level). */
  const DeepKeys: set<int> := {0, 1, 2, 3, 4, 5, 6, 7, 8, 9, 10, 11, 12, 13}

  predicate ValidLevel(id: int) {
    0 <= id < LevelCount
  }

  /** Level ids are dense: entry i of the catalogue has id i. */
  lemma LevelsDense()
    ensures |Levels| == LevelCount
    ensures forall i :: 0 <= i < |Levels| ==> Levels[i].id == i
  {
  }

  /** Both text tables have an entry for exactly the valid level ids. */
  lemma TextTablesCoverLevels(id: int)
    ensures id in InfoKeys <==> ValidLevel(id)
    ensures id in DeepKeys <==> ValidLevel(id)
  {
  }

  /** `levels.find(l => l.id === id)`: the first entry with that id, if any. */
  function FindLevel(levels: seq<Level>, id: int): (r: Option<Level>)
    ensures r.None? <==> forall i :: 0 <= i < |levels| ==> levels[i].id != id
    ensures r.Some? ==> exists i :: 0 <= i < |levels| && levels[i] == r.value
                                    && r.value.id == id
                                    && forall j :: 0 <= j < i ==> levels[j].id != id
  {
    if |levels| == 0 then None
    else if levels[0].id == id then Some(levels[0])
    else
      var r := FindLevel(levels[1..], id);
      assert forall i :: 0 < i < |levels| ==> levels[i] == levels[1..][i - 1];
      if r.Some? then
        var k :| 0 <= k < |levels[1..]| && levels[1..][k] == r.value && r.value.id == id
                 && forall j :: 0 <= j < k ==> levels[1..][j].id != id;
        assert levels[k + 1] == r.value;
        assert forall j :: 0 <= j < k + 1 ==> levels[j].id != id by {
          forall j | 0 <= j < k + 1 ensures levels[j].id != id {
            if j > 0 { assert levels[j] == levels[1..][j - 1]; }
          }
        }
        r
      else
        r
  }

  /** The card's title lookup finds the catalogue entry at index `active`
      for every valid level, and nothing otherwise. */
  lemma {:induction false} FindActiveLevel(active: int)
    ensures ValidLevel(active) ==> FindLevel(Levels, active) == Some(Levels[active])
    ensures !ValidLevel(active) ==> FindLevel(Levels, active) == None
  {
    LevelsDense();
    var r := FindLevel(Levels, active);
    if r.Some? {
      var i :| 0 <= i < |Levels| && Levels[i] == r.value && r.value.id == active;
      assert i == active;
    }
  }

  /** The scene components the view can render. */
  datatype Scene =
    | Mystery | Decoherence | ArrowOfTime | QFT | Network | HilbertSphere | BornRule
    | PathIntegral | Phasor | Spacetime | QuantumGravity | StringTheory | LoopQG
    | EmergentGravity

  /** The intended level-to-scene table, in level order. */
  const SceneTable: seq<Scene> := [
    Mystery, Decoherence, ArrowOfTime, QFT, Network, HilbertSphere, BornRule,
    PathIntegral, Phasor, Spacetime, QuantumGravity, StringTheory, LoopQG,
    EmergentGravity
  ]

  /** The card's children: fourteen independent `active === k && <Scene/>`
      guards, each contributing its scene or nothing. */
  function RenderedScenes(active: int): seq<Scene> {
    (if active == 0 then [Mystery] else [])
    + (if active == 1 then [Decoherence] else [])
    + (if active == 2 then [ArrowOfTime] else [])
    + (if active == 3 then [QFT] else [])
    + (if active == 4 then [Network] else [])
    + (if active == 5 then [HilbertSphere] else [])
    + (if active == 6 then [BornRule] else [])
    + (if active == 7 then [PathIntegral] else [])
    + (if active == 8 then [Phasor] else [])
    + (if active == 9 then [Spacetime] else [])
    + (if active == 10 then [QuantumGravity] else [])
    + (if active == 11 then [StringTheory] else [])
    + (if active == 12 then [LoopQG] else [])
    + (if active == 13 then [EmergentGravity] else [])
  }

  /** Exactly one scene renders for a valid level, and it is the table's entry;
      an id outside the catalogue renders nothing. */
  lemma DispatchTotal(active: int)
    ensures ValidLevel(active) ==> RenderedScenes(active) == [SceneTable[active]]
    ensures !ValidLevel(active) ==> RenderedScenes(active) == []
  {
  }

  /** Different levels show different scenes: the dispatch is one-to-one. */
  lemma DispatchInjective(a: int, b: int)
    requires ValidLevel(a) && ValidLevel(b) && a != b
    ensures RenderedScenes(a) != RenderedScenes(b)
  {
    DispatchTotal(a);
    DispatchTotal(b);
  }

  /** The shared parameters: global speed, phasor frequency, coupling strength. */
  datatype Params = Params(speed: real, omega: real, couple: real)

  const DefaultParams: Params := Params(1.0, 0.2, 0.7)

  /** The three range controls of the sidebar. */
  datatype Control = SpeedControl | OmegaControl | CoupleControl

  /** A control's bounds and step, as the range input declares them. */
  datatype Range = Range(min: real, max: real, step: real)

  function RangeOf(c: Control): (r: Range)
    ensures 0.0 <= r.min < r.max && r.step > 0.0
  {
    match c
    case SpeedControl => Range(0.1, 3.0, 0.1)
    case OmegaControl => Range(0.05, 2.0, 0.05)
    case CoupleControl => Range(0.0, 1.0, 0.05)
  }

  function Read(p: Params, c: Control): real {
    match c
    case SpeedControl => p.speed
    case OmegaControl => p.omega
    case CoupleControl => p.couple
  }

  predicate InRange(p: Params) {
    forall c: Control :: RangeOf(c).min <= Read(p, c) <= RangeOf(c).max
  }

  /** `setParams(p => ({ ...p, field: v }))`: the control's field becomes `v`
      and every other field keeps its value. */
  function Update(p: Params, c: Control, v: real): (p': Params)
    ensures Read(p', c) == v
    ensures forall d: Control :: d != c ==> Read(p', d) == Read(p, d)
  {
    match c
    case SpeedControl => p.(speed := v)
    case OmegaControl => p.(omega := v)
    case CoupleControl => p.(couple := v)
  }

  /** The initial parameters lie inside every control's range, and each
      is strictly positive where a scene divides or scales by it. */
  lemma DefaultInRange()
    ensures InRange(DefaultParams)
    ensures DefaultParams.speed > 0.0 && DefaultParams.omega > 0.0
  {
    forall c: Control ensures RangeOf(c).min <= Read(DefaultParams, c) <= RangeOf(c).max {
    }
  }

  /** A value the control can produce keeps the whole record in range. */
  lemma UpdatePreservesRange(p: Params, c: Control, v: real)
    requires InRange(p)
    requires RangeOf(c).min <= v <= RangeOf(c).max
    ensures InRange(Update(p, c, v))
  {
    var p' := Update(p, c, v);
    forall d: Control ensures RangeOf(d).min <= Read(p', d) <= RangeOf(d).max {
      if d != c {
        assert RangeOf(d).min <= Read(p, d) <= RangeOf(d).max;
      }
    }
  }

  /** Updates of two different controls commute. */
  lemma UpdatesCommute(p: Params, c: Control, v: real, d: Control, u: real)
    requires c != d
    ensures Update(Update(p, c, v), d, u) == Update(Update(p, d, u), c, v)
  {
  }

  /** The props each scene is mounted with: every scene gets the global speed;
      only the coupled network also gets the coupling, and only the phasor the frequency. */
  datatype Props = Props(speed: real, couple: Option<real>, omega: Option<real>)

  function PropsOf(s: Scene, p: Params): (r: Props)
    ensures r.speed == p.speed
    ensures r.couple.Some? <==> s == Network
    ensures r.omega.Some? <==> s == Phasor
    ensures r.couple.Some? ==> r.couple.value == p.couple
    ensures r.omega.Some? ==> r.omega.value == p.omega
  {
    match s
    case Network => Props(p.speed, Some(p.couple), None)
    case Phasor => Props(p.speed, None, Some(p.omega))
    case _ => Props(p.speed, None, None)
  }
}

/** The arrow-of-time scene that the top-level view renders for level 2
    (defined inside src/App.jsx): particles on a ring whose radius `spread`
    cycles through [1, 4) as the simulation time advances, together with the
    derived opacity, entropy label and broken-egg switch. */
module TimeArrowCycle {
  import opened JsMath

  /** `((t * 0.3) % 3) + 1`. */
  function Spread(t: real): (s: real)
    ensures 0.0 <= t ==> 1.0 <= s < 4.0
  {
    JsRem(t * 0.3, 3.0) + 1.0
  }

  /** The particles' opacity, floored at 0.3. */
  function ParticleAlpha(t: real): (a: real)
    ensures 0.0 <= t ==> 0.3 <= a <= 1.0
    ensures 0.0 <= t ==> (a == 0.3 <==> Spread(t) >= 2.4)
  {
    Max(0.3, 1.0 - (Spread(t) - 1.0) / 2.0)
  }

  /** The integer shown as "Entropy S = ... k_B". */
  function EntropyLevel(t: real): (e: int)
    ensures 0.0 <= t ==> 33 <= e <= 131
  {
    (Spread(t) * 33.0).Floor
  }

  function Brokenness(t: real): (b: real)
    ensures 0.0 <= t ==> 0.0 <= b < 3.0
  {
    Spread(t) - 1.0
  }

  /** The egg is drawn whole while the brokenness is below one half; the
      particles are then still drawn at more than three-quarter opacity. */
  predicate EggIntact(t: real)
    ensures EggIntact(t) ==> ParticleAlpha(t) > 0.75
  {
    Brokenness(t) < 0.5
  }

  /** The cycle repeats every 10 seconds of simulation time. */
  lemma {:induction false} SpreadPeriodic(t: real, k: nat)
    requires 0.0 <= t
    ensures Spread(t + 10.0 * k as real) == Spread(t)
  {
    assert (t + 10.0 * k as real) * 0.3 == t * 0.3 + 3.0 * k as real;
    JsRemPeriodic(t * 0.3, 3.0, k);
  }

  /** The egg is intact exactly during the first 5/3 seconds of each cycle. */
  lemma EggIntactWindow(t: real)
    requires 0.0 <= t < 10.0
    ensures EggIntact(t) <==> t < 5.0 / 3.0
  {
    JsRemIsEuclidModOnNonNegatives(t * 0.3, 3.0);
    EuclidModUnique(t * 0.3, 3.0, 0, t * 0.3);
  }

  /** The brokenness exceeds 2 (the source comment claims it ranges from 0 to 2). */
  lemma BrokennessExceedsTwo()
    ensures Brokenness(9.0) > 2.0
  {
    JsRemIsEuclidModOnNonNegatives(2.7, 3.0);
    EuclidModUnique(2.7, 3.0, 0, 2.7);
  }
}
