# Levels of Reality — a Dafny model of its scene logic

Levels of Reality is a browser app that walks through fourteen "levels" of
physics, each drawn on a canvas by an animated scene. Beneath the drawing
sits a thin layer of exact logic, and this project models that layer:

- the animation clock that every scene reads (`useTicker`);
- the level catalogue, the scene each level renders, and the shared
  parameter record with its three range controls;
- the particle integrator of the arrow-of-time scene, with reflecting walls
  and a left/right coarse-graining, plus the spreading-ring cycle that the
  top-level view draws for that level;
- the coupled-oscillator network: its graph, phases, edge opacity, flow
  dots and measurement window;
- the twelve-qubit ring of the emergent-gravity scene and its
  entanglement threshold;
- the path-integral ensemble: sample paths, action, classical path, draw
  order, phase colour and phasor chain;
- the Born-rule measurement cycle;
- the subtitle wrapping and box layout of the symmetry scene.

Numbers are exact Dafny `real`s. JavaScript's `%` truncates toward zero and
is written out as `JsMath.JsRem`. The floored modulus is `JsMath.EuclidMod`.
`Math.sin` and `Math.cos` are function parameters or bounded inputs.
`Math.random` draws are input sequences of values in [0, 1).

Modules, one per source file, plus shared helpers:

| module | file | models |
|---|---|---|
| `JsMath` | js_math.dfy | JavaScript `%` on reals, truncation, the wrap idiom `((a % m) + m) % m` |
| `Ticker` | ticker.dfy | src/utils/hooks.js |
| `App` | app.dfy | src/App.jsx: levels, text tables, dispatch, parameters |
| `TimeArrowCycle` | app.dfy | src/App.jsx: the arrow-of-time scene defined inside the top-level view |
| `ArrowOfTime` | arrow_of_time.dfy | src/scenes/SceneArrowOfTime.jsx |
| `Network` | network.dfy | src/scenes/SceneNetwork.jsx |
| `Ring` | ring.dfy | src/scenes/SceneEmergentGravity.jsx: ring distance and the nested pair loops |
| `EmergentGravity` | emergent_gravity.dfy | src/scenes/SceneEmergentGravity.jsx: entanglement, threshold, opacities |
| `PathIntegral` | path_integral.dfy | src/scenes/ScenePathIntegral.jsx |
| `BornRule` | born_rule.dfy | src/scenes/SceneBornRule.jsx |
| `Symmetry` | symmetry.dfy | src/scenes/SceneSymmetry.jsx |

Points where the code behaves in a way a reader might not expect, kept as
written:

- The clock does not clamp the frame interval (src/utils/hooks.js:9-11). A
  timestamp earlier than `last` therefore moves `t` backwards (`Ticker.Frame`).
- `t` already holds speed × elapsed time. The network's measurement cycle
  (SceneNetwork.jsx:143) and the Born-rule cycle (SceneBornRule.jsx:18)
  multiply by `speed` again. `Network.CycleUsesSpeedSquared` and
  `BornRule.PhaseUsesSpeedSquared` state the resulting dependence on speed².
- The top-level view (App.jsx) imports nothing from src/scenes or src/utils.
  It renders its own inline scene components and its own copy of `useTicker`.
  The model covers the files under src/scenes and src/utils. Of the inline
  copies, the clock and the emergent-gravity scene match those files line
  for line. Three inline scenes differ from the modelled files:
  - the inline network scene has no measurement window;
  - the inline path-integral scene draws no classical path;
  - the inline Born-rule scene is a different scene.
  The inline arrow-of-time scene is a different scene too: its spreading-ring
  cycle exists only in App.jsx and is modelled as `TimeArrowCycle`.
  "## Left out" lists what this means for the dispatch.

## Model

| member | source | states |
|---|---|---|
| JsMath.Trunc | src/scenes/SceneBornRule.jsx:18 | truncation toward zero lies within one of its argument, on the argument's side of zero |
| JsMath.JsRem | src/scenes/SceneBornRule.jsx:18 | JavaScript `a % m` for m > 0: in [0, m) for a ≥ 0 and in (−m, 0] for a ≤ 0 |
| JsMath.EuclidMod | src/scenes/ScenePathIntegral.jsx:74 | the floored modulus always lies in [0, m) |
| JsMath.JsRemIsEuclidModOnNonNegatives | src/scenes/SceneNetwork.jsx:71 | on non-negative dividends JavaScript `%` equals the floored modulus |
| JsMath.EuclidModPeriodic | src/scenes/ScenePathIntegral.jsx:127 | adding k whole periods, for any integer k, leaves the floored modulus unchanged |
| JsMath.EuclidModUnique | src/scenes/ScenePathIntegral.jsx:74 | a = m q + r with r in [0, m) determines the floored modulus as r |
| JsMath.JsRemPeriodic | src/scenes/SceneNetwork.jsx:143 | for a ≥ 0, adding whole periods leaves JavaScript `%` unchanged |
| JsMath.WrapIdiomIsEuclidMod | src/scenes/ScenePathIntegral.jsx:74 | `((a % m) + m) % m` is the floored modulus for every a, negative included |
| JsMath.WrapIdiomPeriodic | src/scenes/ScenePathIntegral.jsx:127 | the wrap idiom gives the same value for dividends that differ by any whole number of periods |
| Ticker.Mount | src/utils/hooks.js:3-7 | mounting sets t = 0, after which any run of frames gives t = speed × (last timestamp − mount time) / 1000 |
| Ticker.Frame | src/utils/hooks.js:8-11 | a frame records `now` as `last`; with speed > 0, t grows for a later timestamp and shrinks for an earlier one (no clamp); zero speed or zero interval leaves t |
| Ticker.Restart | src/utils/hooks.js:5-16 | a speed change keeps t and samples a fresh `last`, so a frame at that same instant changes nothing |
| Ticker.Run | src/utils/hooks.js:6-11 | frames telescope: t grows by speed × (final timestamp − initial `last`) / 1000, whatever the intermediate timestamps |
| Ticker.RunLoop | src/utils/hooks.js:8-14 | the frame-by-frame loop ends with t = t0 + speed × (last − last0) / 1000 |
| Ticker.RunAppend | src/utils/hooks.js:8-12 | running frames a and then b equals running a + b |
| Ticker.SplitFrame | src/utils/hooks.js:9-11 | chunking invariance: two frames over an interval equal one frame over it |
| Ticker.RunMonotone | src/utils/hooks.js:9-11 | with speed > 0 and non-decreasing timestamps, t and `last` never decrease |
| Ticker.SpeedChangeKeepsTime | src/utils/hooks.js:4-16 | across a speed change, the time accumulated before it is kept and the new speed counts from the fresh `last` |
| Ticker.HalfSecondFrames | src/utils/hooks.js:9-11 | three half-second frames give t = 1.5 at speed 1 and t = 3 at speed 2 |
| App.LevelsDense | src/App.jsx:14-99 | the catalogue has 14 entries and entry i has id i |
| App.TextTablesCoverLevels | src/App.jsx:101-313 | `INFO` and `DEEP` are keyed by exactly the ids 0..13 |
| App.FindLevel | src/App.jsx:2342-2343 | `find` returns the first entry with the id, and nothing exactly when no entry has it |
| App.FindActiveLevel | src/App.jsx:2342-2343 | for a valid id the lookup returns catalogue entry `active`; otherwise it returns nothing |
| App.DispatchTotal | src/App.jsx:2346-2363 | a valid level renders exactly one scene, the table's entry; any other id renders none |
| App.DispatchInjective | src/App.jsx:2346-2363 | different levels render different scenes |
| App.PropsOf | src/App.jsx:2346-2363 | every scene gets the global speed; only the network also gets the coupling, and only the phasor scene gets the frequency |
| App.RangeOf | src/App.jsx:375-398 | each control's range is non-empty with a positive step |
| App.Update | src/App.jsx:381-397 | a slider update sets its own field to the value and leaves the other two unchanged |
| App.DefaultInRange | src/App.jsx:2321 | the default {1.0, 0.2, 0.7} lies inside all three ranges, with positive speed and frequency |
| App.UpdatePreservesRange | src/App.jsx:375-398 | a value within the control's range keeps the whole record in range |
| App.UpdatesCommute | src/App.jsx:381-397 | updates through two different controls commute |
| TimeArrowCycle.Spread | src/App.jsx:1576 | for t ≥ 0 the ring radius factor lies in [1, 4) |
| TimeArrowCycle.ParticleAlpha | src/App.jsx:1586 | for t ≥ 0 the particle opacity lies in [0.3, 1], and it sits at the floor exactly when spread ≥ 2.4 |
| TimeArrowCycle.EntropyLevel | src/App.jsx:1597 | for t ≥ 0 the entropy label lies in [33, 131] |
| TimeArrowCycle.Brokenness | src/App.jsx:1602 | for t ≥ 0 the brokenness lies in [0, 3) |
| TimeArrowCycle.EggIntact | src/App.jsx:1602-1604 | while the egg is drawn whole, the particles are drawn at more than three-quarter opacity |
| TimeArrowCycle.SpreadPeriodic | src/App.jsx:1576 | the cycle repeats every 10 units of simulation time |
| TimeArrowCycle.EggIntactWindow | src/App.jsx:1602-1604 | within a cycle the egg is intact exactly for t < 5/3 |
| TimeArrowCycle.BrokennessExceedsTwo | src/App.jsx:1602 | the brokenness reaches values above 2 (at t = 9), beyond the "0 to 2" the comment gives |
| ArrowOfTime.InitParticle | src/scenes/SceneArrowOfTime.jsx:20-25 | a new particle has x ∈ [0.3, 0.4), y ∈ [0.3, 0.7) and vx, vy ∈ [−0.001, 0.001) |
| ArrowOfTime.InitParticles | src/scenes/SceneArrowOfTime.jsx:16-26 | initialisation creates 30 particles, all in that starting box |
| ArrowOfTime.Ensure | src/scenes/SceneArrowOfTime.jsx:15-27 | existing particles are kept as they are; otherwise 30 fresh particles are created |
| ArrowOfTime.Axis | src/scenes/SceneArrowOfTime.jsx:38-45 | after one axis update the coordinate lies in [0, 1] and the speed magnitude is unchanged |
| ArrowOfTime.AxisBounce | src/scenes/SceneArrowOfTime.jsx:38-45 | the velocity flips exactly when the tentative coordinate leaves [0, 1], and a move that stays inside is taken unchanged |
| ArrowOfTime.Step | src/scenes/SceneArrowOfTime.jsx:37-46 | a stepped particle is inside the unit square with the same speed magnitudes |
| ArrowOfTime.StepAll | src/scenes/SceneArrowOfTime.jsx:37-46 | a frame steps every particle, keeps the count, and leaves all inside the square |
| ArrowOfTime.Evolve | src/scenes/SceneArrowOfTime.jsx:35-46 | repeated frames never change the particle count, and after at least one frame every particle is in the square |
| ArrowOfTime.EvolveInvariants | src/scenes/SceneArrowOfTime.jsx:35-46 | after one or more frames the count is kept, all particles are in the square, and abs(vx), abs(vy) are unchanged |
| ArrowOfTime.AxisReversible | src/scenes/SceneArrowOfTime.jsx:38-45 | one axis without a wall hit: reversing and stepping again restores the coordinate |
| ArrowOfTime.Reversible | src/scenes/SceneArrowOfTime.jsx:35-46 | a step without a wall hit, followed by velocity reversal and another step, restores the position with reversed velocity |
| ArrowOfTime.ReversibleAll | src/scenes/SceneArrowOfTime.jsx:37-46 | the same for the whole array when no particle hits a wall |
| ArrowOfTime.CountLeft | src/scenes/SceneArrowOfTime.jsx:122-126 | the left count is at most the number of particles |
| ArrowOfTime.CountRight | src/scenes/SceneArrowOfTime.jsx:122-126 | the right count is at most the number of particles |
| ArrowOfTime.CountsAppend | src/scenes/SceneArrowOfTime.jsx:122-126 | both counts add up over consecutive runs of particles |
| ArrowOfTime.CountLeftMeaning | src/scenes/SceneArrowOfTime.jsx:122-126 | the left count is the number of particles with x < 0.5: zero iff every x ≥ 0.5, all iff every x < 0.5, and additive over any split |
| ArrowOfTime.CountRightMeaning | src/scenes/SceneArrowOfTime.jsx:122-126 | the right count is the number of particles with x ≥ 0.5: zero iff every x < 0.5, all iff every x ≥ 0.5, and additive over any split |
| ArrowOfTime.CountsPartition | src/scenes/SceneArrowOfTime.jsx:122-126 | every particle is counted on exactly one side: left + right = count |
| ArrowOfTime.BarHeights | src/scenes/SceneArrowOfTime.jsx:128-132 | each bar is its side's share of the particles times `maxBarHeight` (height × total = count × maxBarHeight); the two sum to `maxBarHeight` and are non-negative when it is |
| ArrowOfTime.FairBarsUnique | src/scenes/SceneArrowOfTime.jsx:128-132 | any pair of bars giving each side its share equals the bars drawn: the shares determine the bars |
| ArrowOfTime.FrameBarsSum | src/scenes/SceneArrowOfTime.jsx:122-132 | in any frame the left and right counts sum to the number of particles, and the bars drawn from them give each side its share of `maxBarHeight` |
| ArrowOfTime.StatusOf | src/scenes/SceneArrowOfTime.jsx:171-179 | "S increases" iff L > R + 3, "Equilibrium" iff abs(L − R) < 4, and neither iff R > L + 3 |
| Network.Add | src/scenes/SceneNetwork.jsx:17-19 | `add` appends exactly the new edge unless it is a self-loop, and never appends a self-loop |
| Network.Edges | src/scenes/SceneNetwork.jsx:16-30 | the graph has 28 edges |
| Network.BuildEdges | src/scenes/SceneNetwork.jsx:16-30 | the construction loops produce exactly the 20 ring edges, the 7 cross links and the entangled pair, in order |
| Network.GraphWellFormed | src/scenes/SceneNetwork.jsx:16-30 | all endpoints lie in [0, 20), there is no self-loop, and no undirected link appears twice |
| Network.CrossIsNotRing | src/scenes/SceneNetwork.jsx:20-27 | no cross link coincides with a ring edge |
| Network.EntangledEdgeUnique | src/scenes/SceneNetwork.jsx:29-30 | exactly one edge is entangled, the last, with weight 1; the test is symmetric in its endpoints |
| Network.Nodes | src/scenes/SceneNetwork.jsx:8-15 | 20 nodes, node i with id i and angular speed 0.8 |
| Network.SyncedPhi | src/scenes/SceneNetwork.jsx:82-91 | the entangled nodes are drawn at exactly the reference phase; every other node is ahead of it by i·π/40 |
| Network.PhaseOffsets | src/scenes/SceneNetwork.jsx:82-94 | the phase difference to the reference node is the same at all times |
| Network.NodeHue | src/scenes/SceneNetwork.jsx:94-95 | the fill hue is 10 exactly when the alignment is positive, and 200 otherwise |
| Network.NodeColours | src/scenes/SceneNetwork.jsx:82-95 | with cos(0) = 1 the entangled nodes are always red, and no node changes colour over time |
| Network.EdgeAlpha | src/scenes/SceneNetwork.jsx:61 | for w and couple in [0, 1], the edge opacity lies in [0.2, 0.8] |
| Network.EdgeAlphasInRange | src/scenes/SceneNetwork.jsx:48-61 | every edge of the graph is drawn with opacity in [0.2, 0.8] for any allowed coupling |
| Network.FlowPhase | src/scenes/SceneNetwork.jsx:71 | for t ≥ 0 the flow phase lies in [0, 1) |
| Network.Lerp | src/scenes/SceneNetwork.jsx:72-73 | a phase in [0, 1] puts the dot between the edge's ends; phase 0 puts it at the start |
| Network.Offset | src/scenes/SceneNetwork.jsx:72-73 | the offset along a span d by a fraction in [0, 1] lies between 0 and d |
| Network.FlowDot | src/scenes/SceneNetwork.jsx:71-74 | a flow dot is drawn exactly when couple > 0.3, and for t ≥ 0 it lies on its edge segment |
| Network.FlowDotsOnEdges | src/scenes/SceneNetwork.jsx:48-74 | for t ≥ 0, every edge of the graph shows a flow dot exactly when couple > 0.3, lying on that edge |
| Network.CyclePhase | src/scenes/SceneNetwork.jsx:142-143 | for t·speed ≥ 0 the cycle phase lies in [0, 8) |
| Network.MeasuringWindow | src/scenes/SceneNetwork.jsx:142-144 | `isMeasuring`: in the first cycle the highlight is on exactly while 4.8 < t·speed < 11.2 |
| Network.CyclePeriodic | src/scenes/SceneNetwork.jsx:142-144 | the measurement cycle repeats every 16/speed units of simulation time |
| Network.CycleUsesSpeedSquared | src/scenes/SceneNetwork.jsx:143 | measured in wall-clock seconds, the cycle phase depends on speed² |
| Ring.WrappedDist | src/scenes/SceneEmergentGravity.jsx:44-45 | the ring distance between two distinct qubits lies in [1, 6] |
| Ring.WrappedDistSymmetric | src/scenes/SceneEmergentGravity.jsx:44-45 | the ring distance is symmetric |
| Ring.NearIsClose | src/scenes/SceneEmergentGravity.jsx:43-45 | for i < j, ring distance ≤ 4 iff the gap j − i is at most 4 or at least 8 |
| Ring.RowThreadsSound | src/scenes/SceneEmergentGravity.jsx:43-48 | every pair the inner loop keeps is in its row, at or after the current column, and passes the test |
| Ring.RowThreadsComplete | src/scenes/SceneEmergentGravity.jsx:43-48 | every pair of the row at or after the current column that passes the test is kept |
| Ring.ThreadsSound | src/scenes/SceneEmergentGravity.jsx:42-48 | every pair the nested loops keep is a pair a < b of qubits that passes the test |
| Ring.ThreadsComplete | src/scenes/SceneEmergentGravity.jsx:42-48 | every pair a < b of qubits that passes the test is kept |
| Ring.ThreadsMembers | src/scenes/SceneEmergentGravity.jsx:42-48 | with a test that picks close pairs, the kept pairs from row i on are exactly the close pairs with a ≥ i |
| Ring.ClosePairsKept | src/scenes/SceneEmergentGravity.jsx:42-48 | with such a test, the kept pairs are exactly the qubit pairs a < b at ring distance ≤ 4 |
| Ring.RowDrawsAreRowThreads | src/scenes/SceneEmergentGravity.jsx:43-55 | each row strokes as many lines as it keeps distinct pairs |
| Ring.RowDrawsNear | src/scenes/SceneEmergentGravity.jsx:43-55 | with such a test, a row strokes one line per close column |
| Ring.NearInRowClosed | src/scenes/SceneEmergentGravity.jsx:43-45 | closed form of the close columns of a row: those at most 4 and those at least 8 to the right |
| Ring.RowsTableStep | src/scenes/SceneEmergentGravity.jsx:42-45 | the per-row table 48, 40, 33, … adds each row's close columns to the rows below |
| Ring.DrawsTable | src/scenes/SceneEmergentGravity.jsx:42-55 | with such a test, the lines stroked from row i on equal the table entry for row i |
| Ring.RowsDisjoint | src/scenes/SceneEmergentGravity.jsx:42-43 | a row's pairs and the pairs of the rows below are disjoint |
| Ring.DrawsAreThreads | src/scenes/SceneEmergentGravity.jsx:42-55 | the number of lines stroked equals the number of distinct pairs joined |
| Ring.ThreadCount | src/scenes/SceneEmergentGravity.jsx:42-58 | with such a test, the loops stroke 48 lines joining 48 distinct pairs |
| EmergentGravity.Entanglement | src/scenes/SceneEmergentGravity.jsx:46 | entanglement lies in (0, 1], and in (0, 2/3] for distance ≥ 1 |
| EmergentGravity.EntanglementDecreasing | src/scenes/SceneEmergentGravity.jsx:46 | entanglement falls strictly with distance |
| EmergentGravity.ThresholdIsDistance | src/scenes/SceneEmergentGravity.jsx:46-48 | entanglement > 0.3 iff distance ≤ 4 |
| EmergentGravity.HasThread | src/scenes/SceneEmergentGravity.jsx:44-48 | the loop test holds exactly for qubits at most four apart around the ring |
| EmergentGravity.DrawsThread | src/scenes/SceneEmergentGravity.jsx:42-48 | the test as the loops apply it: two qubits at most four apart |
| EmergentGravity.ThresholdPicksClose | src/scenes/SceneEmergentGravity.jsx:42-48 | the scene's test keeps exactly the close pairs i < j |
| EmergentGravity.SceneThreadsAreClosePairs | src/scenes/SceneEmergentGravity.jsx:42-58 | a thread joins qubits a < b exactly when they are at most four positions apart around the ring |
| EmergentGravity.SceneThreadCount | src/scenes/SceneEmergentGravity.jsx:42-58 | the scene strokes 48 threads, joining 48 distinct pairs of the 66 |
| EmergentGravity.Pulse | src/scenes/SceneEmergentGravity.jsx:62 | for a sine value in [−1, 1] the qubit opacity lies in [0.4, 1] |
| EmergentGravity.ThreadAlpha | src/scenes/SceneEmergentGravity.jsx:49-53 | for a sine value in [−1, 1] a thread's opacity lies in (0, 1/3] |
| PathIntegral.Next | src/scenes/ScenePathIntegral.jsx:17-20 | with a draw in [0, 1), an interior step advances by an amount in [0, 0.12) |
| PathIntegral.Walk | src/scenes/ScenePathIntegral.jsx:16-21 | one interior sample per draw, each the step from the one before |
| PathIntegral.MakePath | src/scenes/ScenePathIntegral.jsx:15-22 | a path has 40 samples, starts at −1.2 and ends at 1.2, and with valid draws its interior is non-decreasing in steps below 0.12 |
| PathIntegral.ComputeAction | src/scenes/ScenePathIntegral.jsx:24-30 | the action loop computes the fold of L·dt over the consecutive segments |
| PathIntegral.Lagrangian | src/scenes/ScenePathIntegral.jsx:26-28 | the kinetic part of L is never negative (L + V(midpoint) ≥ 0), and a segment that does not move has L = −V |
| PathIntegral.ActionPrefix | src/scenes/ScenePathIntegral.jsx:24-30 | when no segment has a negative Lagrangian, the action is not negative |
| PathIntegral.ActionAddsSegment | src/scenes/ScenePathIntegral.jsx:24-30 | extending a path by one sample adds exactly that segment's L·dt |
| PathIntegral.ActionPrefixOfPrefix | src/scenes/ScenePathIntegral.jsx:24-30 | the action of the first n samples depends on those samples only |
| PathIntegral.Ensemble | src/scenes/ScenePathIntegral.jsx:15-32 | 50 paths, each of 40 samples with the fixed endpoints and its own action |
| PathIntegral.MinIdx | src/scenes/ScenePathIntegral.jsx:61-67 | the classical index minimises abs(S) and is the earliest minimiser (the only index with both properties); 0 for no paths |
| PathIntegral.Others | src/scenes/ScenePathIntegral.jsx:70-86 | the first drawing loop visits every index but the classical one, each once, in increasing order |
| PathIntegral.DrawOrder | src/scenes/ScenePathIntegral.jsx:69-100 | the drawing order is a permutation of the path indices with the classical path last |
| PathIntegral.WrapPhase | src/scenes/ScenePathIntegral.jsx:74 | the wrapped phase lies in [0, 2π) |
| PathIntegral.WrapPhasePeriodic | src/scenes/ScenePathIntegral.jsx:127 | phases that differ by 2πk, for any integer k, wrap to the same angle |
| PathIntegral.Hue | src/scenes/ScenePathIntegral.jsx:74 | the hue lies in [0, 360) |
| PathIntegral.HuePeriodic | src/scenes/ScenePathIntegral.jsx:127 | hue(φ + 2πk) = hue(φ) for every integer k |
| PathIntegral.PhasorLength | src/scenes/ScenePathIntegral.jsx:122-125 | with cos² + sin² = 1 at the path's action, its phasor has length `scale` |
| PathIntegral.PhasorLengths | src/scenes/ScenePathIntegral.jsx:121-125 | with the Pythagorean identity, every phasor of the ensemble has length `scale`, whatever the action |
| PathIntegral.PrefixSum | src/scenes/ScenePathIntegral.jsx:117-137 | displacements that all agree add up to i times one of them: equal phases interfere fully constructively |
| PathIntegral.TipToTail | src/scenes/ScenePathIntegral.jsx:117-137 | the running-sum loop draws segment i from the sum of the first i displacements to the sum of the first i + 1, and ends at the full sum |
| PathIntegral.ChainSteps | src/scenes/ScenePathIntegral.jsx:121-136 | each segment of such a chain is its displacement placed at the segment's start |
| PathIntegral.ChainConnected | src/scenes/ScenePathIntegral.jsx:117-145 | the chain starts at the origin, each segment starts at the previous tip, and the last ends at the resultant |
| PathIntegral.PhasorChain | src/scenes/ScenePathIntegral.jsx:117-145 | the chain starts at the centre, each path's phasor is drawn from the tip of the one before, and the resultant is the sum of all phasors |
| BornRule.Phase | src/scenes/SceneBornRule.jsx:17-18 | for t·speed ≥ 0 the phase lies in [0, 6), and for t·speed ≤ 0 it lies in (−6, 0] |
| BornRule.ViewAt | src/scenes/SceneBornRule.jsx:30 | the before view is shown iff the phase is below 3 |
| BornRule.NegativeTimeShowsBefore | src/scenes/SceneBornRule.jsx:18-30 | a non-positive t·speed always shows the before view |
| BornRule.FirstCycleViews | src/scenes/SceneBornRule.jsx:17-30 | in the first cycle, before is shown iff t·speed < 10 |
| BornRule.PhasePeriodic | src/scenes/SceneBornRule.jsx:17-18 | the phase repeats every 20/speed units of t |
| BornRule.PhaseUsesSpeedSquared | src/scenes/SceneBornRule.jsx:18 | measured in wall-clock seconds, the phase depends on speed² |
| BornRule.LabelsFollowBornRule | src/scenes/SceneBornRule.jsx:81-114 | the printed 36% and 64% are 100 × the squared amplitudes 0.6 and 0.8, and they sum to 100 |
| BornRule.ShownSpins | src/scenes/SceneBornRule.jsx:116-148 | both arrows are shown exactly before the measurement, and exactly the spin-down arrow after it |
| BornRule.CollapseIsAlwaysDown | src/scenes/SceneBornRule.jsx:81-148 | a reading of the arrow and label tables together: whenever the after view is on, the arrow shown is spin down, the outcome labelled more probable |
| Symmetry.Split | src/scenes/SceneSymmetry.jsx:75 | `split(" ")` gives at least one piece, and no piece contains a space |
| Symmetry.Join | src/scenes/SceneSymmetry.jsx:76-77 | `join(" ")` keeps every word and puts exactly one space between neighbours: its length is the letters plus n − 1 |
| Symmetry.JoinSplit | src/scenes/SceneSymmetry.jsx:75-77 | joining the pieces of a split with spaces gives back the string, for every string |
| Symmetry.SplitPrefix | src/scenes/SceneSymmetry.jsx:75 | a space-free prefix is glued onto the first piece of what follows |
| Symmetry.SplitJoin | src/scenes/SceneSymmetry.jsx:75-77 | splitting a join of space-free words gives back the words |
| Symmetry.JoinAppend | src/scenes/SceneSymmetry.jsx:76-77 | joining two non-empty runs of words puts one space between their joins |
| Symmetry.CeilHalf | src/scenes/SceneSymmetry.jsx:76 | the first line gets k words with n ≤ 2k ≤ n + 1 |
| Symmetry.WrapWords | src/scenes/SceneSymmetry.jsx:75-77 | for two or more words, line1 + " " + line2 is the join of the words; fewer words sit on line1 and line2 is empty |
| Symmetry.WrapIsBalanced | src/scenes/SceneSymmetry.jsx:76-77 | the two lines split the words into consecutive runs, the first at most one word longer |
| Symmetry.SubtitleRoundTrip | src/scenes/SceneSymmetry.jsx:75-77 | for two or more pieces, line1 + " " + line2 is the subtitle; for one piece, line2 is empty |
| Symmetry.Spacing | src/scenes/SceneSymmetry.jsx:51-55 | the gap between boxes is 0.02 w, positive for w > 0 |
| Symmetry.BoxX | src/scenes/SceneSymmetry.jsx:51-58 | box idx starts at w·(0.06 + 0.3·idx): the margin, then a width and a gap per earlier box |
| Symmetry.LayoutFillsWidth | src/scenes/SceneSymmetry.jsx:51-58 | the layout fills the width exactly, the boxes do not overlap, and the last ends at w − startX |
| Symmetry.LayoutIsMirrored | src/scenes/SceneSymmetry.jsx:51-58 | box 2 − idx is the mirror image of box idx |

## Left out

- Canvas drawing and sizing: every `ctx` call, device-pixel-ratio sizing, fonts and text. These are side effects with nothing to state.
- Frame scheduling and the React lifecycle (`requestAnimationFrame`, `useEffect`, `useState`, `useMemo`). The clock is an explicit step function driven by a sequence of timestamps.
- `performance.now()`: timestamps are parameters.
- Transcendental functions: `Math.sin`, `Math.cos`, `Math.log` and `Math.exp` are parameters or bounded inputs. The arrow-of-time entropy readout (SceneArrowOfTime.jsx:161-168) is not modelled.
- IEEE-754 floating point: all arithmetic is exact real arithmetic, so rounding effects are not modelled.
- `Math.random`: draws are input sequences with values in [0, 1).
- Node, qubit and path positions on screen, bar widths and other layout that only feeds drawing calls.
- The scenes that only draw (Mystery, Classical, Decoherence, Field2D, QFT, Wave1D, Phasor, BlochSphere, Spacetime, QuantumGravity, StringTheory, LoopQG, StandardModel). They are trigonometric drawing over constants.
- The rendered app draws the inline scenes of App.jsx, not the files under src/scenes. `App.DispatchTotal`, `App.DispatchInjective` and `App.PropsOf` are about which component each level gets; what that component draws is the inline one.
- The inline clock (App.jsx:316-331) and the inline emergent-gravity scene (App.jsx:2220-2318) match the modelled files, so their members describe the app as rendered.
- The inline network scene (App.jsx:956-1106) has no measurement window: `Network.CyclePhase` and `Network.MeasuringWindow` describe src/scenes/SceneNetwork.jsx only.
- The inline path-integral scene (App.jsx:678-821) has no classical-path search and no classical path drawn last: `PathIntegral.MinIdx` and `PathIntegral.DrawOrder` describe src/scenes/ScenePathIntegral.jsx only.
- The inline Born-rule scene (App.jsx:1737-1851) draws amplitude phasors with no before/after cycle; it only draws, so it is not modelled, and the `BornRule` module describes src/scenes/SceneBornRule.jsx only.
- The inline arrow-of-time scene (App.jsx:1532-1640) is a different scene from src/scenes/SceneArrowOfTime.jsx; its spreading cycle is modelled as `TimeArrowCycle`, its drawing is not.
- Level titles are kept; subtitles and the `INFO`/`DEEP` texts are static prose, so only their key sets are modelled.
- The companion texts and the Markdown, Card, Companion and Sidebar components are static prose or thin UI wrappers. The Sidebar's parameter updates duplicate App.jsx:381-397, which is modelled.
- Ring.ThreadsSound: the nested loops are modelled by the set of pairs they stroke plus the count of strokes (`Ring.Draws`). Drawing order and per-thread line widths are not modelled.
- PathIntegral.PhasorChain: positions are relative to the diagram's centre. The drawn coordinates add the constant centre to every point.
