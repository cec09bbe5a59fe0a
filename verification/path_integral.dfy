/** The sum-over-histories scene (src/scenes/ScenePathIntegral.jsx): fifty
    random paths between fixed endpoints, each with its discretised action;
    the path of least |S| is drawn last as the classical one, and the unit
    phasors e^{iS} are added tip to tail. `Math.random` draws are an input;
    `Math.cos` and `Math.sin` are function parameters. */
module PathIntegral {
  import opened JsMath

  const NumPaths: nat := 50
  const Steps: nat := 40
  const X0: real := -1.2
  const X1: real := 1.2
  const Mass: real := 1.0
  /** The time step `T / (steps - 1)` for the duration T = 1.6, written out
      as 1.6 / 39. */
  const Dt: real := 1.6 / 39.0

  /** The mean advance per step, `(x1 - x0) / steps`. */
  const Drift: real := (X1 - X0) / Steps as real

  predicate AllNoise(rs: seq<real>) {
    forall i :: 0 <= i < |rs| ==> IsNoise(rs[i])
  }

  /** One interior step: `prev + drift + 0.12 * (r - 0.5)`. */
  function Next(prev: real, r: real): (x: real)
    ensures IsNoise(r) ==> 0.0 <= x - prev < 0.12
  {
    prev + Drift + 0.12 * (r - 0.5)
  }

  /** The interior samples that follow `prev`, one per draw. */
  function Walk(prev: real, rs: seq<real>): (xs: seq<real>)
    decreases |rs|
    ensures |xs| == |rs|
    ensures |rs| > 0 ==> xs[0] == Next(prev, rs[0])
    ensures forall s :: 0 < s < |xs| ==> xs[s] == Next(xs[s - 1], rs[s])
  {
    if |rs| == 0 then [] else
      var x := Next(prev, rs[0]);
      [x] + Walk(x, rs[1..])
  }

  /** A sample path: the fixed start, 38 noisy interior samples, the fixed end. */
  function MakePath(rs: seq<real>): (xs: seq<real>)
    requires |rs| == Steps - 2
    ensures |xs| == Steps
    ensures xs[0] == X0 && xs[Steps - 1] == X1
    ensures AllNoise(rs) ==> forall s :: 1 <= s < Steps - 1 ==> 0.0 <= xs[s] - xs[s - 1] < 0.12
  {
    var w := Walk(X0, rs);
    var xs := [X0] + w + [X1];
    assert forall s :: 1 <= s < Steps - 1 ==> xs[s] == w[s - 1];
    xs
  }

  /** The potential `0.5 (x^2 - 1)^2 + 0.15 cos(3x)`. */
  function Potential(cos: real -> real, x: real): real {
    0.5 * (x * x - 1.0) * (x * x - 1.0) + 0.15 * cos(3.0 * x)
  }

  /** The discrete Lagrangian of the segment from a to b, kinetic minus
      potential energy at its midpoint: the kinetic part is never negative,
      and a segment that does not move has only the potential term. */
  function Lagrangian(cos: real -> real, a: real, b: real): (l: real)
    ensures l + Potential(cos, 0.5 * (b + a)) >= 0.0
    ensures a == b ==> l == -Potential(cos, a)
  {
    var dx := b - a;
    var v := dx / Dt;
    assert 0.5 * Mass * v * v >= 0.0;
    0.5 * Mass * v * v - Potential(cos, 0.5 * (b + a))
  }

  /** The action accumulated over the first n samples: one term L dt per
      segment between consecutive samples. When no segment has a negative
      Lagrangian, the action is not negative either. */
  function ActionPrefix(cos: real -> real, xs: seq<real>, n: nat): (S: real)
    requires n <= |xs|
    ensures (forall s :: 1 <= s < n ==> Lagrangian(cos, xs[s - 1], xs[s]) >= 0.0) ==> S >= 0.0
  {
    if n <= 1 then 0.0 else
      var l := Lagrangian(cos, xs[n - 2], xs[n - 1]);
      assert l >= 0.0 ==> l * Dt >= 0.0;
      ActionPrefix(cos, xs, n - 1) + l * Dt
  }

  /** The action as the scene computes it, by a loop over the segments. */
  method ComputeAction(cos: real -> real, xs: seq<real>) returns (S: real)
    ensures S == ActionPrefix(cos, xs, |xs|)
  {
    S := 0.0;
    if |xs| == 0 {
      return;
    }
    var s := 1;
    while s < |xs|
      invariant 1 <= s <= |xs|
      invariant S == ActionPrefix(cos, xs, s)
    {
      var L := Lagrangian(cos, xs[s - 1], xs[s]);
      S := S + L * Dt;
      s := s + 1;
    }
  }

  /** Extending a path by one sample adds exactly one segment's term. */
  lemma ActionAddsSegment(cos: real -> real, xs: seq<real>, x: real)
    requires |xs| > 0
    ensures ActionPrefix(cos, xs + [x], |xs| + 1)
         == ActionPrefix(cos, xs, |xs|) + Lagrangian(cos, xs[|xs| - 1], x) * Dt
  {
    ActionPrefixOfPrefix(cos, xs, xs + [x], |xs|);
  }

  /** The action of the first n samples depends on nothing after them. */
  lemma {:induction false} ActionPrefixOfPrefix(cos: real -> real, xs: seq<real>, ys: seq<real>, n: nat)
    requires n <= |xs| && n <= |ys| && xs[..n] == ys[..n]
    ensures ActionPrefix(cos, xs, n) == ActionPrefix(cos, ys, n)
  {
    if n > 1 {
      assert xs[..n - 1] == ys[..n - 1] by {
        assert xs[..n - 1] == xs[..n][..n - 1];
        assert ys[..n - 1] == ys[..n][..n - 1];
      }
      assert xs[n - 2] == xs[..n][n - 2] && ys[n - 2] == ys[..n][n - 2];
      assert xs[n - 1] == xs[..n][n - 1] && ys[n - 1] == ys[..n][n - 1];
      ActionPrefixOfPrefix(cos, xs, ys, n - 1);
    }
  }

  datatype PathData = PathData(xs: seq<real>, S: real)

  /** The ensemble computed once on mount, path k from draw row k. */
  function Ensemble(cos: real -> real, noise: seq<seq<real>>): (ps: seq<PathData>)
    requires |noise| == NumPaths
    requires forall k :: 0 <= k < |noise| ==> |noise[k]| == Steps - 2
    ensures |ps| == NumPaths
    ensures forall k :: 0 <= k < |ps| ==>
      |ps[k].xs| == Steps && ps[k].xs[0] == X0 && ps[k].xs[Steps - 1] == X1
      && ps[k].S == ActionPrefix(cos, ps[k].xs, Steps)
  {
    seq(NumPaths, k requires 0 <= k < NumPaths =>
      var xs := MakePath(noise[k]); PathData(xs, ActionPrefix(cos, xs, |xs|)))
  }

  /** k holds the least |S| and no earlier index ties with it. */
  predicate IsFirstMinAbs(ss: seq<real>, k: int) {
    0 <= k < |ss|
    && (forall j :: 0 <= j < |ss| ==> Abs(ss[k]) <= Abs(ss[j]))
    && (forall j :: 0 <= j < k ==> Abs(ss[j]) > Abs(ss[k]))
  }

  /** The best |S| seen so far: `Infinity` before the first comparison. */
  datatype Best = Infinity | Finite(v: real)

  predicate Below(x: real, best: Best) {
    best.Infinity? || Abs(x) < Abs(best.v)
  }

  /** The classical-path search: a strict `|S| < |minS|` comparison from
      `minS = Infinity, minIdx = 0`, so the earliest minimiser wins. */
  method MinIdx(ss: seq<real>) returns (idx: nat)
    ensures |ss| == 0 ==> idx == 0
    ensures |ss| > 0 ==> IsFirstMinAbs(ss, idx)
    ensures forall k :: IsFirstMinAbs(ss, k) <==> |ss| > 0 && k == idx
  {
    var minS := Infinity;
    idx := 0;
    var i := 0;
    while i < |ss|
      invariant 0 <= i <= |ss|
      invariant i == 0 <==> minS.Infinity?
      invariant i == 0 ==> idx == 0
      invariant i > 0 ==> idx < i && minS == Finite(ss[idx])
      invariant i > 0 ==> forall j :: 0 <= j < i ==> Abs(ss[idx]) <= Abs(ss[j])
      invariant i > 0 ==> forall j :: 0 <= j < idx ==> Abs(ss[j]) > Abs(ss[idx])
    {
      if Below(ss[i], minS) {
        minS := Finite(ss[i]);
        idx := i;
      }
      i := i + 1;
    }
  }

  /** Indices from i up to n, skipping `skip`, in increasing order. */
  function Others(i: nat, n: nat, skip: nat): (r: seq<nat>)
    requires i <= n
    decreases n - i
    ensures |r| == if i <= skip < n then n - i - 1 else n - i
    ensures forall a :: 0 <= a < |r| ==> i <= r[a] < n && r[a] != skip
    ensures forall a, b :: 0 <= a < b < |r| ==> r[a] < r[b]
    ensures forall k :: i <= k < n && k != skip ==> k in r
  {
    if i == n then []
    else (if i == skip then [] else [i]) + Others(i + 1, n, skip)
  }

  /** The path view's drawing order: every other path in index order, then
      the classical path on top. It is a permutation of the path indices:
      n entries, each index exactly once, the classical one last. */
  function DrawOrder(n: nat, classical: nat): (order: seq<nat>)
    requires classical < n
    ensures |order| == n
    ensures order[n - 1] == classical
    ensures forall a :: 0 <= a < n ==> order[a] < n
    ensures forall k :: 0 <= k < n ==> k in order
    ensures forall a, b :: 0 <= a < b < n ==> order[a] != order[b]
  {
    Others(0, n, classical) + [classical]
  }

  /** A phase wrapped into one turn by the idiom `((phi % 2pi) + 2pi) % 2pi`. */
  function WrapPhase(phi: real): (w: real)
    ensures 0.0 <= w < TwoPi
  {
    JsRem(JsRem(phi, TwoPi) + TwoPi, TwoPi)
  }

  /** Phases that differ by whole turns wrap to the same angle, negative ones
      included. */
  lemma WrapPhasePeriodic(phi: real, k: int)
    ensures WrapPhase(phi + TwoPi * k as real) == WrapPhase(phi)
  {
    WrapIdiomPeriodic(phi, TwoPi, k);
  }

  /** The colour of a phase: the wrapped phase as a fraction of a turn, times 360. */
  function Hue(phi: real): (h: real)
    ensures 0.0 <= h < 360.0
  {
    var wrapped := WrapPhase(phi);
    var f := wrapped / TwoPi;
    assert 0.0 <= f < 1.0 by {
      assert TwoPi * f == wrapped;
      FractionBounds(wrapped, TwoPi, f);
    }
    f * 360.0
  }

  /** Phases that differ by whole turns get the same colour. */
  lemma HuePeriodic(phi: real, k: int)
    ensures Hue(phi + TwoPi * k as real) == Hue(phi)
  {
    WrapPhasePeriodic(phi, k);
  }

  datatype Vec = Vec(x: real, y: real)

  function Plus(u: Vec, v: Vec): Vec {
    Vec(u.x + v.x, u.y + v.y)
  }

  /** The sum of the first i displacements. Displacements that all agree
      add up to i times one of them: phasors of equal phase interfere fully
      constructively. */
  function PrefixSum(ds: seq<Vec>, i: nat): (r: Vec)
    requires i <= |ds|
    ensures 0 < i && (forall k :: 0 <= k < i ==> ds[k] == ds[0]) ==>
      r == Vec(i as real * ds[0].x, i as real * ds[0].y)
  {
    if i == 0 then Vec(0.0, 0.0) else
      var r := Plus(PrefixSum(ds, i - 1), ds[i - 1]);
      assert (i - 1) as real * ds[0].x + ds[0].x == i as real * ds[0].x;
      assert (i - 1) as real * ds[0].y + ds[0].y == i as real * ds[0].y;
      r
  }

  /** Path k's phasor: length `scale`, angle S_k. */
  function Phasor(cos: real -> real, sin: real -> real, scale: real, S: real): Vec {
    Vec(scale * cos(S), scale * sin(S))
  }

  function Phasors(cos: real -> real, sin: real -> real, scale: real, ss: seq<real>): (ds: seq<Vec>)
    ensures |ds| == |ss|
    ensures forall k :: 0 <= k < |ss| ==> ds[k] == Phasor(cos, sin, scale, ss[k])
  {
    seq(|ss|, k requires 0 <= k < |ss| => Phasor(cos, sin, scale, ss[k]))
  }

  /** The squared length of a vector. */
  function Norm2(v: Vec): real {
    v.x * v.x + v.y * v.y
  }

  /** A phasor at an angle where cos^2 + sin^2 = 1 has length `scale`. */
  lemma PhasorLength(cos: real -> real, sin: real -> real, scale: real, S: real)
    requires cos(S) * cos(S) + sin(S) * sin(S) == 1.0
    ensures Norm2(Phasor(cos, sin, scale, S)) == scale * scale
  {
    var c, s := cos(S), sin(S);
    assert (scale * c) * (scale * c) == (scale * scale) * (c * c);
    assert (scale * s) * (scale * s) == (scale * scale) * (s * s);
    assert (scale * scale) * (c * c) + (scale * scale) * (s * s) == (scale * scale) * (c * c + s * s);
  }

  /** Every phasor of the ensemble has length `scale`, whatever its path's
      action, when `cos` and `sin` satisfy the Pythagorean identity; the
      phasors differ only in direction. */
  lemma PhasorLengths(cos: real -> real, sin: real -> real, scale: real, ss: seq<real>)
    requires forall x :: cos(x) * cos(x) + sin(x) * sin(x) == 1.0
    ensures forall k :: 0 <= k < |ss| ==> Norm2(Phasors(cos, sin, scale, ss)[k]) == scale * scale
  {
    var ds := Phasors(cos, sin, scale, ss);
    forall k | 0 <= k < |ss| ensures Norm2(ds[k]) == scale * scale {
      PhasorLength(cos, sin, scale, ss[k]);
    }
  }

  datatype Segment = Segment(from: Vec, to: Vec)

  /** Drawing displacements tip to tail, as the scene's loop does with a
      running sum: segment i runs from the sum of the first i displacements to
      the sum of the first i + 1, and the resultant is the sum of them all. */
  method TipToTail(ds: seq<Vec>) returns (segs: seq<Segment>, resultant: Vec)
    ensures |segs| == |ds|
    ensures forall i :: 0 <= i < |ds| ==> segs[i] == Segment(PrefixSum(ds, i), PrefixSum(ds, i + 1))
    ensures resultant == PrefixSum(ds, |ds|)
  {
    var sum := Vec(0.0, 0.0);
    segs := [];
    var i := 0;
    while i < |ds|
      invariant 0 <= i <= |ds|
      invariant |segs| == i
      invariant sum == PrefixSum(ds, i)
      invariant forall j :: 0 <= j < i ==> segs[j] == Segment(PrefixSum(ds, j), PrefixSum(ds, j + 1))
    {
      var next := Plus(sum, ds[i]);
      segs := segs + [Segment(sum, next)];
      sum := next;
      i := i + 1;
    }
    resultant := sum;
  }

  /** In such a chain each segment is its displacement placed at the segment's
      start. */
  lemma ChainSteps(ds: seq<Vec>, segs: seq<Segment>)
    requires |segs| == |ds|
    requires forall i :: 0 <= i < |ds| ==> segs[i] == Segment(PrefixSum(ds, i), PrefixSum(ds, i + 1))
    ensures forall i :: 0 <= i < |segs| ==> segs[i].to == Plus(segs[i].from, ds[i])
  {
    forall i | 0 <= i < |segs| ensures segs[i].to == Plus(segs[i].from, ds[i]) {
      assert segs[i] == Segment(PrefixSum(ds, i), PrefixSum(ds, i + 1));
    }
  }

  /** Such a chain starts at the origin, each segment starts at the tip of the
      one before, and the last ends at the sum of all the displacements. */
  lemma ChainConnected(ds: seq<Vec>, segs: seq<Segment>)
    requires |segs| == |ds|
    requires forall i :: 0 <= i < |ds| ==> segs[i] == Segment(PrefixSum(ds, i), PrefixSum(ds, i + 1))
    ensures |segs| > 0 ==> segs[0].from == Vec(0.0, 0.0) && segs[|segs| - 1].to == PrefixSum(ds, |ds|)
    ensures forall i :: 0 <= i < |segs| - 1 ==> segs[i].to == segs[i + 1].from
  {
    forall i | 0 <= i < |segs| - 1 ensures segs[i].to == segs[i + 1].from {
      assert segs[i].to == PrefixSum(ds, i + 1);
      assert segs[i + 1] == Segment(PrefixSum(ds, i + 1), PrefixSum(ds, i + 2));
    }
    if |segs| > 0 {
      assert segs[0] == Segment(PrefixSum(ds, 0), PrefixSum(ds, 1));
      assert segs[|segs| - 1] == Segment(PrefixSum(ds, |ds| - 1), PrefixSum(ds, |ds|));
    }
  }

  /** The phasor diagram, relative to its centre: each path's phasor drawn
      at the tip of the one before, in path order, and the resultant from the
      centre. */
  method PhasorChain(cos: real -> real, sin: real -> real, scale: real, ss: seq<real>)
    returns (segs: seq<Segment>, resultant: Vec)
    ensures |segs| == |ss|
    ensures forall i :: 0 <= i < |ss| ==> segs[i].to == Plus(segs[i].from, Phasor(cos, sin, scale, ss[i]))
    ensures |segs| > 0 ==> segs[0].from == Vec(0.0, 0.0)
    ensures forall i :: 0 <= i < |segs| - 1 ==> segs[i].to == segs[i + 1].from
    ensures resultant == PrefixSum(Phasors(cos, sin, scale, ss), |ss|)
  {
    var ds := Phasors(cos, sin, scale, ss);
    segs, resultant := TipToTail(ds);
    ChainSteps(ds, segs);
    ChainConnected(ds, segs);
  }
}
