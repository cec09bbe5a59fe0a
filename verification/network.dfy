/** The coupled-oscillator network (src/scenes/SceneNetwork.jsx): twenty
    nodes on a ring, joined by ring edges, cross links and one entangled pair;
    the nodes' phases, the edges' opacity, the amplitude-flow dots and the
    periodic "measured" highlight. Node positions (cos/sin of the ring angle)
    are drawing detail and are not modelled. */
module Network {
  import opened JsMath

  const N: nat := 20

  datatype Edge = Edge(a: int, b: int, w: real)

  datatype Node = Node(id: int, phi0: real, omega: real)

  /** The two nodes of the entangled pair. */
  const EntangledA: int := 5
  const EntangledB: int := 15

  /** `add(a, b, w)`: append the edge unless it would be a self-loop. */
  function Add(edges: seq<Edge>, a: int, b: int, w: real): (r: seq<Edge>)
    ensures |r| == if a == b then |edges| else |edges| + 1
    ensures r[..|edges|] == edges
    ensures forall i :: |edges| <= i < |r| ==> r[i] == Edge(a, b, w) && r[i].a != r[i].b
  {
    if a != b then edges + [Edge(a, b, w)] else edges
  }

  /** The ring edge out of node i. */
  function RingEdge(i: int): Edge {
    Edge(i, (i + 1) % N, 0.8)
  }

  /** The m-th cross link, out of node 3m (the nodes k with k % 3 == 0). */
  function CrossEdge(m: int): Edge {
    Edge(3 * m, (3 * m + 7) % N, 0.4)
  }

  const EntangledEdge: Edge := Edge(EntangledA, EntangledB, 1.0)

  /** The intended edge list, written in closed form. */
  function Edges(): (es: seq<Edge>)
    ensures |es| == 28
  {
    seq(20, i => RingEdge(i)) + seq(7, m => CrossEdge(m)) + [EntangledEdge]
  }

  /** The graph construction as the scene runs it: a loop over the ring,
      a loop over the cross-link candidates, then the entangled pair. */
  method BuildEdges() returns (edges: seq<Edge>)
    ensures edges == Edges()
  {
    edges := [];
    var i := 0;
    while i < N
      invariant 0 <= i <= N
      invariant edges == seq(i, j => RingEdge(j))
    {
      edges := Add(edges, i, (i + 1) % N, 0.8);
      i := i + 1;
    }
    var ring := edges;
    var k := 0;
    while k < N
      invariant 0 <= k <= N
      invariant edges == ring + seq((k + 2) / 3, m => CrossEdge(m))
    {
      if k % 3 == 0 {
        assert k == 3 * ((k + 2) / 3);
        edges := Add(edges, k, (k + 7) % N, 0.4);
      }
      k := k + 1;
    }
    edges := Add(edges, EntangledA, EntangledB, 1.0);
  }

  /** The same undirected link. */
  predicate SameLink(e: Edge, f: Edge) {
    (e.a == f.a && e.b == f.b) || (e.a == f.b && e.b == f.a)
  }

  /** Every endpoint is a node, there is no self-loop, and no undirected
      link appears twice. */
  lemma GraphWellFormed()
    ensures forall i :: 0 <= i < |Edges()| ==>
      0 <= Edges()[i].a < N && 0 <= Edges()[i].b < N && Edges()[i].a != Edges()[i].b
    ensures forall i, j :: 0 <= i < j < |Edges()| ==> !SameLink(Edges()[i], Edges()[j])
  {
    var es := Edges();
    forall i | 0 <= i < |es|
      ensures 0 <= es[i].a < N && 0 <= es[i].b < N && es[i].a != es[i].b
    {
      if i < 20 { assert es[i] == RingEdge(i); }
      else if i < 27 { assert es[i] == CrossEdge(i - 20); }
    }
    forall i, j | 0 <= i < j < |es| ensures !SameLink(es[i], es[j]) {
      if j < 20 {
        assert es[i] == RingEdge(i) && es[j] == RingEdge(j);
      } else if j < 27 {
        assert es[j] == CrossEdge(j - 20);
        if i < 20 {
          assert es[i] == RingEdge(i);
          CrossIsNotRing(j - 20, i);
        } else {
          assert es[i] == CrossEdge(i - 20);
        }
      } else {
        assert es[j] == EntangledEdge;
        if i < 20 { assert es[i] == RingEdge(i); }
        else { assert es[i] == CrossEdge(i - 20); }
      }
    }
  }

  /** A cross link spans 7 positions around the ring, a ring edge only 1. */
  lemma CrossIsNotRing(m: int, i: int)
    requires 0 <= m < 7 && 0 <= i < 20
    ensures !SameLink(CrossEdge(m), RingEdge(i))
  {
  }

  /** `isEntangled`: the edge joins the entangled pair, in either direction. */
  predicate IsEntangled(a: int, b: int) {
    (a == EntangledA && b == EntangledB) || (a == EntangledB && b == EntangledA)
  }

  /** Exactly one edge of the graph is entangled: the last one, of weight 1. */
  lemma EntangledEdgeUnique()
    ensures forall i :: 0 <= i < |Edges()| ==> (IsEntangled(Edges()[i].a, Edges()[i].b) <==> i == 27)
    ensures Edges()[27].w == 1.0
    ensures forall a, b :: IsEntangled(a, b) <==> IsEntangled(b, a)
  {
    var es := Edges();
    forall i | 0 <= i < |es| ensures IsEntangled(es[i].a, es[i].b) <==> i == 27 {
      if i < 20 { assert es[i] == RingEdge(i); }
      else if i < 27 { assert es[i] == CrossEdge(i - 20); }
    }
  }

  /** The nodes: initial phase (i / N) * pi / 2, common angular speed 0.8. */
  function Nodes(): (ns: seq<Node>)
    ensures |ns| == N
    ensures forall i :: 0 <= i < N ==> ns[i].id == i && ns[i].omega == 0.8
  {
    seq(N, i => Node(i, (i as real / N as real) * Pi * 0.5, 0.8))
  }

  function Phi(n: Node, t: real): real {
    n.phi0 + n.omega * t
  }

  /** Node 0's phase, the reference every node is compared against. */
  function RefPhi(t: real): real {
    Phi(Nodes()[0], t)
  }

  /** `graph.entangled.includes(idx)`. */
  predicate IsEntangledNode(idx: int) {
    idx == EntangledA || idx == EntangledB
  }

  /** Both entangled nodes are drawn exactly in phase with the reference;
      every other node is ahead of it by i * pi / 40, because all nodes turn
      at the same rate. */
  function SyncedPhi(idx: int, t: real): (phi: real)
    requires 0 <= idx < N
    ensures phi - RefPhi(t) == if IsEntangledNode(idx) then 0.0 else idx as real * Pi / 40.0
  {
    if IsEntangledNode(idx) then RefPhi(t) else Phi(Nodes()[idx], t)
  }

  /** The phase difference to the reference, which decides a node's colour,
      does not change over time. */
  lemma PhaseOffsets(idx: int, t: real, t': real)
    requires 0 <= idx < N
    ensures SyncedPhi(idx, t) - RefPhi(t) == SyncedPhi(idx, t') - RefPhi(t')
  {
  }

  /** The node fill: red (hue 10) when aligned with the reference, blue otherwise. */
  function NodeHue(phaseAlignment: real): (h: int)
    ensures h == 10 || h == 200
    ensures h == 10 <==> phaseAlignment > 0.0
  {
    if phaseAlignment > 0.0 then 10 else 200
  }

  /** With `cos(0) = 1`, the entangled nodes are always drawn red, and every
      node's colour is the same at all times. */
  lemma NodeColours(cos: real -> real, idx: int, t: real, t': real)
    requires cos(0.0) == 1.0
    requires 0 <= idx < N
    ensures IsEntangledNode(idx) ==> NodeHue(cos(SyncedPhi(idx, t) - RefPhi(t))) == 10
    ensures NodeHue(cos(SyncedPhi(idx, t) - RefPhi(t))) == NodeHue(cos(SyncedPhi(idx, t') - RefPhi(t')))
  {
    PhaseOffsets(idx, t, t');
  }

  /** The edge's stroke opacity, `0.2 + 0.6 * w * couple`. */
  function EdgeAlpha(w: real, couple: real): (alpha: real)
    ensures 0.0 <= w <= 1.0 && 0.0 <= couple <= 1.0 ==> 0.2 <= alpha <= 0.8
  {
    assert 0.0 <= w <= 1.0 && 0.0 <= couple <= 1.0 ==> 0.0 <= couple * w <= couple by {
      if 0.0 <= w <= 1.0 && 0.0 <= couple <= 1.0 {
        MulMonotone(couple, 0.0, w);
        MulMonotone(couple, w, 1.0);
      }
    }
    0.2 + 0.6 * w * couple
  }

  /** Every edge of the graph is drawn with an opacity in [0.2, 0.8] for any
      coupling the slider allows. */
  lemma EdgeAlphasInRange(couple: real)
    requires 0.0 <= couple <= 1.0
    ensures forall i :: 0 <= i < |Edges()| ==> 0.2 <= EdgeAlpha(Edges()[i].w, couple) <= 0.8
  {
    var es := Edges();
    forall i | 0 <= i < |es| ensures 0.0 <= es[i].w <= 1.0 {
      if i < 20 { assert es[i] == RingEdge(i); }
      else if i < 27 { assert es[i] == CrossEdge(i - 20); }
    }
  }

  /** The flow dots are drawn only above this coupling. */
  predicate FlowVisible(couple: real) {
    couple > 0.3
  }

  /** The flow dot of an edge from (x0, y0) to (x1, y1) whose first node is
      `a`, or none. */
  datatype Dot = NoDot | Dot(x: real, y: real)

  /** A dot is drawn exactly when the coupling exceeds 0.3, and for
      non-negative time it lies on the edge's segment. */
  function FlowDot(couple: real, t: real, a: int, x0: real, y0: real, x1: real, y1: real): (d: Dot)
    ensures d.Dot? <==> couple > 0.3
    ensures d.Dot? && 0.0 <= t && 0 <= a ==>
      Min(x0, x1) <= d.x <= Max(x0, x1) && Min(y0, y1) <= d.y <= Max(y0, y1)
  {
    if FlowVisible(couple) then
      var f := FlowPhase(t, a);
      Dot(Lerp(x0, x1, f), Lerp(y0, y1, f))
    else NoDot
  }

  /** How far along its edge the flow dot is, `(t * 2 + a * 0.5) % 1`. */
  function FlowPhase(t: real, a: int): (f: real)
    ensures 0.0 <= t && 0 <= a ==> 0.0 <= f < 1.0
  {
    JsRem(t * 2.0 + a as real * 0.5, 1.0)
  }

  /** Interpolation along the edge; a phase in [0, 1] keeps the dot on the segment. */
  function Lerp(p0: real, p1: real, f: real): (p: real)
    ensures 0.0 <= f <= 1.0 ==> Min(p0, p1) <= p <= Max(p0, p1)
    ensures f == 0.0 ==> p == p0
  {
    var x := Offset(p1 - p0, f);
    assert 0.0 <= f <= 1.0 ==> Min(p0, p1) <= p0 + x <= Max(p0, p1) by {
      if 0.0 <= f <= 1.0 {
        BetweenEnds(p0, p1, x);
      }
    }
    p0 + x
  }

  /** The offset `d * f` along a span d; for f in [0, 1] it stays within the span. */
  function Offset(d: real, f: real): (x: real)
    ensures 0.0 <= f <= 1.0 && 0.0 <= d ==> 0.0 <= x <= d
    ensures 0.0 <= f <= 1.0 && d <= 0.0 ==> d <= x <= 0.0
    ensures f == 0.0 ==> x == 0.0
  {
    SpanFraction(d, f, d * f);
    d * f
  }

  /** An offset within the span from p0 to p1 lands between the two ends. */
  lemma BetweenEnds(p0: real, p1: real, x: real)
    requires 0.0 <= p1 - p0 ==> 0.0 <= x <= p1 - p0
    requires p1 - p0 <= 0.0 ==> p1 - p0 <= x <= 0.0
    ensures Min(p0, p1) <= p0 + x <= Max(p0, p1)
  {
  }

  /** For non-negative time, every edge of the graph shows a flow dot exactly
      when the coupling exceeds 0.3, and the dot lies on the edge. */
  lemma FlowDotsOnEdges(couple: real, t: real, x0: real, y0: real, x1: real, y1: real, i: int)
    requires 0.0 <= t && 0 <= i < |Edges()|
    ensures var d := FlowDot(couple, t, Edges()[i].a, x0, y0, x1, y1);
      (d.Dot? <==> couple > 0.3)
      && (d.Dot? ==> Min(x0, x1) <= d.x <= Max(x0, x1) && Min(y0, y1) <= d.y <= Max(y0, y1))
  {
    GraphWellFormed();
  }

  /** The measurement cycle: `(t * speed * 0.5) % 8`. The clock already
      scales `t` by `speed`, so this multiplies by it a second time. */
  function CyclePhase(t: real, speed: real): (c: real)
    ensures 0.0 <= t * speed ==> 0.0 <= c < 8.0
  {
    JsRem(t * speed * 0.5, 8.0)
  }

  /** The highlight is shown strictly between 30% and 70% of the cycle. */
  predicate IsMeasuring(cyclePhase: real) {
    cyclePhase > 8.0 * 0.3 && cyclePhase < 8.0 * 0.7
  }

  /** Within the first cycle the highlight is on exactly while t * speed lies
      strictly between 4.8 and 11.2. */
  lemma {:induction false} MeasuringWindow(t: real, speed: real)
    requires 0.0 <= t * speed < 16.0
    ensures IsMeasuring(CyclePhase(t, speed)) <==> 4.8 < t * speed < 11.2
  {
    var x := t * speed * 0.5;
    JsRemIsEuclidModOnNonNegatives(x, 8.0);
    EuclidModUnique(x, 8.0, 0, x);
  }

  /** The cycle repeats every 16 / speed units of simulation time. */
  lemma {:induction false} CyclePeriodic(t: real, speed: real, k: nat)
    requires 0.0 <= t && 0.0 < speed
    ensures CyclePhase(t + 16.0 * k as real / speed, speed) == CyclePhase(t, speed)
  {
    assert (t + 16.0 * k as real / speed) * speed * 0.5 == t * speed * 0.5 + 8.0 * k as real;
    assert 0.0 <= t * speed;
    JsRemPeriodic(t * speed * 0.5, 8.0, k);
  }

  /** Measured in wall-clock seconds since mount, the cycle phase grows with
      the square of the speed: `t` already holds speed times the elapsed time. */
  lemma CycleUsesSpeedSquared(elapsed: real, speed: real)
    ensures CyclePhase(speed * elapsed, speed) == JsRem(speed * speed * elapsed * 0.5, 8.0)
  {
    assert speed * elapsed * speed * 0.5 == speed * speed * elapsed * 0.5;
  }
}
