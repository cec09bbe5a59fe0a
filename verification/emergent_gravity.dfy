/** The entanglement-geometry scene (src/scenes/SceneEmergentGravity.jsx):
    twelve qubits on a ring, and a thread between two qubits whenever their
    entanglement, which falls with their distance around the ring, exceeds a
    threshold. The sine that animates opacities is an input bounded by [-1, 1]. */
module EmergentGravity {
  import opened JsMath

  import opened Ring

  /** `1 / (1 + d * 0.5)`. */
  function Entanglement(d: int): (e: real)
    requires 0 <= d
    ensures 0.0 < e <= 1.0
    ensures 1 <= d ==> e <= 2.0 / 3.0
  {
    var denom := 1.0 + d as real * 0.5;
    assert 1 <= d ==> AtMostTwoThirds(denom) by {
      if 1 <= d { DivideBound(denom); }
    }
    1.0 / denom
  }

  ghost predicate AtMostTwoThirds(denom: real) {
    denom >= 1.5 && 1.0 / denom <= 2.0 / 3.0
  }

  lemma DivideBound(denom: real)
    requires denom >= 1.5
    ensures AtMostTwoThirds(denom)
  {
    assert 1.0 / denom * denom == 1.0;
    MulMonotone(1.0 / denom, 1.5, denom);
  }

  /** Entanglement falls strictly with distance. */
  lemma EntanglementDecreasing(d1: int, d2: int)
    requires 0 <= d1 < d2
    ensures Entanglement(d2) < Entanglement(d1)
  {
    var a := 1.0 + d1 as real * 0.5;
    var b := 1.0 + d2 as real * 0.5;
    assert 1.0 / a - 1.0 / b == (b - a) / (a * b);
    assert a * b > 0.0;
  }

  /** The threshold `entanglement > 0.3` keeps exactly the pairs at most four
      positions apart. */
  lemma ThresholdIsDistance(d: int)
    requires 0 <= d
    ensures Entanglement(d) > 0.3 <==> d <= 4
  {
    var denom := 1.0 + d as real * 0.5;
    assert 1.0 / denom * denom == 1.0;
    if d <= 4 {
      assert denom <= 3.0;
      MulMonotone(1.0 / denom, denom, 3.0);
    } else {
      assert denom >= 3.5;
      MulMonotone(1.0 / denom, 3.5, denom);
    }
  }

  /** A thread is drawn between i and j: the test inside the nested loops,
      which holds exactly for qubits at most four apart around the ring. */
  predicate HasThread(i: int, j: int)
    requires IsQubit(i) && IsQubit(j)
    ensures HasThread(i, j) <==> Close(i, j)
  {
    ThresholdIsDistance(WrappedDist(i, j));
    Entanglement(WrappedDist(i, j)) > 0.3
  }

  /** The loop test as a total function of two indices, as the loops pass it on. */
  predicate DrawsThread(i: int, j: int)
    ensures DrawsThread(i, j) <==> IsQubit(i) && IsQubit(j) && Close(i, j)
  {
    IsQubit(i) && IsQubit(j) && HasThread(i, j)
  }

  /** The scene's threshold keeps exactly the close pairs. */
  lemma ThresholdPicksClose()
    ensures PicksClose(DrawsThread)
  {
    forall i, j | 0 <= i < j < NumQubits
      ensures DrawsThread(i, j) <==> Near(i, j)
    {
      ThresholdIsDistance(WrappedDist(i, j));
      NearIsClose(i, j);
    }
  }

  /** The pairs the scene joins by a thread. */
  function SceneThreads(): set<(int, int)> {
    Threads(DrawsThread, 0)
  }

  /** The scene draws a thread between qubits a < b exactly when they are at
      most four positions apart around the ring. */
  lemma SceneThreadsAreClosePairs()
    ensures forall p: (int, int) :: p in SceneThreads() <==>
      0 <= p.0 < p.1 < NumQubits && Close(p.0, p.1)
  {
    ThresholdPicksClose();
    ClosePairsKept(DrawsThread);
  }

  /** The scene strokes 48 lines, joining 48 distinct pairs of the 66. */
  lemma SceneThreadCount()
    ensures Draws(DrawsThread, 0) == 48
    ensures |SceneThreads()| == 48
  {
    ThresholdPicksClose();
    ThreadCount(DrawsThread);
  }

  /** The qubit opacity `sin(...) * 0.3 + 0.7`, for a sine value s. */
  function Pulse(s: real): (a: real)
    ensures -1.0 <= s <= 1.0 ==> 0.4 <= a <= 1.0
  {
    s * 0.3 + 0.7
  }

  /** A thread's opacity `entanglement * phase * 0.5`, with phase the pulse. */
  function ThreadAlpha(i: int, j: int, s: real): (a: real)
    requires IsQubit(i) && IsQubit(j) && i != j
    ensures -1.0 <= s <= 1.0 ==> 0.0 < a <= 1.0 / 3.0
  {
    var e := Entanglement(WrappedDist(i, j));
    var phase := Pulse(s);
    assert -1.0 <= s <= 1.0 ==> 0.0 < e * phase <= 2.0 / 3.0 by {
      if -1.0 <= s <= 1.0 {
        MulMonotone(e, phase, 1.0);
        MulMonotone(phase, e, 2.0 / 3.0);
      }
    }
    e * phase * 0.5
  }
}
