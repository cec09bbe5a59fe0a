/** The ring the entanglement-geometry scene (src/scenes/SceneEmergentGravity.jsx)
    places its twelve qubits on: distance around the ring, and the pairs its
    nested loops `for i … for j = i + 1 …` visit, kept by a pair test. The
    membership and count facts hold for any test that keeps exactly the pairs
    at most four positions apart; the scene's own threshold is shown to be
    such a test in module EmergentGravity. */
module Ring {

  const NumQubits: int := 12

  predicate IsQubit(i: int) {
    0 <= i < NumQubits
  }

  /** The shorter way round the ring between qubits i and j. */
  function WrappedDist(i: int, j: int): (d: int)
    ensures IsQubit(i) && IsQubit(j) && i != j ==> 1 <= d <= 6
    ensures IsQubit(i) && IsQubit(j) ==> 0 <= d
  {
    var distance := if i - j >= 0 then i - j else j - i;
    if distance < NumQubits - distance then distance else NumQubits - distance
  }

  /** Distance does not depend on the order of the two qubits. */
  lemma WrappedDistSymmetric(i: int, j: int)
    ensures WrappedDist(i, j) == WrappedDist(j, i)
  {
  }

  /** Qubits at most four positions apart around the ring. */
  predicate Close(i: int, j: int)
    requires IsQubit(i) && IsQubit(j)
  {
    WrappedDist(i, j) <= 4
  }

  /** For qubits i < j, closeness read off the gap j - i alone: the short way
      round is j - i itself when that is at most 4, and 12 - (j - i) when it
      is at least 8. */
  predicate Near(i: int, j: int) {
    j - i <= 4 || j - i >= 8
  }

  lemma NearIsClose(i: int, j: int)
    requires 0 <= i < j < NumQubits
    ensures Near(i, j) <==> Close(i, j)
  {
  }

  /** A pair test that, on pairs i < j of qubits, keeps exactly the close pairs. */
  ghost predicate PicksClose(keep: (int, int) -> bool) {
    forall i, j {:trigger keep(i, j)} :: 0 <= i < j < NumQubits ==> (keep(i, j) <==> Near(i, j))
  }

  /** The pairs the inner loop keeps in row i from column j on. */
  function RowThreads(keep: (int, int) -> bool, i: int, j: int): set<(int, int)>
    requires i < j <= NumQubits
    decreases NumQubits - j
  {
    if j == NumQubits then {}
    else if keep(i, j) then RowThreads(keep, i, j + 1) + {(i, j)}
    else RowThreads(keep, i, j + 1)
  }

  /** The pairs the nested loops keep from row i on. */
  function Threads(keep: (int, int) -> bool, i: int): set<(int, int)>
    requires 0 <= i <= NumQubits
    decreases NumQubits - i
  {
    if i == NumQubits then {} else RowThreads(keep, i, i + 1) + Threads(keep, i + 1)
  }

  /** A pair in row i, at column j or later, that passes the test. */
  predicate RowPasses(keep: (int, int) -> bool, p: (int, int), i: int, j: int) {
    p.0 == i && j <= p.1 < NumQubits && keep(p.0, p.1)
  }

  lemma {:induction false} RowThreadsSound(keep: (int, int) -> bool, i: int, j: int, p: (int, int))
    requires i < j <= NumQubits && p in RowThreads(keep, i, j)
    decreases NumQubits - j
    ensures RowPasses(keep, p, i, j)
  {
    if j < NumQubits && (p != (i, j) || !keep(i, j)) {
      RowThreadsSound(keep, i, j + 1, p);
    }
  }

  lemma {:induction false} RowThreadsComplete(keep: (int, int) -> bool, i: int, j: int, p: (int, int))
    requires i < j <= NumQubits && RowPasses(keep, p, i, j)
    decreases NumQubits - j
    ensures p in RowThreads(keep, i, j)
  {
    if p != (i, j) {
      RowThreadsComplete(keep, i, j + 1, p);
    }
  }

  /** A pair a < b of qubits, with a in row i or below, that passes the test. */
  predicate Passes(keep: (int, int) -> bool, p: (int, int), i: int) {
    i <= p.0 < p.1 < NumQubits && keep(p.0, p.1)
  }

  /** Every pair kept from row i on passes the test. */
  lemma {:induction false} ThreadsSound(keep: (int, int) -> bool, i: int, p: (int, int))
    requires 0 <= i <= NumQubits && p in Threads(keep, i)
    decreases NumQubits - i
    ensures Passes(keep, p, i)
  {
    if p in RowThreads(keep, i, i + 1) {
      RowThreadsSound(keep, i, i + 1, p);
    } else {
      ThreadsSound(keep, i + 1, p);
    }
  }

  /** Every pair from row i on that passes the test is kept. */
  lemma {:induction false} ThreadsComplete(keep: (int, int) -> bool, i: int, p: (int, int))
    requires 0 <= i <= NumQubits && Passes(keep, p, i)
    decreases NumQubits - i
    ensures p in Threads(keep, i)
  {
    if p.0 == i {
      RowThreadsComplete(keep, i, i + 1, p);
    } else {
      ThreadsComplete(keep, i + 1, p);
    }
  }

  /** With a test that picks the close pairs, the pairs kept from row i on
      are exactly the close pairs a < b with a in row i or below. */
  lemma ThreadsMembers(keep: (int, int) -> bool, i: int)
    requires PicksClose(keep)
    requires 0 <= i <= NumQubits
    ensures forall p: (int, int) :: p in Threads(keep, i) <==> i <= p.0 < p.1 < NumQubits && Near(p.0, p.1)
  {
    forall p | p in Threads(keep, i) ensures i <= p.0 < p.1 < NumQubits && Near(p.0, p.1) {
      ThreadsSound(keep, i, p);
    }
    forall p: (int, int) | i <= p.0 < p.1 < NumQubits && Near(p.0, p.1) ensures p in Threads(keep, i) {
      assert keep(p.0, p.1);
      ThreadsComplete(keep, i, p);
    }
  }

  /** With a test that picks the close pairs, the loops keep exactly the
      pairs a < b of qubits at most four positions apart around the ring. */
  lemma ClosePairsKept(keep: (int, int) -> bool)
    requires PicksClose(keep)
    ensures forall p: (int, int) :: p in Threads(keep, 0) <==>
      0 <= p.0 < p.1 < NumQubits && Close(p.0, p.1)
  {
    ThreadsMembers(keep, 0);
    forall p: (int, int) | 0 <= p.0 < p.1 < NumQubits
      ensures Near(p.0, p.1) <==> Close(p.0, p.1)
    {
      NearIsClose(p.0, p.1);
    }
  }

  /** How many times the inner loop's test passes in row i from column j on:
      one line is stroked for each. */
  function RowDraws(keep: (int, int) -> bool, i: int, j: int): int
    requires i < j <= NumQubits
    decreases NumQubits - j
  {
    if j == NumQubits then 0
    else (if keep(i, j) then 1 else 0) + RowDraws(keep, i, j + 1)
  }

  /** How many lines the nested loops stroke from row i on. */
  function Draws(keep: (int, int) -> bool, i: int): int
    requires 0 <= i <= NumQubits
    decreases NumQubits - i
  {
    if i == NumQubits then 0 else RowDraws(keep, i, i + 1) + Draws(keep, i + 1)
  }

  /** Each row strokes exactly as many lines as it keeps pairs: no pair is
      stroked twice. */
  lemma {:induction false} RowDrawsAreRowThreads(keep: (int, int) -> bool, i: int, j: int)
    requires i < j <= NumQubits
    decreases NumQubits - j
    ensures |RowThreads(keep, i, j)| == RowDraws(keep, i, j)
  {
    if j < NumQubits {
      RowDrawsAreRowThreads(keep, i, j + 1);
      if (i, j) in RowThreads(keep, i, j + 1) {
        RowThreadsSound(keep, i, j + 1, (i, j));
      }
    }
  }

  /** How many columns k in [j, 12) are close to i. */
  function NearInRow(i: int, j: int): int
    requires i < j <= NumQubits
    decreases NumQubits - j
  {
    if j == NumQubits then 0
    else (if Near(i, j) then 1 else 0) + NearInRow(i, j + 1)
  }

  /** With a test that picks the close pairs, row i strokes one line per
      close column. */
  lemma {:induction false} RowDrawsNear(keep: (int, int) -> bool, i: int, j: int)
    requires PicksClose(keep)
    requires 0 <= i < j <= NumQubits
    decreases NumQubits - j
    ensures RowDraws(keep, i, j) == NearInRow(i, j)
  {
    if j < NumQubits {
      RowDrawsNear(keep, i, j + 1);
      assert keep(i, j) <==> Near(i, j);
    }
  }

  /** The number of values k with a <= k < b. */
  function Span(a: int, b: int): int {
    if a < b then b - a else 0
  }

  function MinInt(a: int, b: int): int {
    if a < b then a else b
  }

  function MaxInt(a: int, b: int): int {
    if a < b then b else a
  }

  /** Row i from column j: the columns at most four to the right, and those
      at least eight to the right (close the other way round). */
  lemma {:induction false} NearInRowClosed(i: int, j: int)
    requires i < j <= NumQubits
    decreases NumQubits - j
    ensures NearInRow(i, j) == Span(j, MinInt(i + 5, NumQubits)) + Span(MaxInt(j, i + 8), NumQubits)
  {
    if j < NumQubits {
      NearInRowClosed(i, j + 1);
    }
  }

  /** The close pairs from row r on: 48, 40, 33, 27, 22, 18, 14, 10, 6, 3, 1. */
  function RowsTable(r: int): int {
    if r <= 0 then 48 else if r == 1 then 40 else if r == 2 then 33
    else if r == 3 then 27 else if r == 4 then 22 else if r == 5 then 18
    else if r == 6 then 14 else if r == 7 then 10 else if r == 8 then 6
    else if r == 9 then 3 else if r == 10 then 1 else 0
  }

  /** Each entry adds the close columns of its row to the entry below. */
  lemma RowsTableStep(r: int)
    requires 0 <= r < NumQubits
    ensures RowsTable(r) == NearInRow(r, r + 1) + RowsTable(r + 1)
  {
    NearInRowClosed(r, r + 1);
  }

  /** With a test that picks the close pairs, the lines stroked from row i on
      are the table's entry for row i. */
  lemma {:induction false} DrawsTable(keep: (int, int) -> bool, i: int)
    requires PicksClose(keep)
    requires 0 <= i <= NumQubits
    decreases NumQubits - i
    ensures Draws(keep, i) == RowsTable(i)
  {
    if i < NumQubits {
      DrawsTable(keep, i + 1);
      RowDrawsNear(keep, i, i + 1);
      RowsTableStep(i);
    }
  }

  /** Each line stroked from row i on joins a different pair. */
  lemma {:induction false} DrawsAreThreads(keep: (int, int) -> bool, i: int)
    requires 0 <= i <= NumQubits
    decreases NumQubits - i
    ensures |Threads(keep, i)| == Draws(keep, i)
  {
    if i < NumQubits {
      DrawsAreThreads(keep, i + 1);
      RowDrawsAreRowThreads(keep, i, i + 1);
      RowsDisjoint(keep, i);
    }
  }

  /** Row i's pairs all start at i; the rows below start further down. */
  lemma RowsDisjoint(keep: (int, int) -> bool, i: int)
    requires 0 <= i < NumQubits
    ensures RowThreads(keep, i, i + 1) !! Threads(keep, i + 1)
  {
    var row, below := RowThreads(keep, i, i + 1), Threads(keep, i + 1);
    forall p | p in row ensures p.0 == i {
      RowThreadsSound(keep, i, i + 1, p);
    }
    forall p | p in below ensures p.0 > i {
      ThreadsSound(keep, i + 1, p);
    }
  }

  lemma TableTop()
    ensures RowsTable(0) == 48
  {
  }

  lemma DrawCount(keep: (int, int) -> bool)
    requires PicksClose(keep)
    ensures Draws(keep, 0) == 48
  {
    DrawsTable(keep, 0);
    TableTop();
  }

  /** Whatever test picks the close pairs, the loops stroke 48 lines, one for
      each of 48 distinct pairs out of the 66. */
  lemma ThreadCount(keep: (int, int) -> bool)
    requires PicksClose(keep)
    ensures Draws(keep, 0) == 48
    ensures |Threads(keep, 0)| == 48
  {
    DrawCount(keep);
    DrawsAreThreads(keep, 0);
  }
}
