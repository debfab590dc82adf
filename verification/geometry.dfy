/**
  The fixed offset tables of the engine and the board geometry they encode:
  knight jumps, king steps and the direction sets of the sliding pieces.
 */
module Geometry {
  import opened Squares

  /** A displacement in rows and columns. */
  datatype Delta = D(dy: int, dx: int)

  /** Knight offsets in the engine's order (its `offsetY`/`offsetX` pairs). */
  const KnightOffsets: seq<Delta> :=
    [D(-2, 1), D(-1, 2), D(1, 2), D(2, 1), D(2, -1), D(1, -2), D(-1, -2), D(-2, -1)]

  /** King offsets, also the queen's eight directions, in the engine's order. */
  const KingOffsets: seq<Delta> :=
    [D(-1, 0), D(-1, 1), D(0, 1), D(1, 1), D(1, 0), D(1, -1), D(0, -1), D(-1, -1)]

  const BishopDirs: seq<Delta> := [D(-1, 1), D(1, 1), D(1, -1), D(-1, -1)]

  const RookDirs: seq<Delta> := [D(-1, 0), D(0, 1), D(1, 0), D(0, -1)]

  const QueenDirs: seq<Delta> := KingOffsets

  /** A one-square direction: each component in -1..1, not both zero. */
  predicate Unit(d: Delta) {
    -1 <= d.dy <= 1 && -1 <= d.dx <= 1 && d != D(0, 0)
  }

  predicate AllUnit(dirs: seq<Delta>) {
    forall i :: 0 <= i < |dirs| ==> Unit(dirs[i])
  }

  function Step(s: Square, d: Delta): Square {
    Sq(s.y + d.dy, s.x + d.dx)
  }

  /** `n * k` for a unit component `k`, written without multiplication. */
  function Scale(n: int, k: int): int
    requires -1 <= k <= 1
  {
    if k > 0 then n else if k < 0 then -n else 0
  }

  /** The square `n` steps from `s` in direction `d`. */
  function Shift(s: Square, d: Delta, n: int): Square
    requires Unit(d)
  {
    Sq(s.y + Scale(n, d.dy), s.x + Scale(n, d.dx))
  }

  function Abs(n: int): nat {
    if n < 0 then -n else n
  }

  /** A knight's jump: two squares one way and one the other. */
  predicate KnightJump(s: Square, t: Square) {
    (Abs(t.y - s.y) == 1 && Abs(t.x - s.x) == 2) || (Abs(t.y - s.y) == 2 && Abs(t.x - s.x) == 1)
  }

  /** A king's step: to any neighbouring square. */
  predicate KingStep(s: Square, t: Square) {
    s != t && Abs(t.y - s.y) <= 1 && Abs(t.x - s.x) <= 1
  }

  predicate Diagonal(d: Delta) {
    d.dy != 0 && d.dx != 0
  }

  predicate Orthogonal(d: Delta) {
    (d.dy == 0) != (d.dx == 0)
  }

  /** The knight table lists exactly the knight jumps. */
  lemma KnightOffsetsExact(s: Square, t: Square)
    ensures (exists i :: 0 <= i < 8 && t == Step(s, KnightOffsets[i])) <==> KnightJump(s, t)
  {
    if KnightJump(s, t) {
      var dy, dx := t.y - s.y, t.x - s.x;
      var i := if dy == -2 && dx == 1 then 0 else if dy == -1 && dx == 2 then 1
        else if dy == 1 && dx == 2 then 2 else if dy == 2 && dx == 1 then 3
        else if dy == 2 && dx == -1 then 4 else if dy == 1 && dx == -2 then 5
        else if dy == -1 && dx == -2 then 6 else 7;
      assert t == Step(s, KnightOffsets[i]);
    }
  }

  /** The king table lists exactly the king steps. */
  lemma KingOffsetsExact(s: Square, t: Square)
    ensures (exists i :: 0 <= i < 8 && t == Step(s, KingOffsets[i])) <==> KingStep(s, t)
  {
    if KingStep(s, t) {
      var dy, dx := t.y - s.y, t.x - s.x;
      var i := if dy == -1 && dx == 0 then 0 else if dy == -1 && dx == 1 then 1
        else if dy == 0 && dx == 1 then 2 else if dy == 1 && dx == 1 then 3
        else if dy == 1 && dx == 0 then 4 else if dy == 1 && dx == -1 then 5
        else if dy == 0 && dx == -1 then 6 else 7;
      assert t == Step(s, KingOffsets[i]);
    }
  }

  /** Bishops slide along diagonals, rooks along ranks and files, queens along both. */
  lemma DirectionSets(d: Delta)
    ensures d in BishopDirs <==> Unit(d) && Diagonal(d)
    ensures d in RookDirs <==> Unit(d) && Orthogonal(d)
    ensures d in QueenDirs <==> Unit(d)
  {
  }

  lemma DirectionsAreUnit()
    ensures AllUnit(BishopDirs) && AllUnit(RookDirs) && AllUnit(QueenDirs)
  {
  }

  /** A square on the board reached by `n` unit steps from a square on the board has `n < 8`. */
  lemma ShiftBound(s: Square, d: Delta, n: int)
    requires OnBoard(s) && Unit(d) && n >= 0 && OnBoard(Shift(s, d, n))
    ensures n < 8
  {
  }

  /** No element of the sequence occurs twice. */
  predicate NoRepeats<T(==)>(xs: seq<T>) {
    forall i, j :: 0 <= i < j < |xs| ==> xs[i] != xs[j]
  }

  /** Two lists without repeats and without a common element join into one without repeats. */
  lemma NoRepeatsConcat<T>(a: seq<T>, b: seq<T>)
    requires NoRepeats(a) && NoRepeats(b)
    requires forall x :: x in a ==> x !in b
    ensures NoRepeats(a + b)
  {
    forall i, j | 0 <= i < j < |a + b| ensures (a + b)[i] != (a + b)[j] {
      if j >= |a| && i < |a| {
        assert (a + b)[i] == a[i] && (a + b)[j] == b[j - |a|];
        assert a[i] in a && b[j - |a|] in b;
      }
    }
  }

  lemma NoRepeatsTail<T>(xs: seq<T>)
    requires NoRepeats(xs) && |xs| > 0
    ensures NoRepeats(xs[1..]) && xs[0] !in xs[1..]
  {
    forall k | 0 <= k < |xs[1..]| ensures xs[1..][k] != xs[0] {
      assert xs[1..][k] == xs[k + 1];
    }
  }

  /** Each table names each offset once. */
  lemma TablesHaveNoRepeats()
    ensures NoRepeats(KnightOffsets) && NoRepeats(KingOffsets)
    ensures NoRepeats(BishopDirs) && NoRepeats(RookDirs) && NoRepeats(QueenDirs)
  {
  }

  /** Different steps along unit directions land on different squares. */
  lemma ShiftDistinct(s: Square, d: Delta, e: Delta, n: int, k: int)
    requires Unit(d) && Unit(e) && n >= 1 && k >= 1
    requires d != e || n != k
    ensures Shift(s, d, n) != Shift(s, e, k)
  {
  }
}
