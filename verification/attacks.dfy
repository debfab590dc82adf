/**
  The attack-map builder (`createPieceOccupationMaps` and its two copies for
  the scratch boards): for each colour and each square, how many of that
  colour's pieces reach the square. A piece reaches the squares it would
  capture on: a pawn its two forward diagonals, a knight or king its offset
  squares, a sliding piece every square of each ray up to and including the
  first occupied one, whatever its colour.
 */
module Attacks {
  import opened Squares
  import opened Board
  import opened Geometry

  /** The squares of one ray: empty squares, then the first occupied square, then stop. */
  function RayReach(b: Grid, s: Square, d: Delta, n: int): (r: seq<Square>)
    requires Valid(b) && OnBoard(s) && Unit(d) && n >= 1
    ensures forall t :: t in r ==> OnBoard(t)
    decreases 8 - n
  {
    var t := Shift(s, d, n);
    if !OnBoard(t) then []
    else if At(b, t) == Empty then [t] + RayReach(b, s, d, n + 1)
    else [t]
  }

  /** The rays of a direction list, in the order of the list. */
  function RaysReach(b: Grid, s: Square, dirs: seq<Delta>): (r: seq<Square>)
    requires Valid(b) && OnBoard(s) && AllUnit(dirs)
    ensures forall t :: t in r ==> OnBoard(t)
  {
    if |dirs| == 0 then [] else RayReach(b, s, dirs[0], 1) + RaysReach(b, s, dirs[1..])
  }

  /** The in-board squares of an offset table, in the order of the table. */
  function OffsetReach(s: Square, offs: seq<Delta>): (r: seq<Square>)
    ensures forall t :: t in r ==> OnBoard(t)
  {
    if |offs| == 0 then []
    else (if OnBoard(Step(s, offs[0])) then [Step(s, offs[0])] else []) + OffsetReach(s, offs[1..])
  }

  /**
    The pawn reach exactly as the engine guards it: the column is bounds-checked
    but the row only against 8, never against 0.
   */
  function PawnReachAsWritten(s: Square, c: Color): seq<Square> {
    var ty := s.y + Forward(c);
    (if ty < 8 && s.x - 1 >= 0 then [Sq(ty, s.x - 1)] else [])
      + (if ty < 8 && s.x + 1 < 8 then [Sq(ty, s.x + 1)] else [])
  }

  /** A White pawn standing on row 0 makes the as-written reach leave the board. */
  lemma PawnReachAsWrittenLeavesBoard()
    ensures Sq(-1, 2) in PawnReachAsWritten(Sq(0, 3), White)
    ensures !OnBoard(Sq(-1, 2))
  {
  }

  /** The pawn reach with the row bounds-checked on both sides. */
  function PawnReach(s: Square, c: Color): (r: seq<Square>)
    requires OnBoard(s)
    ensures forall t :: t in r ==> OnBoard(t)
  {
    var ty := s.y + Forward(c);
    (if 0 <= ty < 8 && s.x - 1 >= 0 then [Sq(ty, s.x - 1)] else [])
      + (if 0 <= ty < 8 && s.x + 1 < 8 then [Sq(ty, s.x + 1)] else [])
  }

  /** What the piece on `s` reaches; nothing for an empty square. */
  function Reach(b: Grid, s: Square): (r: seq<Square>)
    requires Valid(b) && OnBoard(s)
    ensures forall t :: t in r ==> OnBoard(t)
  {
    DirectionsAreUnit();
    match At(b, s)
    case Empty => []
    case Occ(c, k) =>
      match k
      case Pawn => PawnReach(s, c)
      case Knight => OffsetReach(s, KnightOffsets)
      case Bishop => RaysReach(b, s, BishopDirs)
      case Rook => RaysReach(b, s, RookDirs)
      case Queen => RaysReach(b, s, QueenDirs)
      case King => OffsetReach(s, KingOffsets)
  }

  function Occurrences(ts: seq<Square>, t: Square): (n: nat)
    ensures n > 0 <==> t in ts
  {
    if |ts| == 0 then 0 else (if ts[0] == t then 1 else 0) + Occurrences(ts[1..], t)
  }

  /**
    What each square number contributes to colour `c`'s counts: the reach of
    the piece on it when that piece has colour `c`, nothing otherwise.
   */
  function Reaches(b: Grid, c: Color): (rs: seq<seq<Square>>)
    requires Valid(b)
    ensures |rs| == 64
    ensures forall j :: 0 <= j < 64 ==> rs[j] == if IsColor(At(b, SqOf(j)), c) then Reach(b, SqOf(j)) else []
  {
    seq(64, j requires 0 <= j < 64 => if IsColor(At(b, SqOf(j)), c) then Reach(b, SqOf(j)) else [])
  }

  /** The count on `t` from the first `k` reach lists. */
  function CountIn(rs: seq<seq<Square>>, t: Square, k: int): nat
    requires 0 <= k <= |rs|
    decreases k
  {
    if k == 0 then 0 else CountIn(rs, t, k - 1) + Occurrences(rs[k - 1], t)
  }

  lemma {:induction false} CountInIff(rs: seq<seq<Square>>, t: Square, k: int)
    requires 0 <= k <= |rs|
    ensures CountIn(rs, t, k) != 0 <==> exists j :: 0 <= j < k && t in rs[j]
    decreases k
  {
    if k > 0 {
      CountInIff(rs, t, k - 1);
    }
  }

  function AttackCount(b: Grid, c: Color, t: Square): nat
    requires Valid(b)
  {
    var rs := Reaches(b, c);
    CountIn(rs, t, |rs|)
  }

  predicate Attacked(b: Grid, c: Color, t: Square)
    requires Valid(b)
  {
    AttackCount(b, c, t) != 0
  }

  /** The map after the first `k` squares have been added in. */
  function PartialMap(b: Grid, c: Color, k: int): (m: seq<seq<nat>>)
    requires Valid(b) && 0 <= k <= 64
    ensures ValidCounts(m)
    ensures forall t {:trigger CountAt(m, t)} :: OnBoard(t) ==> CountAt(m, t) == CountIn(Reaches(b, c), t, k)
  {
    var rs := Reaches(b, c);
    seq(8, y requires 0 <= y < 8 => seq(8, x requires 0 <= x < 8 => CountIn(rs, Sq(y, x), k)))
  }

  /** Colour `c`'s attack map of board `b`. */
  function AttackMap(b: Grid, c: Color): (m: seq<seq<nat>>)
    requires Valid(b)
    ensures ValidCounts(m)
    ensures forall t {:trigger CountAt(m, t)} :: OnBoard(t) ==> CountAt(m, t) == AttackCount(b, c, t)
  {
    PartialMap(b, c, |Reaches(b, c)|)
  }

  /** Add one to every listed square (the engine's `++` on each reached square). */
  function Bump(m: seq<seq<nat>>, ts: seq<Square>): (r: seq<seq<nat>>)
    requires ValidCounts(m)
    requires forall t :: t in ts ==> OnBoard(t)
    ensures ValidCounts(r)
    ensures forall t {:trigger CountAt(r, t)} :: OnBoard(t) ==> CountAt(r, t) == CountAt(m, t) + Occurrences(ts, t)
    decreases |ts|
  {
    if |ts| == 0 then m
    else
      var t := ts[0];
      assert t in ts && OnBoard(t);
      var m' := m[t.y := m[t.y][t.x := m[t.y][t.x] + 1]];
      Bump(m', ts[1..])
  }

  lemma CountsEqual(m: seq<seq<nat>>, m': seq<seq<nat>>)
    requires ValidCounts(m) && ValidCounts(m')
    requires forall t :: OnBoard(t) ==> CountAt(m, t) == CountAt(m', t)
    ensures m == m'
  {
    forall y | 0 <= y < 8
      ensures m[y] == m'[y]
    {
      assert forall x :: 0 <= x < 8 ==> m[y][x] == CountAt(m, Sq(y, x));
      assert forall x :: 0 <= x < 8 ==> m'[y][x] == CountAt(m', Sq(y, x));
    }
  }

  /** Adding the reach list of square number `k` advances the partial map by one square. */
  lemma PartialStep(b: Grid, c: Color, k: int)
    requires Valid(b) && 0 <= k < 64
    ensures Bump(PartialMap(b, c, k), Reaches(b, c)[k]) == PartialMap(b, c, k + 1)
  {
    CountsEqual(Bump(PartialMap(b, c, k), Reaches(b, c)[k]), PartialMap(b, c, k + 1));
  }

  /**
    `createPieceOccupationMaps`: both maps start at zero and every piece adds one
    to each square it reaches, scanning the board row by row. The result is, on
    every square, the number of the colour's pieces reaching it.
   */
  method CreatePieceOccupationMaps(b: Grid) returns (white: seq<seq<nat>>, black: seq<seq<nat>>)
    requires Valid(b)
    ensures white == AttackMap(b, White)
    ensures black == AttackMap(b, Black)
  {
    white := PartialMap(b, White, 0);
    black := PartialMap(b, Black, 0);
    var k := 0;
    while k < 64
      invariant 0 <= k <= 64
      invariant white == PartialMap(b, White, k)
      invariant black == PartialMap(b, Black, k)
    {
      white, black := AddSquare(b, k, white, black);
      k := k + 1;
    }
  }

  /** One step of the scan: the piece on square number `k`, if any, adds one to each square it reaches in its colour's map. */
  method AddSquare(b: Grid, k: int, white: seq<seq<nat>>, black: seq<seq<nat>>) returns (white': seq<seq<nat>>, black': seq<seq<nat>>)
    requires Valid(b) && 0 <= k < 64
    requires white == PartialMap(b, White, k) && black == PartialMap(b, Black, k)
    ensures white' == PartialMap(b, White, k + 1) && black' == PartialMap(b, Black, k + 1)
  {
    var s := SqOf(k);
    var cell := At(b, s);
    ScanStep(b, k);
    white', black' := white, black;
    if cell.Occ? {
      if cell.color == White {
        white' := Bump(white, Reach(b, s));
      } else {
        black' := Bump(black, Reach(b, s));
      }
    }
  }

  /** Square number `k` adds its piece's reach to that piece's colour and leaves the other map alone. */
  lemma ScanStep(b: Grid, k: int)
    requires Valid(b) && 0 <= k < 64
    ensures var s := SqOf(k);
      && (IsColor(At(b, s), White) ==> Bump(PartialMap(b, White, k), Reach(b, s)) == PartialMap(b, White, k + 1))
      && (IsColor(At(b, s), Black) ==> Bump(PartialMap(b, Black, k), Reach(b, s)) == PartialMap(b, Black, k + 1))
      && (!IsColor(At(b, s), White) ==> PartialMap(b, White, k) == PartialMap(b, White, k + 1))
      && (!IsColor(At(b, s), Black) ==> PartialMap(b, Black, k) == PartialMap(b, Black, k + 1))
  {
    PartialStep(b, White, k);
    PartialStep(b, Black, k);
    var s := SqOf(k);
    assert Reaches(b, White)[k] == if IsColor(At(b, s), White) then Reach(b, s) else [];
    assert Reaches(b, Black)[k] == if IsColor(At(b, s), Black) then Reach(b, s) else [];
  }

  /** A square is attacked by `c` exactly when some piece of `c` reaches it. */
  lemma AttackedIff(b: Grid, c: Color, t: Square)
    requires Valid(b)
    ensures Attacked(b, c, t) <==> exists s :: OnBoard(s) && IsColor(At(b, s), c) && t in Reach(b, s)
  {
    var rs := Reaches(b, c);
    CountInIff(rs, t, 64);
    if Attacked(b, c, t) {
      var j :| 0 <= j < 64 && t in rs[j];
      assert IsColor(At(b, SqOf(j)), c) && t in Reach(b, SqOf(j));
    }
    if exists s :: OnBoard(s) && IsColor(At(b, s), c) && t in Reach(b, s) {
      var s :| OnBoard(s) && IsColor(At(b, s), c) && t in Reach(b, s);
      assert t in rs[IndexOf(s)];
    }
  }

  /** Clear path: the squares `n0 .. n-1` steps along the ray are on the board and empty. */
  predicate ClearFrom(b: Grid, s: Square, d: Delta, n0: int, n: int)
    requires Valid(b) && Unit(d)
  {
    forall i :: n0 <= i < n ==> OnBoard(Shift(s, d, i)) && At(b, Shift(s, d, i)) == Empty
  }

  /** `t` is `n` steps along the ray, on the board, with a clear path from step `n0`. */
  predicate RaySees(b: Grid, s: Square, d: Delta, n0: int, n: int, t: Square)
    requires Valid(b) && Unit(d)
  {
    n >= n0 && OnBoard(Shift(s, d, n)) && t == Shift(s, d, n) && ClearFrom(b, s, d, n0, n)
  }

  /** Seeing past step `n0` needs step `n0` on the board, and empty. */
  lemma RaySeesFirst(b: Grid, s: Square, d: Delta, n0: int, n: int, t: Square)
    requires Valid(b) && Unit(d) && RaySees(b, s, d, n0, n, t)
    ensures OnBoard(Shift(s, d, n0))
    ensures n > n0 ==> At(b, Shift(s, d, n0)) == Empty
  {
  }

  /** A ray reaches exactly the squares with a clear path to them, occupied or not. */
  lemma {:induction false} RayReachExact(b: Grid, s: Square, d: Delta, n0: int, t: Square)
    requires Valid(b) && OnBoard(s) && Unit(d) && n0 >= 1
    ensures t in RayReach(b, s, d, n0) <==> exists n :: RaySees(b, s, d, n0, n, t)
    decreases 8 - n0
  {
    var u := Shift(s, d, n0);
    if !OnBoard(u) {
      if exists n :: RaySees(b, s, d, n0, n, t) {
        var n :| RaySees(b, s, d, n0, n, t);
        RaySeesFirst(b, s, d, n0, n, t);
        assert false;
      }
    } else if At(b, u) == Empty {
      ShiftBound(s, d, n0);
      RayReachExact(b, s, d, n0 + 1, t);
      if t in RayReach(b, s, d, n0) {
        if t == u {
          assert RaySees(b, s, d, n0, n0, t);
        } else {
          var n :| RaySees(b, s, d, n0 + 1, n, t);
          assert RaySees(b, s, d, n0, n, t);
        }
      }
      if exists n :: RaySees(b, s, d, n0, n, t) {
        var n :| RaySees(b, s, d, n0, n, t);
        if n > n0 {
          assert RaySees(b, s, d, n0 + 1, n, t);
        }
      }
    } else {
      if t == u {
        assert RaySees(b, s, d, n0, n0, t);
      }
      if exists n :: RaySees(b, s, d, n0, n, t) {
        var n :| RaySees(b, s, d, n0, n, t);
        RaySeesFirst(b, s, d, n0, n, t);
      }
    }
  }

  /** A list of rays reaches exactly the squares some ray of the list sees. */
  lemma {:induction false} RaysReachExact(b: Grid, s: Square, dirs: seq<Delta>, t: Square)
    requires Valid(b) && OnBoard(s) && AllUnit(dirs)
    ensures t in RaysReach(b, s, dirs) <==> exists i, n :: 0 <= i < |dirs| && RaySees(b, s, dirs[i], 1, n, t)
    decreases |dirs|
  {
    if |dirs| > 0 {
      RayReachExact(b, s, dirs[0], 1, t);
      RaysReachExact(b, s, dirs[1..], t);
      if exists i, n :: 0 <= i < |dirs| && RaySees(b, s, dirs[i], 1, n, t) {
        var i, n :| 0 <= i < |dirs| && RaySees(b, s, dirs[i], 1, n, t);
        if i > 0 {
          assert dirs[1..][i - 1] == dirs[i];
        }
      }
      if exists i, n :: 0 <= i < |dirs[1..]| && RaySees(b, s, dirs[1..][i], 1, n, t) {
        var i, n :| 0 <= i < |dirs[1..]| && RaySees(b, s, dirs[1..][i], 1, n, t);
        assert RaySees(b, s, dirs[i + 1], 1, n, t);
      }
    }
  }

  lemma {:induction false} OffsetReachExact(s: Square, offs: seq<Delta>, t: Square)
    ensures t in OffsetReach(s, offs) <==> OnBoard(t) && exists i :: 0 <= i < |offs| && t == Step(s, offs[i])
    decreases |offs|
  {
    if |offs| > 0 {
      OffsetReachExact(s, offs[1..], t);
      if OnBoard(t) && exists i :: 0 <= i < |offs| && t == Step(s, offs[i]) {
        var i :| 0 <= i < |offs| && t == Step(s, offs[i]);
        if i > 0 {
          assert t == Step(s, offs[1..][i - 1]);
        }
      }
      if exists i :: 0 <= i < |offs[1..]| && t == Step(s, offs[1..][i]) {
        var i :| 0 <= i < |offs[1..]| && t == Step(s, offs[1..][i]);
        assert t == Step(s, offs[i + 1]);
      }
    }
  }

  /** A pawn reaches its two forward diagonals on the board, never the square ahead. */
  lemma PawnReachExact(s: Square, c: Color, t: Square)
    requires OnBoard(s)
    ensures t in PawnReach(s, c) <==> OnBoard(t) && t.y == s.y + Forward(c) && Abs(t.x - s.x) == 1
    ensures Sq(s.y + Forward(c), s.x) !in PawnReach(s, c)
  {
  }

  /** A knight reaches exactly its jump squares on the board. */
  lemma KnightReachExact(s: Square, t: Square)
    ensures t in OffsetReach(s, KnightOffsets) <==> OnBoard(t) && KnightJump(s, t)
  {
    OffsetReachExact(s, KnightOffsets, t);
    KnightOffsetsExact(s, t);
  }

  /** A king reaches exactly its neighbouring squares on the board. */
  lemma KingReachExact(s: Square, t: Square)
    ensures t in OffsetReach(s, KingOffsets) <==> OnBoard(t) && KingStep(s, t)
  {
    OffsetReachExact(s, KingOffsets, t);
    KingOffsetsExact(s, t);
  }

  /** White's pieces fill rows 6 and 7, with pawns on row 6, as at the opening. */
  ghost predicate WhiteAtHome(b: Grid)
    requires Valid(b)
  {
    && (forall s {:trigger At(b, s)} :: OnBoard(s) ==> (IsColor(At(b, s), White) <==> s.y >= 6) && (s.y >= 6 ==> At(b, s).Occ?))
    && (forall x :: 0 <= x < 8 ==> At(b, Sq(6, x)) == Occ(White, Pawn))
  }

  /** With White's pieces at home every square a White piece reaches lies on rows 5 to 7. */
  lemma OpeningWhiteReach(b: Grid, s: Square, t: Square)
    requires Valid(b) && WhiteAtHome(b)
    requires OnBoard(s) && IsColor(At(b, s), White) && t in Reach(b, s)
    ensures t.y >= 5
  {
    DirectionsAreUnit();
    assert At(b, Sq(6, s.x)) == Occ(White, Pawn);
    match At(b, s).kind
    case Pawn => PawnReachExact(s, White, t);
    case Knight => KnightReachExact(s, t);
    case King => KingReachExact(s, t);
    case Bishop => OpeningRayReach(b, s, BishopDirs, t);
    case Rook => OpeningRayReach(b, s, RookDirs, t);
    case Queen => OpeningRayReach(b, s, QueenDirs, t);
  }

  /**
    A sliding piece on White's back rank is hemmed in at the opening: the first
    square of each of its rays is off the board or occupied, so that square is
    all the ray reaches.
   */
  lemma OpeningRayReach(b: Grid, s: Square, dirs: seq<Delta>, t: Square)
    requires Valid(b) && WhiteAtHome(b)
    requires OnBoard(s) && s.y == 7 && AllUnit(dirs) && t in RaysReach(b, s, dirs)
    ensures t.y >= 6
  {
    RaysReachExact(b, s, dirs, t);
    var i, n :| 0 <= i < |dirs| && RaySees(b, s, dirs[i], 1, n, t);
    RaySeesFirst(b, s, dirs[i], 1, n, t);
  }

  /** An offset table without repeats reaches each square once. */
  lemma {:induction false} OffsetReachNoRepeats(s: Square, offs: seq<Delta>)
    requires NoRepeats(offs)
    ensures NoRepeats(OffsetReach(s, offs))
    decreases |offs|
  {
    if |offs| > 0 {
      var u := Step(s, offs[0]);
      var head := if OnBoard(u) then [u] else [];
      var rest := OffsetReach(s, offs[1..]);
      assert NoRepeats(offs[1..]) by {
        forall i, j | 0 <= i < j < |offs[1..]| ensures offs[1..][i] != offs[1..][j] {
          assert offs[1..][i] == offs[i + 1] && offs[1..][j] == offs[j + 1];
        }
      }
      OffsetReachNoRepeats(s, offs[1..]);
      forall t | t in head ensures t !in rest {
        OffsetReachExact(s, offs[1..], t);
        forall i | 0 <= i < |offs[1..]| ensures t != Step(s, offs[1..][i]) {
          assert offs[1..][i] == offs[i + 1];
        }
      }
      NoRepeatsConcat(head, rest);
    }
  }

  /** A ray reaches each square once. */
  lemma {:induction false} RayReachNoRepeats(b: Grid, s: Square, d: Delta, n: int)
    requires Valid(b) && OnBoard(s) && Unit(d) && n >= 1
    ensures NoRepeats(RayReach(b, s, d, n))
    decreases 8 - n
  {
    var u := Shift(s, d, n);
    if OnBoard(u) && At(b, u) == Empty {
      ShiftBound(s, d, n);
      var rest := RayReach(b, s, d, n + 1);
      RayReachNoRepeats(b, s, d, n + 1);
      forall t | t in [u] ensures t !in rest {
        RayReachExact(b, s, d, n + 1, u);
        forall k | k >= n + 1 ensures Shift(s, d, k) != u {
          ShiftDistinct(s, d, d, k, n);
        }
      }
      NoRepeatsConcat([u], rest);
    }
  }

  /** The rays of a direction list without repeats reach each square once. */
  lemma {:induction false} RaysReachNoRepeats(b: Grid, s: Square, dirs: seq<Delta>)
    requires Valid(b) && OnBoard(s) && AllUnit(dirs) && NoRepeats(dirs)
    ensures NoRepeats(RaysReach(b, s, dirs))
    decreases |dirs|
  {
    if |dirs| > 0 {
      var first := RayReach(b, s, dirs[0], 1);
      var rest := RaysReach(b, s, dirs[1..]);
      assert NoRepeats(dirs[1..]) by {
        forall i, j | 0 <= i < j < |dirs[1..]| ensures dirs[1..][i] != dirs[1..][j] {
          assert dirs[1..][i] == dirs[i + 1] && dirs[1..][j] == dirs[j + 1];
        }
      }
      RayReachNoRepeats(b, s, dirs[0], 1);
      RaysReachNoRepeats(b, s, dirs[1..]);
      forall t | t in first ensures t !in rest {
        RayReachExact(b, s, dirs[0], 1, t);
        RaysReachExact(b, s, dirs[1..], t);
        var n :| RaySees(b, s, dirs[0], 1, n, t);
        forall i, k | 0 <= i < |dirs[1..]| && k >= 1 ensures Shift(s, dirs[1..][i], k) != t {
          assert dirs[1..][i] == dirs[i + 1];
          ShiftDistinct(s, dirs[i + 1], dirs[0], k, n);
        }
      }
      NoRepeatsConcat(first, rest);
    }
  }
}
