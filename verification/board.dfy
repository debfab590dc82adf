/**
  The board state: an 8x8 grid of cells, each empty or holding one piece.
  The grid is the only record of where pieces stand; piece lists are derived
  from it by scanning.
 */
module Board {
  import opened Wrappers
  import opened Squares

  datatype Color = White | Black

  function Opp(c: Color): Color {
    if c == White then Black else White
  }

  datatype Kind = Pawn | Knight | Bishop | Rook | Queen | King

  datatype Cell = Empty | Occ(color: Color, kind: Kind)

  type Grid = seq<seq<Cell>>

  predicate Valid(b: Grid) {
    |b| == 8 && forall y :: 0 <= y < 8 ==> |b[y]| == 8
  }

  function At(b: Grid, s: Square): Cell
    requires Valid(b) && OnBoard(s)
  {
    b[s.y][s.x]
  }

  predicate IsColor(cell: Cell, c: Color) {
    cell.Occ? && cell.color == c
  }

  /** The letter a piece kind is written with, on the board and in move notation. */
  function Letter(k: Kind): char {
    match k
    case Pawn => 'P'
    case Knight => 'N'
    case Bishop => 'B'
    case Rook => 'R'
    case Queen => 'Q'
    case King => 'K'
  }

  /** The four letters a promotion suffix may name. */
  predicate IsPromotionLetter(ch: char) {
    ch == 'Q' || ch == 'R' || ch == 'N' || ch == 'B'
  }

  function PromotionKind(ch: char): (k: Kind)
    requires IsPromotionLetter(ch)
    ensures Letter(k) == ch && k != Pawn && k != King
  {
    if ch == 'Q' then Queen else if ch == 'R' then Rook else if ch == 'N' then Knight else Bishop
  }

  function Set(b: Grid, s: Square, cell: Cell): (r: Grid)
    requires Valid(b) && OnBoard(s)
    ensures Valid(r)
    ensures At(r, s) == cell
    ensures forall t {:trigger At(r, t)} :: OnBoard(t) && t != s ==> At(r, t) == At(b, t)
  {
    b[s.y := b[s.y][s.x := cell]]
  }

  /** The row a colour's pawns advance towards: White moves up the grid. */
  function Forward(c: Color): int {
    if c == White then -1 else 1
  }

  /** The row a colour's pawns start on (rank 2 for White, rank 7 for Black). */
  function PawnStartRow(c: Color): int {
    if c == White then 6 else 1
  }

  /** The row on which a colour's pawn promotes (rank 8 for White, rank 1 for Black). */
  function LastRow(c: Color): int {
    if c == White then 0 else 7
  }

  /** The row the colour's king and rooks start on. */
  function HomeRow(c: Color): int {
    if c == White then 7 else 0
  }

  /** No pawn stands on the row where it would promote. */
  ghost predicate NoPawnOnLastRow(b: Grid, c: Color)
    requires Valid(b)
  {
    forall s {:trigger At(b, s)} :: OnBoard(s) && At(b, s) == Occ(c, Pawn) ==> s.y != LastRow(c)
  }

  ghost predicate HasKing(b: Grid, c: Color)
    requires Valid(b)
  {
    exists s :: OnBoard(s) && At(b, s) == Occ(c, King)
  }

  /**
    King lookup by a row-major scan of the first `k` squares that keeps the LAST
    king found, as the engine's scan overwrites its coordinates on every hit.
   */
  function FindKingIn(b: Grid, c: Color, k: int): (r: Option<Square>)
    requires Valid(b) && 0 <= k <= 64
    ensures r.Some? ==> OnBoard(r.value) && At(b, r.value) == Occ(c, King)
    ensures r.Some? ==> forall j :: IndexOf(r.value) < j < k ==> At(b, SqOf(j)) != Occ(c, King)
    ensures r.None? <==> forall j :: 0 <= j < k ==> At(b, SqOf(j)) != Occ(c, King)
    decreases k
  {
    if k == 0 then None
    else if At(b, SqOf(k - 1)) == Occ(c, King) then
      IndexOfSqOf(k - 1);
      Some(SqOf(k - 1))
    else
      var r := FindKingIn(b, c, k - 1);
      KingScanMiss(b, c, k, r);
      r
  }

  /** Without a king on square number `k - 1`, the scan of `k` squares finds what the scan of `k - 1` found. */
  lemma KingScanMiss(b: Grid, c: Color, k: int, r: Option<Square>)
    requires Valid(b) && 0 < k <= 64 && At(b, SqOf(k - 1)) != Occ(c, King)
    requires r.Some? ==> OnBoard(r.value) && At(b, r.value) == Occ(c, King)
    requires r.Some? ==> forall j :: IndexOf(r.value) < j < k - 1 ==> At(b, SqOf(j)) != Occ(c, King)
    requires r.None? <==> forall j :: 0 <= j < k - 1 ==> At(b, SqOf(j)) != Occ(c, King)
    ensures r.Some? ==> forall j :: IndexOf(r.value) < j < k ==> At(b, SqOf(j)) != Occ(c, King)
    ensures r.None? <==> forall j :: 0 <= j < k ==> At(b, SqOf(j)) != Occ(c, King)
  {
  }

  function FindKing(b: Grid, c: Color): (r: Option<Square>)
    requires Valid(b)
    ensures r.Some? <==> HasKing(b, c)
    ensures r.Some? ==> OnBoard(r.value) && At(b, r.value) == Occ(c, King)
  {
    KingFoundWhenPresent(b, c);
    FindKingIn(b, c, |b| * |b|)
  }

  lemma KingFoundWhenPresent(b: Grid, c: Color)
    requires Valid(b)
    ensures HasKing(b, c) <==> exists j :: 0 <= j < 64 && At(b, SqOf(j)) == Occ(c, King)
  {
    if HasKing(b, c) {
      var s :| OnBoard(s) && At(b, s) == Occ(c, King);
      assert At(b, SqOf(IndexOf(s))) == Occ(c, King);
    }
  }

  /**
    `updateChessboard`: the origin becomes empty and the destination receives
    what stood on the origin (a capture overwrites the destination).
   */
  function MovePiece(b: Grid, from: Square, to: Square): (r: Grid)
    requires Valid(b) && OnBoard(from) && OnBoard(to)
    ensures Valid(r)
    ensures At(r, to) == At(b, from)
    ensures from != to ==> At(r, from) == Empty
    ensures forall t {:trigger At(r, t)} :: OnBoard(t) && t != from && t != to ==> At(r, t) == At(b, t)
  {
    Set(Set(b, from, Empty), to, At(b, from))
  }

  /**
    `movePieceToPosition`: the board is updated only when a piece stands on the
    origin; from an empty square nothing happens.
   */
  function MovePieceToPosition(b: Grid, from: Square, to: Square): (r: Grid)
    requires Valid(b) && OnBoard(from) && OnBoard(to)
    ensures Valid(r)
    ensures At(b, from).Empty? ==> r == b
    ensures At(b, from).Occ? ==> r == MovePiece(b, from, to)
  {
    if At(b, from).Occ? then MovePiece(b, from, to) else b
  }

  /**
    A move applied to a board: `updateChessboard` followed, for a promotion, by
    the write of `performPawnPromotion` (the mover's colour with the chosen kind).
    The scratch boards of the legality classifier use the same two steps.
   */
  function ApplyMove(b: Grid, from: Square, to: Square, promo: Option<Kind>): (r: Grid)
    requires Valid(b) && OnBoard(from) && OnBoard(to) && At(b, from).Occ?
    ensures Valid(r)
    ensures from != to ==> At(r, from) == Empty
    ensures promo.None? ==> At(r, to) == At(b, from)
    ensures promo.Some? ==> At(r, to) == Occ(At(b, from).color, promo.value)
    ensures forall t {:trigger At(r, t)} :: OnBoard(t) && t != from && t != to ==> At(r, t) == At(b, t)
  {
    var moved := MovePiece(b, from, to);
    match promo
    case None => moved
    case Some(k) => Set(moved, to, Occ(At(b, from).color, k))
  }

  /**
    A move of a piece that does not land on its own colour keeps every other
    piece of that colour, so a king of that colour is still on the board.
   */
  lemma ApplyKeepsOwnKing(b: Grid, from: Square, to: Square, promo: Option<Kind>)
    requires Valid(b) && OnBoard(from) && OnBoard(to) && At(b, from).Occ?
    requires !IsColor(At(b, to), At(b, from).color)
    requires promo.Some? ==> At(b, from).kind == Pawn
    requires HasKing(b, At(b, from).color)
    ensures HasKing(ApplyMove(b, from, to, promo), At(b, from).color)
  {
    var c := At(b, from).color;
    var r := ApplyMove(b, from, to, promo);
    var k :| OnBoard(k) && At(b, k) == Occ(c, King);
    if k == from {
      assert promo.None?;
      assert At(r, to) == Occ(c, King);
    } else {
      assert k != to;
      assert At(r, k) == Occ(c, King);
    }
  }

  /** Pieces of the colour that did not move stand where they stood, or were captured. */
  lemma ApplyKeepsOtherColor(b: Grid, from: Square, to: Square, promo: Option<Kind>, s: Square)
    requires Valid(b) && OnBoard(from) && OnBoard(to) && At(b, from).Occ? && OnBoard(s)
    requires IsColor(At(ApplyMove(b, from, to, promo), s), Opp(At(b, from).color))
    ensures At(ApplyMove(b, from, to, promo), s) == At(b, s)
  {
  }

  /**
    The standard opening position: Black's pieces on rows 0 and 1, White's on
    rows 6 and 7, the rows between empty; pawns fill rows 1 and 6, and each
    back rank holds rooks on the corners, knights beside them, then bishops,
    the queen on column d and the king on column e.
   */
  function InitialBoard(): (b: Grid)
    ensures Valid(b)
    ensures forall s {:trigger At(b, s)} :: OnBoard(s) ==>
      (IsColor(At(b, s), White) <==> s.y >= 6) && (IsColor(At(b, s), Black) <==> s.y < 2)
    ensures forall x :: 0 <= x < 8 ==> At(b, Sq(6, x)) == Occ(White, Pawn) && At(b, Sq(1, x)) == Occ(Black, Pawn)
    ensures At(b, Sq(7, 0)) == At(b, Sq(7, 7)) == Occ(White, Rook) && At(b, Sq(0, 0)) == At(b, Sq(0, 7)) == Occ(Black, Rook)
    ensures At(b, Sq(7, 1)) == At(b, Sq(7, 6)) == Occ(White, Knight) && At(b, Sq(0, 1)) == At(b, Sq(0, 6)) == Occ(Black, Knight)
    ensures At(b, Sq(7, 2)) == At(b, Sq(7, 5)) == Occ(White, Bishop) && At(b, Sq(0, 2)) == At(b, Sq(0, 5)) == Occ(Black, Bishop)
    ensures At(b, Sq(7, 3)) == Occ(White, Queen) && At(b, Sq(0, 3)) == Occ(Black, Queen)
    ensures At(b, Sq(7, 4)) == Occ(White, King) && At(b, Sq(0, 4)) == Occ(Black, King)
  {
    seq(8, y requires 0 <= y < 8 => seq(8, x requires 0 <= x < 8 => InitialCell(y, x)))
  }

  function InitialCell(y: int, x: int): Cell {
    if y == 0 then Occ(Black, BackRank(x))
    else if y == 1 then Occ(Black, Pawn)
    else if y == 6 then Occ(White, Pawn)
    else if y == 7 then Occ(White, BackRank(x))
    else Empty
  }

  function BackRank(x: int): Kind {
    if x == 0 || x == 7 then Rook
    else if x == 1 || x == 6 then Knight
    else if x == 2 || x == 5 then Bishop
    else if x == 3 then Queen
    else King
  }

  /** An 8x8 grid of counters, one per square: the attack maps. */
  predicate ValidCounts(m: seq<seq<nat>>) {
    |m| == 8 && forall y :: 0 <= y < 8 ==> |m[y]| == 8
  }

  function CountAt(m: seq<seq<nat>>, s: Square): nat
    requires ValidCounts(m) && OnBoard(s)
  {
    m[s.y][s.x]
  }
}
