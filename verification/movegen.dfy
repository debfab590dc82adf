/**
  Pseudo-legal move generation: one generator per piece kind, each producing
  notation strings for the squares its piece may go to, ignoring whether the
  mover's own king is left attacked. The king generator is the exception that
  consults an attack map, passed in as a parameter.
 */
module MoveGen {
  import opened Squares
  import opened Board
  import opened Geometry
  import opened Attacks

  /** A piece move in notation: kind letter, `x` for a capture, destination square. */
  function PieceNote(letter: char, capture: bool, t: Square): string
    requires OnBoard(t)
  {
    [letter] + (if capture then "x" else "") + Name(t)
  }

  /** The destination square a move string names: its last two characters. */
  function Dest(m: string): Square
    requires |m| >= 2
  {
    Parse(m[|m| - 2..])
  }

  /** A well-formed destination: the last two characters are a square name. */
  predicate HasDest(m: string) {
    |m| >= 2 && IsName(m[|m| - 2..])
  }

  /** `m` is the notation for a `letter` piece going to `t`, which does not hold its own colour. */
  ghost predicate NoteFor(b: Grid, c: Color, letter: char, t: Square, m: string)
    requires Valid(b)
  {
    OnBoard(t) && !IsColor(At(b, t), c) && m == PieceNote(letter, At(b, t).Occ?, t)
  }

  /** A capture in notation: an `x` right before the destination square. */
  predicate IsCapture(m: string) {
    |m| >= 3 && m[|m| - 3] == 'x'
  }

  lemma PieceNoteDest(letter: char, capture: bool, t: Square)
    requires OnBoard(t)
    ensures HasDest(PieceNote(letter, capture, t)) && Dest(PieceNote(letter, capture, t)) == t
    ensures |PieceNote(letter, capture, t)| >= 3 && PieceNote(letter, capture, t)[0] == letter
    ensures letter != 'x' ==> (IsCapture(PieceNote(letter, capture, t)) <==> capture)
  {
    var m := PieceNote(letter, capture, t);
    assert m[|m| - 2..] == Name(t);
  }

  // ---------------------------------------------------------------- pawns

  /**
    `generatePawnLegalMoves`: one square forward onto an empty square; from the
    start row, two squares forward when both are empty; a diagonal step forward
    only onto an enemy piece, written with the pawn's file and `x`.
   */
  function PawnMoves(b: Grid, c: Color, s: Square): seq<string>
    requires Valid(b) && OnBoard(s) && 0 <= s.y + Forward(c) < 8
  {
    PawnPushes(b, c, s) + PawnCapture(b, c, s, -1) + PawnCapture(b, c, s, 1)
  }

  /** The straight pawn moves: one square, and from the start row two, onto empty squares. */
  function PawnPushes(b: Grid, c: Color, s: Square): seq<string>
    requires Valid(b) && OnBoard(s) && 0 <= s.y + Forward(c) < 8
  {
    var f := Forward(c);
    var ahead := Sq(s.y + f, s.x);
    if At(b, ahead) == Empty then
      [Name(ahead)]
        + (if s.y == PawnStartRow(c) && At(b, Sq(s.y + 2 * f, s.x)) == Empty
           then [Name(Sq(s.y + 2 * f, s.x))] else [])
    else []
  }

  /** The diagonal capture towards file offset `dx`, when that square holds an enemy piece. */
  function PawnCapture(b: Grid, c: Color, s: Square, dx: int): seq<string>
    requires Valid(b) && OnBoard(s) && 0 <= s.y + Forward(c) < 8 && (dx == -1 || dx == 1)
  {
    var t := Sq(s.y + Forward(c), s.x + dx);
    if 0 <= t.x < 8 && IsColor(At(b, t), Opp(c)) then [[FileChar(s.x), 'x'] + Name(t)] else []
  }

  /** The pawn moves described square by square, without reference to the generator. */
  ghost predicate PawnMoveTo(b: Grid, c: Color, s: Square, t: Square, m: string)
    requires Valid(b) && OnBoard(s)
  {
    var f := Forward(c);
    OnBoard(t) &&
    ( (t == Sq(s.y + f, s.x) && At(b, t) == Empty && m == Name(t))
    || (s.y == PawnStartRow(c) && t == Sq(s.y + 2 * f, s.x)
        && At(b, Sq(s.y + f, s.x)) == Empty && At(b, t) == Empty && m == Name(t))
    || (t.y == s.y + f && Abs(t.x - s.x) == 1 && IsColor(At(b, t), Opp(c))
        && m == [FileChar(s.x), 'x'] + Name(t)))
  }

  lemma PawnMovesExact(b: Grid, c: Color, s: Square, m: string)
    requires Valid(b) && OnBoard(s) && 0 <= s.y + Forward(c) < 8
    ensures m in PawnMoves(b, c, s) <==> exists t :: PawnMoveTo(b, c, s, t, m)
  {
    if m in PawnMoves(b, c, s) {
      PawnMoveFound(b, c, s, m);
    }
    if exists t :: PawnMoveTo(b, c, s, t, m) {
      var t :| PawnMoveTo(b, c, s, t, m);
      PawnMoveListed(b, c, s, t, m);
    }
  }

  lemma PawnMoveFound(b: Grid, c: Color, s: Square, m: string)
    requires Valid(b) && OnBoard(s) && 0 <= s.y + Forward(c) < 8
    requires m in PawnMoves(b, c, s)
    ensures exists t :: PawnMoveTo(b, c, s, t, m)
  {
    var f := Forward(c);
    if m in PawnPushes(b, c, s) {
      var ahead := Sq(s.y + f, s.x);
      if m == Name(ahead) {
        assert PawnMoveTo(b, c, s, ahead, m);
      } else {
        assert PawnMoveTo(b, c, s, Sq(s.y + 2 * f, s.x), m);
      }
    } else if m in PawnCapture(b, c, s, -1) {
      assert PawnMoveTo(b, c, s, Sq(s.y + f, s.x - 1), m);
    } else {
      assert m in PawnCapture(b, c, s, 1);
      assert PawnMoveTo(b, c, s, Sq(s.y + f, s.x + 1), m);
    }
  }

  lemma PawnMoveListed(b: Grid, c: Color, s: Square, t: Square, m: string)
    requires Valid(b) && OnBoard(s) && 0 <= s.y + Forward(c) < 8
    requires PawnMoveTo(b, c, s, t, m)
    ensures m in PawnMoves(b, c, s)
  {
    var f := Forward(c);
    if t.y == s.y + f && Abs(t.x - s.x) == 1 && IsColor(At(b, t), Opp(c)) {
      var dx := t.x - s.x;
      assert t == Sq(s.y + f, s.x + dx);
      assert m in PawnCapture(b, c, s, dx);
    } else {
      assert m in PawnPushes(b, c, s);
    }
  }

  // ---------------------------------------------------------------- knights and kings

  /** One offset square: empty or enemy-occupied squares give a move, own pieces block. */
  function JumpMoves(b: Grid, c: Color, letter: char, s: Square, offs: seq<Delta>): seq<string>
    requires Valid(b)
    decreases |offs|
  {
    if |offs| == 0 then []
    else
      var t := Step(s, offs[0]);
      (if !OnBoard(t) then []
       else if At(b, t) == Empty then [PieceNote(letter, false, t)]
       else if IsColor(At(b, t), Opp(c)) then [PieceNote(letter, true, t)]
       else [])
      + JumpMoves(b, c, letter, s, offs[1..])
  }

  /** `generateKnightLegalMoves`. */
  function KnightMoves(b: Grid, c: Color, s: Square): seq<string>
    requires Valid(b)
  {
    JumpMoves(b, c, 'N', s, KnightOffsets)
  }

  /** Offset `d` from `s` gives move `m`. */
  ghost predicate JumpMoveAt(b: Grid, c: Color, letter: char, s: Square, d: Delta, m: string)
    requires Valid(b)
  {
    NoteFor(b, c, letter, Step(s, d), m)
  }

  lemma {:induction false} JumpMovesExact(b: Grid, c: Color, letter: char, s: Square, offs: seq<Delta>, m: string)
    requires Valid(b)
    ensures m in JumpMoves(b, c, letter, s, offs) <==>
      exists i :: 0 <= i < |offs| && JumpMoveAt(b, c, letter, s, offs[i], m)
    decreases |offs|
  {
    if |offs| > 0 {
      JumpMovesExact(b, c, letter, s, offs[1..], m);
      if exists i :: 0 <= i < |offs| && JumpMoveAt(b, c, letter, s, offs[i], m) {
        var i :| 0 <= i < |offs| && JumpMoveAt(b, c, letter, s, offs[i], m);
        if i > 0 {
          assert offs[1..][i - 1] == offs[i];
        }
      }
      if m in JumpMoves(b, c, letter, s, offs[1..]) {
        var i :| 0 <= i < |offs[1..]| && JumpMoveAt(b, c, letter, s, offs[1..][i], m);
        assert offs[1..][i] == offs[i + 1];
      }
    }
  }

  /** A knight moves to exactly the jump squares on the board not holding its own colour. */
  lemma KnightMovesExact(b: Grid, c: Color, s: Square, m: string)
    requires Valid(b)
    ensures m in KnightMoves(b, c, s) <==>
      exists t :: KnightJump(s, t) && NoteFor(b, c, 'N', t, m)
  {
    JumpMovesExact(b, c, 'N', s, KnightOffsets, m);
    if exists t :: KnightJump(s, t) && NoteFor(b, c, 'N', t, m) {
      var t :| KnightJump(s, t) && NoteFor(b, c, 'N', t, m);
      KnightOffsetsExact(s, t);
    }
    if m in KnightMoves(b, c, s) {
      var i :| 0 <= i < 8 && JumpMoveAt(b, c, 'N', s, KnightOffsets[i], m);
      KnightOffsetsExact(s, Step(s, KnightOffsets[i]));
    }
  }

  /**
    `generateKingLegalMoves`: an empty neighbouring square only when the given
    attack map counts no attacker on it; an enemy-occupied neighbouring square
    always (the attack map is not consulted for captures).
   */
  function KingStepMoves(b: Grid, c: Color, s: Square, offs: seq<Delta>, km: seq<seq<nat>>): seq<string>
    requires Valid(b) && ValidCounts(km)
    decreases |offs|
  {
    if |offs| == 0 then []
    else
      var t := Step(s, offs[0]);
      (if !OnBoard(t) then []
       else if At(b, t) == Empty && CountAt(km, t) == 0 then [PieceNote('K', false, t)]
       else if At(b, t) != Empty && IsColor(At(b, t), Opp(c)) then [PieceNote('K', true, t)]
       else [])
      + KingStepMoves(b, c, s, offs[1..], km)
  }

  function KingMoves(b: Grid, c: Color, s: Square, km: seq<seq<nat>>): seq<string>
    requires Valid(b) && ValidCounts(km)
  {
    KingStepMoves(b, c, s, KingOffsets, km)
  }

  /** The king's moves described square by square. */
  ghost predicate KingMoveTo(b: Grid, c: Color, km: seq<seq<nat>>, t: Square, m: string)
    requires Valid(b) && ValidCounts(km)
  {
    OnBoard(t) &&
    ( (At(b, t) == Empty && CountAt(km, t) == 0 && m == PieceNote('K', false, t))
    || (IsColor(At(b, t), Opp(c)) && m == PieceNote('K', true, t)))
  }

  lemma {:induction false} KingStepMovesExact(b: Grid, c: Color, s: Square, offs: seq<Delta>, km: seq<seq<nat>>, m: string)
    requires Valid(b) && ValidCounts(km)
    ensures m in KingStepMoves(b, c, s, offs, km) <==>
      exists i :: 0 <= i < |offs| && KingMoveTo(b, c, km, Step(s, offs[i]), m)
    decreases |offs|
  {
    if |offs| > 0 {
      KingStepMovesExact(b, c, s, offs[1..], km, m);
      if exists i :: 0 <= i < |offs| && KingMoveTo(b, c, km, Step(s, offs[i]), m) {
        var i :| 0 <= i < |offs| && KingMoveTo(b, c, km, Step(s, offs[i]), m);
        if i > 0 {
          assert offs[1..][i - 1] == offs[i];
        }
      }
      if m in KingStepMoves(b, c, s, offs[1..], km) {
        var i :| 0 <= i < |offs[1..]| && KingMoveTo(b, c, km, Step(s, offs[1..][i]), m);
        assert offs[1..][i] == offs[i + 1];
      }
    }
  }

  /**
    A king moves to exactly its neighbouring squares that are either empty and
    unattacked in the given map, or hold an enemy piece.
   */
  lemma KingMovesExact(b: Grid, c: Color, s: Square, km: seq<seq<nat>>, m: string)
    requires Valid(b) && ValidCounts(km)
    ensures m in KingMoves(b, c, s, km) <==> exists t :: KingStep(s, t) && KingMoveTo(b, c, km, t, m)
  {
    KingStepMovesExact(b, c, s, KingOffsets, km, m);
    if exists t :: KingStep(s, t) && KingMoveTo(b, c, km, t, m) {
      var t :| KingStep(s, t) && KingMoveTo(b, c, km, t, m);
      KingOffsetsExact(s, t);
    }
    if m in KingMoves(b, c, s, km) {
      var i :| 0 <= i < 8 && KingMoveTo(b, c, km, Step(s, KingOffsets[i]), m);
      KingOffsetsExact(s, Step(s, KingOffsets[i]));
    }
  }

  // ---------------------------------------------------------------- sliding pieces

  /**
    One ray of a sliding piece: a quiet move to each empty square, then a
    capture of an enemy piece; an own piece or the edge stops it. These are the
    notes for the squares the ray reaches (`RayReach`), own pieces left out.
   */
  function RayMoves(b: Grid, c: Color, letter: char, s: Square, d: Delta, n: int): seq<string>
    requires Valid(b) && OnBoard(s) && Unit(d) && n >= 1
  {
    NotesOf(b, c, letter, RayReach(b, s, d, n))
  }

  function RaysMoves(b: Grid, c: Color, letter: char, s: Square, dirs: seq<Delta>): seq<string>
    requires Valid(b) && OnBoard(s) && AllUnit(dirs)
  {
    if |dirs| == 0 then [] else RayMoves(b, c, letter, s, dirs[0], 1) + RaysMoves(b, c, letter, s, dirs[1..])
  }

  /** A ray move: a square seen along the ray that does not hold the mover's colour. */
  ghost predicate RayMoveTo(b: Grid, c: Color, letter: char, s: Square, d: Delta, n0: int, n: int, t: Square, m: string)
    requires Valid(b) && Unit(d)
  {
    RaySees(b, s, d, n0, n, t) && !IsColor(At(b, t), c) && m == PieceNote(letter, At(b, t).Occ?, t)
  }

  /** The notes for a list of squares: a move to each square that does not hold the mover's colour. */
  function NotesOf(b: Grid, c: Color, letter: char, ts: seq<Square>): seq<string>
    requires Valid(b) && forall t :: t in ts ==> OnBoard(t)
  {
    if |ts| == 0 then []
    else
      (if !IsColor(At(b, ts[0]), c) then [PieceNote(letter, At(b, ts[0]).Occ?, ts[0])] else [])
      + NotesOf(b, c, letter, ts[1..])
  }

  lemma {:induction false} NotesOfIff(b: Grid, c: Color, letter: char, ts: seq<Square>, m: string)
    requires Valid(b) && forall t :: t in ts ==> OnBoard(t)
    ensures m in NotesOf(b, c, letter, ts) <==> exists t :: t in ts && NoteFor(b, c, letter, t, m)
    decreases |ts|
  {
    if |ts| > 0 {
      var u := ts[0];
      var head := if !IsColor(At(b, u), c) then [PieceNote(letter, At(b, u).Occ?, u)] else [];
      assert NotesOf(b, c, letter, ts) == head + NotesOf(b, c, letter, ts[1..]);
      NotesOfIff(b, c, letter, ts[1..], m);
      if m in head {
        assert u in ts && NoteFor(b, c, letter, u, m);
      }
      if exists t :: t in ts && NoteFor(b, c, letter, t, m) {
        var t :| t in ts && NoteFor(b, c, letter, t, m);
        if t == u {
          assert m in head;
        } else {
          assert t in ts[1..];
        }
      }
    }
  }

  lemma RayMovesFromReach(b: Grid, c: Color, letter: char, s: Square, d: Delta, n0: int, m: string)
    requires Valid(b) && OnBoard(s) && Unit(d) && n0 >= 1
    ensures m in RayMoves(b, c, letter, s, d, n0) <==>
      exists t :: t in RayReach(b, s, d, n0) && NoteFor(b, c, letter, t, m)
  {
    NotesOfIff(b, c, letter, RayReach(b, s, d, n0), m);
  }

  lemma RayMovesExact(b: Grid, c: Color, letter: char, s: Square, d: Delta, n0: int, m: string)
    requires Valid(b) && OnBoard(s) && Unit(d) && n0 >= 1
    ensures m in RayMoves(b, c, letter, s, d, n0) <==> exists n, t :: RayMoveTo(b, c, letter, s, d, n0, n, t, m)
  {
    RayMovesFromReach(b, c, letter, s, d, n0, m);
    if m in RayMoves(b, c, letter, s, d, n0) {
      var t :| t in RayReach(b, s, d, n0) && NoteFor(b, c, letter, t, m);
      RayReachExact(b, s, d, n0, t);
      var n :| RaySees(b, s, d, n0, n, t);
      assert RayMoveTo(b, c, letter, s, d, n0, n, t, m);
    }
    if exists n, t :: RayMoveTo(b, c, letter, s, d, n0, n, t, m) {
      var n, t :| RayMoveTo(b, c, letter, s, d, n0, n, t, m);
      RayReachExact(b, s, d, n0, t);
      assert t in RayReach(b, s, d, n0) && NoteFor(b, c, letter, t, m);
    }
  }

  /** A slider moves to exactly the squares some ray of its direction list sees, except its own pieces. */
  lemma {:induction false} RaysMovesExact(b: Grid, c: Color, letter: char, s: Square, dirs: seq<Delta>, m: string)
    requires Valid(b) && OnBoard(s) && AllUnit(dirs)
    ensures m in RaysMoves(b, c, letter, s, dirs) <==>
      exists i, n, t :: 0 <= i < |dirs| && RayMoveTo(b, c, letter, s, dirs[i], 1, n, t, m)
    decreases |dirs|
  {
    if |dirs| > 0 {
      RayMovesExact(b, c, letter, s, dirs[0], 1, m);
      RaysMovesExact(b, c, letter, s, dirs[1..], m);
      if exists i, n, t :: 0 <= i < |dirs| && RayMoveTo(b, c, letter, s, dirs[i], 1, n, t, m) {
        var i, n, t :| 0 <= i < |dirs| && RayMoveTo(b, c, letter, s, dirs[i], 1, n, t, m);
        if i > 0 {
          assert dirs[1..][i - 1] == dirs[i];
        }
      }
      if m in RaysMoves(b, c, letter, s, dirs[1..]) {
        var i, n, t :| 0 <= i < |dirs[1..]| && RayMoveTo(b, c, letter, s, dirs[1..][i], 1, n, t, m);
        assert dirs[1..][i] == dirs[i + 1];
      }
    }
  }

  // ---------------------------------------------------------------- dispatch

  /** A pawn of colour `c` on `s` still has a row ahead of it. */
  predicate PawnCanStep(b: Grid, s: Square)
    requires Valid(b) && OnBoard(s)
  {
    At(b, s).Occ? && At(b, s).kind == Pawn ==> 0 <= s.y + Forward(At(b, s).color) < 8
  }

  /**
    The generator for whatever stands on `s` (`generateLegalMoves`' switch on the
    piece letter). `km` is the attack map the king generator consults.
   */
  function PieceMoves(b: Grid, s: Square, km: seq<seq<nat>>): seq<string>
    requires Valid(b) && OnBoard(s) && ValidCounts(km) && PawnCanStep(b, s)
  {
    DirectionsAreUnit();
    match At(b, s)
    case Empty => []
    case Occ(c, k) =>
      match k
      case Pawn => PawnMoves(b, c, s)
      case Knight => KnightMoves(b, c, s)
      case Bishop => RaysMoves(b, c, 'B', s, BishopDirs)
      case Rook => RaysMoves(b, c, 'R', s, RookDirs)
      case Queen => RaysMoves(b, c, 'Q', s, QueenDirs)
      case King => KingMoves(b, c, s, km)
  }

  /**
    What every generated move promises: it names a destination on the board that
    does not hold the mover's colour; it is marked as a capture exactly when the
    destination is occupied; a capture lands on a square the piece attacks, and
    so does every move of a piece other than a pawn; a piece move starts with the
    piece letter and a pawn move with a file letter.
   */
  ghost predicate SoundMove(b: Grid, s: Square, m: string)
    requires Valid(b) && OnBoard(s) && At(b, s).Occ?
  {
    HasDest(m) && OnBoard(Dest(m))
    && !IsColor(At(b, Dest(m)), At(b, s).color)
    && (IsCapture(m) <==> At(b, Dest(m)).Occ?)
    && (IsCapture(m) || At(b, s).kind != Pawn ==> Dest(m) in Reach(b, s))
    && (if At(b, s).kind == Pawn then IsFileChar(m[0]) else m[0] == Letter(At(b, s).kind))
  }

  lemma PawnMoveSound(b: Grid, s: Square, km: seq<seq<nat>>, m: string)
    requires Valid(b) && OnBoard(s) && ValidCounts(km) && PawnCanStep(b, s)
    requires At(b, s).Occ? && At(b, s).kind == Pawn && m in PieceMoves(b, s, km)
    ensures SoundMove(b, s, m)
  {
    var c := At(b, s).color;
    PawnMovesExact(b, c, s, m);
    var t :| PawnMoveTo(b, c, s, t, m);
    PawnReachExact(s, c, t);
    if m == Name(t) {
      assert m[|m| - 2..] == m;
      assert !IsCapture(m);
    } else {
      assert m[|m| - 2..] == Name(t);
    }
  }

  lemma SliderMoveSound(b: Grid, s: Square, letter: char, dirs: seq<Delta>, m: string)
    requires Valid(b) && OnBoard(s) && At(b, s).Occ? && AllUnit(dirs)
    requires At(b, s).kind != Pawn && letter == Letter(At(b, s).kind) && letter != 'x'
    requires Reach(b, s) == RaysReach(b, s, dirs)
    requires m in RaysMoves(b, At(b, s).color, letter, s, dirs)
    ensures SoundMove(b, s, m)
  {
    var c := At(b, s).color;
    RaysMovesExact(b, c, letter, s, dirs, m);
    var i, n, t :| 0 <= i < |dirs| && RayMoveTo(b, c, letter, s, dirs[i], 1, n, t, m);
    RaysReachExact(b, s, dirs, t);
    PieceNoteDest(letter, At(b, t).Occ?, t);
  }

  lemma KnightMoveSound(b: Grid, s: Square, m: string)
    requires Valid(b) && OnBoard(s) && At(b, s).Occ? && At(b, s).kind == Knight
    requires m in KnightMoves(b, At(b, s).color, s)
    ensures SoundMove(b, s, m)
  {
    var c := At(b, s).color;
    KnightMovesExact(b, c, s, m);
    var t :| KnightJump(s, t) && NoteFor(b, c, 'N', t, m);
    var capture := At(b, t).Occ?;
    assert m == PieceNote('N', capture, t);
    PieceNoteDest('N', capture, t);
    KnightReachExact(s, t);
    KnightReach(b, s);
    assert Dest(m) == t && t in Reach(b, s);
  }

  lemma KnightReach(b: Grid, s: Square)
    requires Valid(b) && OnBoard(s) && At(b, s).Occ? && At(b, s).kind == Knight
    ensures Reach(b, s) == OffsetReach(s, KnightOffsets)
  {
  }

  lemma KingMoveSound(b: Grid, s: Square, km: seq<seq<nat>>, m: string)
    requires Valid(b) && OnBoard(s) && ValidCounts(km) && At(b, s).Occ? && At(b, s).kind == King
    requires m in KingMoves(b, At(b, s).color, s, km)
    ensures SoundMove(b, s, m)
  {
    var c := At(b, s).color;
    KingMovesExact(b, c, s, km, m);
    var t :| KingStep(s, t) && KingMoveTo(b, c, km, t, m);
    var capture := At(b, t).Occ?;
    assert m == PieceNote('K', capture, t);
    PieceNoteDest('K', capture, t);
    KingReachExact(s, t);
    KingReach(b, s);
    assert Dest(m) == t && t in Reach(b, s);
  }

  lemma KingReach(b: Grid, s: Square)
    requires Valid(b) && OnBoard(s) && At(b, s).Occ? && At(b, s).kind == King
    ensures Reach(b, s) == OffsetReach(s, KingOffsets)
  {
  }

  /** Every generated move is sound in the sense of `SoundMove`. */
  lemma PieceMovesSound(b: Grid, s: Square, km: seq<seq<nat>>, m: string)
    requires Valid(b) && OnBoard(s) && ValidCounts(km) && PawnCanStep(b, s)
    requires m in PieceMoves(b, s, km)
    ensures At(b, s).Occ? && SoundMove(b, s, m)
  {
    DirectionsAreUnit();
    var c := At(b, s).color;
    match At(b, s).kind
    case Pawn => PawnMoveSound(b, s, km, m);
    case Knight => KnightMoveSound(b, s, m);
    case Bishop => SliderMoveSound(b, s, 'B', BishopDirs, m);
    case Rook => SliderMoveSound(b, s, 'R', RookDirs, m);
    case Queen => SliderMoveSound(b, s, 'Q', QueenDirs, m);
    case King => KingMoveSound(b, s, km, m);
  }

  // ---------------------------------------------------------------- one move per destination

  /** Every move names a destination and no two moves name the same one. */
  ghost predicate DestsDistinct(ms: seq<string>) {
    (forall i :: 0 <= i < |ms| ==> HasDest(ms[i]))
    && forall i, j :: 0 <= i < j < |ms| ==> Dest(ms[i]) != Dest(ms[j])
  }

  /** A move whose destination no later move names keeps the list free of repeated destinations. */
  lemma DestsDistinctCons(m: string, ms: seq<string>)
    requires HasDest(m) && DestsDistinct(ms)
    requires forall x :: x in ms ==> Dest(x) != Dest(m)
    ensures DestsDistinct([m] + ms)
  {
    var r := [m] + ms;
    forall i | 0 < i < |r| ensures r[i] == ms[i - 1] && r[i] in ms {
    }
  }

  /** The notes for a list of squares, each square listed once, name each square at most once. */
  lemma {:induction false} NotesOfDistinct(b: Grid, c: Color, letter: char, ts: seq<Square>)
    requires Valid(b) && (forall t :: t in ts ==> OnBoard(t)) && NoRepeats(ts)
    ensures DestsDistinct(NotesOf(b, c, letter, ts))
    decreases |ts|
  {
    if |ts| > 0 {
      var u := ts[0];
      var rest := NotesOf(b, c, letter, ts[1..]);
      NoRepeatsTail(ts);
      NotesOfDistinct(b, c, letter, ts[1..]);
      if !IsColor(At(b, u), c) {
        var m := PieceNote(letter, At(b, u).Occ?, u);
        assert NotesOf(b, c, letter, ts) == [m] + rest;
        PieceNoteDest(letter, At(b, u).Occ?, u);
        forall x | x in rest ensures HasDest(x) && Dest(x) != u {
          NotesOfIff(b, c, letter, ts[1..], x);
          var t :| t in ts[1..] && NoteFor(b, c, letter, t, x);
          PieceNoteDest(letter, At(b, t).Occ?, t);
        }
        DestsDistinctCons(m, rest);
      } else {
        assert NotesOf(b, c, letter, ts) == [] + rest;
      }
    }
  }

  lemma {:induction false} NotesOfConcat(b: Grid, c: Color, letter: char, ts: seq<Square>, us: seq<Square>)
    requires Valid(b) && (forall t :: t in ts ==> OnBoard(t)) && (forall t :: t in us ==> OnBoard(t))
    ensures NotesOf(b, c, letter, ts + us) == NotesOf(b, c, letter, ts) + NotesOf(b, c, letter, us)
    decreases |ts|
  {
    if |ts| == 0 {
      assert ts + us == us;
    } else {
      assert (ts + us)[0] == ts[0] && (ts + us)[1..] == ts[1..] + us;
      NotesOfConcat(b, c, letter, ts[1..], us);
    }
  }

  /** The jump generator writes the notes of the offset squares on the board. */
  lemma {:induction false} JumpMovesAsNotes(b: Grid, c: Color, letter: char, s: Square, offs: seq<Delta>)
    requires Valid(b)
    ensures JumpMoves(b, c, letter, s, offs) == NotesOf(b, c, letter, OffsetReach(s, offs))
    decreases |offs|
  {
    if |offs| > 0 {
      var u := Step(s, offs[0]);
      var head := if OnBoard(u) then [u] else [];
      JumpMovesAsNotes(b, c, letter, s, offs[1..]);
      NotesOfConcat(b, c, letter, head, OffsetReach(s, offs[1..]));
      if OnBoard(u) {
        assert NotesOf(b, c, letter, head) ==
          (if !IsColor(At(b, u), c) then [PieceNote(letter, At(b, u).Occ?, u)] else []) + NotesOf(b, c, letter, []);
      }
    }
  }

  /** The slider generator writes the notes of the squares its rays reach. */
  lemma {:induction false} RaysMovesAsNotes(b: Grid, c: Color, letter: char, s: Square, dirs: seq<Delta>)
    requires Valid(b) && OnBoard(s) && AllUnit(dirs)
    ensures RaysMoves(b, c, letter, s, dirs) == NotesOf(b, c, letter, RaysReach(b, s, dirs))
    decreases |dirs|
  {
    if |dirs| > 0 {
      RaysMovesAsNotes(b, c, letter, s, dirs[1..]);
      NotesOfConcat(b, c, letter, RayReach(b, s, dirs[0], 1), RaysReach(b, s, dirs[1..]));
    }
  }

  /** A knight, bishop, rook or queen lists each destination square at most once. */
  lemma PieceMovesDistinct(b: Grid, s: Square, km: seq<seq<nat>>)
    requires Valid(b) && OnBoard(s) && ValidCounts(km) && PawnCanStep(b, s)
    requires At(b, s).Occ? && At(b, s).kind in {Knight, Bishop, Rook, Queen}
    ensures DestsDistinct(PieceMoves(b, s, km))
  {
    DirectionsAreUnit();
    TablesHaveNoRepeats();
    var c := At(b, s).color;
    match At(b, s).kind
    case Knight =>
      JumpMovesAsNotes(b, c, 'N', s, KnightOffsets);
      OffsetReachNoRepeats(s, KnightOffsets);
      NotesOfDistinct(b, c, 'N', OffsetReach(s, KnightOffsets));
    case Bishop =>
      RaysMovesAsNotes(b, c, 'B', s, BishopDirs);
      RaysReachNoRepeats(b, s, BishopDirs);
      NotesOfDistinct(b, c, 'B', RaysReach(b, s, BishopDirs));
    case Rook =>
      RaysMovesAsNotes(b, c, 'R', s, RookDirs);
      RaysReachNoRepeats(b, s, RookDirs);
      NotesOfDistinct(b, c, 'R', RaysReach(b, s, RookDirs));
    case Queen =>
      RaysMovesAsNotes(b, c, 'Q', s, QueenDirs);
      RaysReachNoRepeats(b, s, QueenDirs);
      NotesOfDistinct(b, c, 'Q', RaysReach(b, s, QueenDirs));
  }

  // ---------------------------------------------------------------- the move map

  /**
    The generator run over the first `k` squares in row-major order (the
    engine's piece list is built by the same scan): each square holding a piece
    of colour `c`, named in notation, mapped to that piece's moves.
   */
  function MovesUpTo(b: Grid, c: Color, km: seq<seq<nat>>, k: int): (r: map<string, seq<string>>)
    requires Valid(b) && ValidCounts(km) && NoPawnOnLastRow(b, c) && 0 <= k <= 64
    ensures forall o {:trigger o in r} :: o in r <==> IsName(o) && IndexOf(Parse(o)) < k && IsColor(At(b, Parse(o)), c)
    ensures forall o {:trigger r[o]} :: o in r && IsName(o) ==> PawnCanStep(b, Parse(o)) && r[o] == PieceMoves(b, Parse(o), km)
    decreases k, 0
  {
    if k == 0 then map[] else WithSquare(b, c, km, k - 1)
  }

  /** The partial map with square number `j` added in. */
  function WithSquare(b: Grid, c: Color, km: seq<seq<nat>>, j: int): (r: map<string, seq<string>>)
    requires Valid(b) && ValidCounts(km) && NoPawnOnLastRow(b, c) && 0 <= j < 64
    ensures forall o {:trigger o in r} :: o in r <==> IsName(o) && IndexOf(Parse(o)) <= j && IsColor(At(b, Parse(o)), c)
    ensures forall o {:trigger r[o]} :: o in r && IsName(o) ==> PawnCanStep(b, Parse(o)) && r[o] == PieceMoves(b, Parse(o), km)
    decreases j, 1
  {
    var rest := MovesUpTo(b, c, km, j);
    var s := SqOf(j);
    NameIndex(s);
    if IsColor(At(b, s), c) then rest[Name(s) := PieceMoves(b, s, km)] else rest
  }

  /** A square's name decodes back to it, and names of different squares differ. */
  lemma NameIndex(s: Square)
    requires OnBoard(s)
    ensures IsName(Name(s)) && Parse(Name(s)) == s
    ensures forall o :: IsName(o) && Parse(o) == s ==> o == Name(s)
  {
    forall o | IsName(o) && Parse(o) == s
      ensures o == Name(s)
    {
      NameOfParse(o);
    }
  }

  /**
    `virtual_generateLegalMoves`: every square holding a piece of colour `c`,
    named in notation, mapped to that piece's moves, including empty lists.
   */
  function AllMoves(b: Grid, c: Color, km: seq<seq<nat>>): (r: map<string, seq<string>>)
    requires Valid(b) && ValidCounts(km) && NoPawnOnLastRow(b, c)
    ensures forall o {:trigger o in r} :: o in r <==> IsName(o) && IsColor(At(b, Parse(o)), c)
  {
    MovesUpTo(b, c, km, 64)
  }

  lemma AllMovesAt(b: Grid, c: Color, km: seq<seq<nat>>, o: string)
    requires Valid(b) && ValidCounts(km) && NoPawnOnLastRow(b, c)
    requires o in AllMoves(b, c, km)
    ensures IsName(o) && PawnCanStep(b, Parse(o)) && AllMoves(b, c, km)[o] == PieceMoves(b, Parse(o), km)
  {
  }

  /** The part of `GeneratedMovesSound` a caller playing the move needs: where it goes and that it may go there. */
  lemma GeneratedBasics(b: Grid, c: Color, km: seq<seq<nat>>, o: string, m: string)
    requires Valid(b) && ValidCounts(km) && NoPawnOnLastRow(b, c)
    requires o in AllMoves(b, c, km) && m in AllMoves(b, c, km)[o]
    ensures IsName(o) && IsColor(At(b, Parse(o)), c)
    ensures HasDest(m) && OnBoard(Dest(m)) && !IsColor(At(b, Dest(m)), c)
  {
    GeneratedMovesSound(b, c, km, o, m);
  }

  /**
    `generateLegalMoves`: as `AllMoves`, with the origins that have no move
    removed.
   */
  function GenerateLegalMoves(b: Grid, c: Color, km: seq<seq<nat>>): (r: map<string, seq<string>>)
    requires Valid(b) && ValidCounts(km) && NoPawnOnLastRow(b, c)
    ensures forall o :: o in r <==> o in AllMoves(b, c, km) && |AllMoves(b, c, km)[o]| > 0
    ensures forall o :: o in r ==> r[o] == AllMoves(b, c, km)[o]
  {
    var all := AllMoves(b, c, km);
    map o | o in all && |all[o]| > 0 :: all[o]
  }

  /** Every move in the map belongs to a piece of the mover's colour and is sound. */
  lemma GeneratedMovesSound(b: Grid, c: Color, km: seq<seq<nat>>, o: string, m: string)
    requires Valid(b) && ValidCounts(km) && NoPawnOnLastRow(b, c)
    requires o in AllMoves(b, c, km) && m in AllMoves(b, c, km)[o]
    ensures IsName(o) && IsColor(At(b, Parse(o)), c) && SoundMove(b, Parse(o), m)
  {
    AllMovesAt(b, c, km, o);
    PieceMovesSound(b, Parse(o), km, m);
  }
}
