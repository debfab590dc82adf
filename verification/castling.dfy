/**
  Castling: four rights flags that only ever fall, four per-turn availability
  flags recomputed from the board, the move log and the list of squares rooks
  have moved from, and the two board moves of a castling.
 */
module Castling {
  import opened Wrappers
  import opened Squares
  import opened Board

  datatype Side = Kingside | Queenside

  /** One flag per colour and side. */
  datatype Flags = Flags(wk: bool, wq: bool, bk: bool, bq: bool)

  function Get(f: Flags, c: Color, s: Side): bool {
    match c
    case White => if s == Kingside then f.wk else f.wq
    case Black => if s == Kingside then f.bk else f.bq
  }

  /** The flags whose value for each colour and side is given by `p`. */
  function Each(p: (Color, Side) -> bool): (f: Flags)
    ensures forall c, s :: Get(f, c, s) == p(c, s)
  {
    Flags(p(White, Kingside), p(White, Queenside), p(Black, Kingside), p(Black, Queenside))
  }

  /** Both flags of colour `c` lowered, the other colour's kept. */
  function Lower(f: Flags, c: Color): (r: Flags)
    ensures forall s :: !Get(r, c, s) && Get(r, Opp(c), s) == Get(f, Opp(c), s)
  {
    Each((c', s) => Get(f, c', s) && c' != c)
  }

  const NoFlags := Flags(false, false, false, false)

  /**
    The engine's castling state: `rights` are the persistent rights, `can`
    the availability computed for the current turn.
   */
  datatype CastleState = CastleState(rights: Flags, can: Flags)

  /** Every right held, nothing available yet. */
  const InitialCastling := CastleState(Flags(true, true, true, true), NoFlags)

  /** The notation of a castling. */
  function Note(s: Side): string {
    if s == Kingside then "O-O" else "O-O-O"
  }

  function KingHome(c: Color): (s: Square)
    ensures OnBoard(s)
  {
    Sq(HomeRow(c), 4)
  }

  /** The corner a side's rook starts on: file h for kingside, file a for queenside. */
  function RookHome(c: Color, s: Side): (q: Square)
    ensures OnBoard(q) && q != KingHome(c)
  {
    Sq(HomeRow(c), if s == Kingside then 7 else 0)
  }

  /** Where the king lands: file g or file c. */
  function KingDest(c: Color, s: Side): (q: Square)
    ensures OnBoard(q) && q != KingHome(c) && q != RookHome(c, s)
  {
    Sq(HomeRow(c), if s == Kingside then 6 else 2)
  }

  /** Where the rook lands: file f or file d. */
  function RookDest(c: Color, s: Side): (q: Square)
    ensures OnBoard(q) && q != KingHome(c) && q != RookHome(c, s) && q != KingDest(c, s)
  {
    Sq(HomeRow(c), if s == Kingside then 5 else 3)
  }

  // ---------------------------------------------------------------- the move log

  /** A logged move that costs a player both rights: a castling, or any move naming the king. */
  predicate Forfeits(m: string) {
    m == "O-O" || m == "O-O-O" || 'K' in m
  }

  /** The index of a colour's first entry in the move log: White moves first. */
  function FirstOwn(c: Color): nat {
    if c == White then 0 else 1
  }

  /** The scan over the log entries `i`, `i + 2`, `i + 4`, ... for a forfeiting move. */
  function ForfeitFrom(log: seq<string>, i: nat): bool
    decreases |log| - i
  {
    if i >= |log| then false else Forfeits(log[i]) || ForfeitFrom(log, i + 2)
  }

  /** One of the player's own logged moves castled or moved the king. */
  ghost predicate KingMoved(log: seq<string>, c: Color) {
    exists j :: 0 <= j < |log| && j % 2 == FirstOwn(c) && Forfeits(log[j])
  }

  lemma {:induction false} ForfeitFromIff(log: seq<string>, i: nat)
    ensures ForfeitFrom(log, i) <==> exists j :: i <= j < |log| && (j - i) % 2 == 0 && Forfeits(log[j])
    decreases |log| - i
  {
    if i < |log| {
      ForfeitFromIff(log, i + 2);
      if ForfeitFrom(log, i + 2) {
        var j :| i + 2 <= j < |log| && (j - (i + 2)) % 2 == 0 && Forfeits(log[j]);
        assert (j - i) % 2 == 0;
      }
      if exists j :: i <= j < |log| && (j - i) % 2 == 0 && Forfeits(log[j]) {
        var j :| i <= j < |log| && (j - i) % 2 == 0 && Forfeits(log[j]);
        if j != i {
          assert i + 2 <= j && (j - (i + 2)) % 2 == 0;
        }
      }
    }
  }

  /** The engine's scan from the player's first entry finds exactly the player's own king moves. */
  lemma KingMovedIff(log: seq<string>, c: Color)
    ensures ForfeitFrom(log, FirstOwn(c)) <==> KingMoved(log, c)
  {
    ForfeitFromIff(log, FirstOwn(c));
    if KingMoved(log, c) {
      var j :| 0 <= j < |log| && j % 2 == FirstOwn(c) && Forfeits(log[j]);
      assert FirstOwn(c) <= j && (j - FirstOwn(c)) % 2 == 0;
    }
  }

  // ---------------------------------------------------------------- availability

  /** The attack counts of `c`'s opponent, given White's (`wa`) and Black's (`ba`). */
  function Against(wa: seq<seq<nat>>, ba: seq<seq<nat>>, c: Color): seq<seq<nat>> {
    if c == White then ba else wa
  }

  /**
    The squares between king and rook that must be empty, and the squares the
    king crosses that the opponent must not attack: f and g kingside; b, c and
    d empty and c and d unattacked queenside.
   */
  predicate PathClear(b: Grid, att: seq<seq<nat>>, c: Color, s: Side)
    requires Valid(b) && ValidCounts(att)
  {
    var y := HomeRow(c);
    match s
    case Kingside =>
      At(b, Sq(y, 5)) == Empty && At(b, Sq(y, 6)) == Empty
      && CountAt(att, Sq(y, 5)) == 0 && CountAt(att, Sq(y, 6)) == 0
    case Queenside =>
      At(b, Sq(y, 1)) == Empty && At(b, Sq(y, 2)) == Empty && At(b, Sq(y, 3)) == Empty
      && CountAt(att, Sq(y, 2)) == 0 && CountAt(att, Sq(y, 3)) == 0
  }

  predicate RookAtHome(b: Grid, c: Color, s: Side)
    requires Valid(b)
  {
    At(b, RookHome(c, s)) == Occ(c, Rook)
  }

  /** The rook corners of colour `c` named in the list of squares rooks have moved from lose their side. */
  function DropRookRights(st: CastleState, c: Color, rookFrom: seq<string>): CastleState {
    var lost := (c', s) => c' == c && Name(RookHome(c, s)) in rookFrom;
    CastleState(Each((c', s) => Get(st.rights, c', s) && !lost(c', s)),
                 Each((c', s) => Get(st.can, c', s) && !lost(c', s)))
  }

  /**
    The closing pass over all four flags: a side becomes available when its
    right is held and its path is clear; with `rookCheck` the rook must also
    still stand on its corner. Nothing is made unavailable here.
   */
  function Refresh(st: CastleState, b: Grid, wa: seq<seq<nat>>, ba: seq<seq<nat>>, rookCheck: bool): CastleState
    requires Valid(b) && ValidCounts(wa) && ValidCounts(ba)
  {
    st.(can := Each((c, s) => Get(st.can, c, s)
                              || (Get(st.rights, c, s) && PathClear(b, Against(wa, ba, c), c, s)
                                  && (rookCheck ==> RookAtHome(b, c, s)))))
  }

  /**
    `checkCastlingRights` with the rook test switched by `rookCheck`. The log
    scan lowers every availability flag on each of the player's entries; a
    forfeiting entry then costs the player both rights and ends the call; a
    `+` on the last entry makes the player's sides unavailable and ends the
    call; otherwise the rook corners are consulted and the flags refreshed.
   */
  function CheckRightsWith(st: CastleState, c: Color, log: seq<string>, rookFrom: seq<string>,
                           b: Grid, wa: seq<seq<nat>>, ba: seq<seq<nat>>, rookCheck: bool): (r: CastleState)
    requires |log| > 0 && Valid(b) && ValidCounts(wa) && ValidCounts(ba)
    ensures forall c', s :: Get(r.rights, c', s) ==> Get(st.rights, c', s)
  {
    var st1 := if FirstOwn(c) < |log| then st.(can := NoFlags) else st;
    if ForfeitFrom(log, FirstOwn(c)) then CastleState(Lower(st1.rights, c), Lower(st1.can, c))
    else if '+' in log[|log| - 1] then st1.(can := Lower(st1.can, c))
    else Refresh(DropRookRights(st1, c, rookFrom), b, wa, ba, rookCheck)
  }

  /** `checkCastlingRights` as the engine has it. */
  function CheckCastlingRights(st: CastleState, c: Color, log: seq<string>, rookFrom: seq<string>,
                               b: Grid, wa: seq<seq<nat>>, ba: seq<seq<nat>>): (r: CastleState)
    requires |log| > 0 && Valid(b) && ValidCounts(wa) && ValidCounts(ba)
    ensures forall c', s :: Get(r.rights, c', s) ==> Get(st.rights, c', s)
  {
    CheckRightsWith(st, c, log, rookFrom, b, wa, ba, false)
  }

  /** `checkCastlingRights` with the rook's presence on its corner added to the availability test. */
  function CheckCastlingRightsFixed(st: CastleState, c: Color, log: seq<string>, rookFrom: seq<string>,
                                    b: Grid, wa: seq<seq<nat>>, ba: seq<seq<nat>>): (r: CastleState)
    requires |log| > 0 && Valid(b) && ValidCounts(wa) && ValidCounts(ba)
    ensures forall c', s :: Get(r.rights, c', s) ==> Get(st.rights, c', s)
  {
    CheckRightsWith(st, c, log, rookFrom, b, wa, ba, true)
  }

  /**
    A right of the player survives the call exactly when it was held, no own
    logged move castled or moved the king, and either the last move gave check
    (the call ends before the rook corners are read) or no rook left that
    corner. The opponent's rights are untouched.
   */
  lemma RightsIff(st: CastleState, c: Color, log: seq<string>, rookFrom: seq<string>,
                  b: Grid, wa: seq<seq<nat>>, ba: seq<seq<nat>>, rookCheck: bool, s: Side)
    requires |log| > 0 && Valid(b) && ValidCounts(wa) && ValidCounts(ba)
    ensures var r := CheckRightsWith(st, c, log, rookFrom, b, wa, ba, rookCheck);
      (Get(r.rights, c, s) <==>
         Get(st.rights, c, s) && !KingMoved(log, c)
         && ('+' in log[|log| - 1] || Name(RookHome(c, s)) !in rookFrom))
      && Get(r.rights, Opp(c), s) == Get(st.rights, Opp(c), s)
  {
    KingMovedIff(log, c);
  }

  /**
    A side is available to the player after the call exactly when no own
    logged move castled or moved the king, the last move did not give check,
    no rook left that corner, and either the right is held with the path clear
    (and, with `rookCheck`, the rook at home) or the flag was already raised and
    the log holds none of the player's moves yet, so the scan lowered nothing.
   */
  lemma CanIff(st: CastleState, c: Color, log: seq<string>, rookFrom: seq<string>,
               b: Grid, wa: seq<seq<nat>>, ba: seq<seq<nat>>, rookCheck: bool, s: Side)
    requires |log| > 0 && Valid(b) && ValidCounts(wa) && ValidCounts(ba)
    ensures Get(CheckRightsWith(st, c, log, rookFrom, b, wa, ba, rookCheck).can, c, s) <==>
      !KingMoved(log, c) && '+' !in log[|log| - 1] && Name(RookHome(c, s)) !in rookFrom
      && ((Get(st.rights, c, s) && PathClear(b, Against(wa, ba, c), c, s) && (rookCheck ==> RookAtHome(b, c, s)))
          || (|log| <= FirstOwn(c) && Get(st.can, c, s)))
  {
    KingMovedIff(log, c);
    var st1 := if FirstOwn(c) < |log| then st.(can := NoFlags) else st;
    if !ForfeitFrom(log, FirstOwn(c)) && '+' !in log[|log| - 1] {
      var lost := Name(RookHome(c, s)) in rookFrom;
      var d := DropRookRights(st1, c, rookFrom);
      assert Get(d.rights, c, s) == (Get(st.rights, c, s) && !lost);
      assert Get(d.can, c, s) == (Get(st1.can, c, s) && !lost);
      assert Get(st1.can, c, s) == (|log| <= FirstOwn(c) && Get(st.can, c, s));
    }
  }

  // ---------------------------------------------------------------- offering and playing

  /** `addCastlingMove`: the castling is listed under the king's home square when that square has moves. */
  function AddCastlingMove(c: Color, note: string, mm: map<string, seq<string>>): (r: map<string, seq<string>>)
    ensures r.Keys == mm.Keys
    ensures forall o :: o in mm && o != Name(KingHome(c)) ==> r[o] == mm[o]
    ensures Name(KingHome(c)) in mm ==> r[Name(KingHome(c))] == mm[Name(KingHome(c))] + [note]
  {
    var home := Name(KingHome(c));
    if home in mm then mm[home := mm[home] + [note]] else mm
  }

  /** The closing lines of `checkCastlingRights`: kingside first, then queenside, each when available. */
  function OfferCastling(st: CastleState, c: Color, mm: map<string, seq<string>>): (r: map<string, seq<string>>)
    ensures r.Keys == mm.Keys
    ensures forall o :: o in mm && o != Name(KingHome(c)) ==> r[o] == mm[o]
    ensures !Get(st.can, c, Kingside) && !Get(st.can, c, Queenside) ==> r == mm
  {
    var k := if Get(st.can, c, Kingside) then AddCastlingMove(c, Note(Kingside), mm) else mm;
    if Get(st.can, c, Queenside) then AddCastlingMove(c, Note(Queenside), k) else k
  }

  /**
    Offering adds a castling to the king's list exactly when that side is
    available, and only when the king's home square has moves.
   */
  lemma OfferedIff(st: CastleState, c: Color, mm: map<string, seq<string>>, s: Side)
    requires Name(KingHome(c)) in mm
    ensures var home := Name(KingHome(c));
      Note(s) in OfferCastling(st, c, mm)[home] <==> Note(s) in mm[home] || Get(st.can, c, s)
  {
    var home := Name(KingHome(c));
    var r := OfferCastling(st, c, mm);
    assert Note(Kingside) != Note(Queenside) by {
      assert |Note(Kingside)| != |Note(Queenside)|;
    }
    if Get(st.can, c, s) {
      assert Note(s) in r[home];
    }
  }

  /** Whatever offering adds is a castling under the king's home square, for an available side. */
  lemma OfferedFrom(st: CastleState, c: Color, mm: map<string, seq<string>>, o: string, x: string)
    requires o in OfferCastling(st, c, mm) && x in OfferCastling(st, c, mm)[o]
    ensures o in mm
    ensures x in mm[o] || (o == Name(KingHome(c)) && exists s :: Get(st.can, c, s) && x == Note(s))
  {
    var home := Name(KingHome(c));
    if o == home && x !in mm[o] {
      var k := if Get(st.can, c, Kingside) then AddCastlingMove(c, Note(Kingside), mm) else mm;
      if x in k[o] {
        assert Get(st.can, c, Kingside) && x == Note(Kingside);
      } else {
        assert Get(st.can, c, Queenside) && x == Note(Queenside);
      }
    }
  }

  /** A side is available after the call only if its right or its availability was there before. */
  lemma AvailableFromBefore(st: CastleState, c: Color, log: seq<string>, rookFrom: seq<string>,
                            b: Grid, wa: seq<seq<nat>>, ba: seq<seq<nat>>, rookCheck: bool, s: Side)
    requires |log| > 0 && Valid(b) && ValidCounts(wa) && ValidCounts(ba)
    requires Get(CheckRightsWith(st, c, log, rookFrom, b, wa, ba, rookCheck).can, c, s)
    ensures Get(st.rights, c, s) || Get(st.can, c, s)
  {
    CanIff(st, c, log, rookFrom, b, wa, ba, rookCheck, s);
  }

  /** Neither castling is offered to a player whom the last logged move put in check. */
  lemma NoCastlingInCheck(st: CastleState, c: Color, log: seq<string>, rookFrom: seq<string>,
                          b: Grid, wa: seq<seq<nat>>, ba: seq<seq<nat>>, rookCheck: bool, mm: map<string, seq<string>>)
    requires |log| > 0 && Valid(b) && ValidCounts(wa) && ValidCounts(ba)
    requires '+' in log[|log| - 1]
    ensures OfferCastling(CheckRightsWith(st, c, log, rookFrom, b, wa, ba, rookCheck), c, mm) == mm
  {
    CanIff(st, c, log, rookFrom, b, wa, ba, rookCheck, Kingside);
    CanIff(st, c, log, rookFrom, b, wa, ba, rookCheck, Queenside);
  }

  /** The side a castling string names, if it is one. */
  function SideOf(note: string): (s: Option<Side>)
    ensures s.Some? <==> note == "O-O" || note == "O-O-O"
    ensures s.Some? ==> Note(s.value) == note
  {
    if note == "O-O" then Some(Kingside) else if note == "O-O-O" then Some(Queenside) else None
  }

  /**
    `performCastling`: when the named side is available the king moves two
    files towards the rook, the rook jumps to the square the king crossed,
    and the player loses both rights and both availabilities; otherwise
    nothing changes.
   */
  function PerformCastling(st: CastleState, b: Grid, c: Color, note: string): (r: (Grid, CastleState))
    requires Valid(b)
    ensures Valid(r.0)
    ensures forall c', s :: Get(r.1.rights, c', s) ==> Get(st.rights, c', s)
    ensures forall s :: Get(r.1.rights, Opp(c), s) == Get(st.rights, Opp(c), s)
    ensures SideOf(note).None? || !Get(st.can, c, SideOf(note).value) ==> r == (b, st)
    ensures SideOf(note).Some? && Get(st.can, c, SideOf(note).value) ==>
      forall s :: !Get(r.1.rights, c, s) && !Get(r.1.can, c, s)
  {
    match SideOf(note)
    case None => (b, st)
    case Some(s) =>
      if !Get(st.can, c, s) then (b, st)
      else
        var kb := MovePieceToPosition(b, KingHome(c), KingDest(c, s));
        (MovePieceToPosition(kb, RookHome(c, s), RookDest(c, s)), CastleState(Lower(st.rights, c), Lower(st.can, c)))
  }

  /**
    With the king and the rook on their home squares, a castling leaves the
    king on its destination, the rook on the square beside it, both home
    squares empty and every other square as it was.
   */
  lemma CastleBoard(st: CastleState, b: Grid, c: Color, s: Side)
    requires Valid(b) && Get(st.can, c, s)
    requires At(b, KingHome(c)) == Occ(c, King) && RookAtHome(b, c, s)
    ensures var nb := PerformCastling(st, b, c, Note(s)).0;
      At(nb, KingDest(c, s)) == Occ(c, King) && At(nb, RookDest(c, s)) == Occ(c, Rook)
      && At(nb, KingHome(c)) == Empty && At(nb, RookHome(c, s)) == Empty
      && forall q {:trigger At(nb, q)} ::
           (OnBoard(q) && q != KingHome(c) && q != KingDest(c, s) && q != RookHome(c, s) && q != RookDest(c, s))
           ==> At(nb, q) == At(b, q)
  {
    assert SideOf(Note(s)) == Some(s);
    var kb := MovePieceToPosition(b, KingHome(c), KingDest(c, s));
    assert At(kb, RookHome(c, s)) == Occ(c, Rook);
  }

  // ---------------------------------------------------------------- a captured rook

  /**
    The engine forgets a rook captured on its corner: with White's king on
    e1, a Black bishop on h1 that took the rook there, f1 and g1 empty and
    unattacked, and no rook ever having moved, White is offered kingside
    castling, and playing it puts the Black bishop on f1.
   */
  lemma CapturedRookStillCastles(b: Grid, wa: seq<seq<nat>>, ba: seq<seq<nat>>)
    requires Valid(b) && ValidCounts(wa) && ValidCounts(ba)
    requires At(b, Sq(7, 4)) == Occ(White, King) && At(b, Sq(7, 7)) == Occ(Black, Bishop)
    requires At(b, Sq(7, 5)) == Empty && At(b, Sq(7, 6)) == Empty
    requires CountAt(ba, Sq(7, 5)) == 0 && CountAt(ba, Sq(7, 6)) == 0
    ensures var r := CheckCastlingRights(InitialCastling, White, ["e4", "Bxh1"], [], b, wa, ba);
      Get(r.can, White, Kingside)
      && At(PerformCastling(r, b, White, "O-O").0, Sq(7, 5)) == Occ(Black, Bishop)
  {
    var log := ["e4", "Bxh1"];
    assert !Forfeits(log[0]) && !Forfeits(log[1]);
    assert !ForfeitFrom(log, 0) by {
      assert !ForfeitFrom(log, 2);
    }
    assert '+' !in log[1];
    KingMovedIff(log, White);
    CanIff(InitialCastling, White, log, [], b, wa, ba, false, Kingside);
    var r := CheckCastlingRights(InitialCastling, White, log, [], b, wa, ba);
    assert Get(r.can, White, Kingside);
    assert SideOf("O-O") == Some(Kingside);
  }

  /**
    With the rook test added the availability implies the rook is home, so a
    castling from an available side (the player's scan having run) always
    brings the player's own king and rook to their castled squares.
   */
  lemma FixedCastlesOwnRook(st: CastleState, c: Color, log: seq<string>, rookFrom: seq<string>,
                            b: Grid, wa: seq<seq<nat>>, ba: seq<seq<nat>>, s: Side)
    requires |log| > 0 && Valid(b) && ValidCounts(wa) && ValidCounts(ba)
    requires FirstOwn(c) < |log| && At(b, KingHome(c)) == Occ(c, King)
    requires Get(CheckCastlingRightsFixed(st, c, log, rookFrom, b, wa, ba).can, c, s)
    ensures var nb := PerformCastling(CheckCastlingRightsFixed(st, c, log, rookFrom, b, wa, ba), b, c, Note(s)).0;
      At(nb, KingDest(c, s)) == Occ(c, King) && At(nb, RookDest(c, s)) == Occ(c, Rook)
  {
    CanIff(st, c, log, rookFrom, b, wa, ba, true, s);
    CastleBoard(CheckCastlingRightsFixed(st, c, log, rookFrom, b, wa, ba), b, c, s);
  }
}
