/**
  The legality classifier: every candidate move is played on a scratch board and
  tagged quiet, illegal (own king attacked), check, or mate (check with no reply
  of the opponent that leaves its king unattacked). Checks and mates are then
  marked with `+` and `#` and illegal moves are removed.
 */
module Legality {
  import opened Wrappers
  import opened Squares
  import opened Board
  import opened Attacks
  import opened MoveGen
  import opened Verdicts

  predicate IsAlpha(ch: char) {
    'a' <= ch <= 'z' || 'A' <= ch <= 'Z'
  }

  /** A move carrying a promotion suffix: `=` and a letter as its last two characters. */
  predicate IsPromotionShaped(m: string) {
    |m| >= 4 && m[|m| - 2] == '=' && IsAlpha(m[|m| - 1])
  }

  predicate IsCastle(m: string) {
    m == "O-O" || m == "O-O-O"
  }

  /** The move without its promotion suffix. */
  function Stem(m: string): (r: string)
    ensures IsPromotionShaped(m) ==> |r| == |m| - 2 && r + m[|m| - 2..] == m
    ensures !IsPromotionShaped(m) ==> r == m
  {
    if IsPromotionShaped(m) then m[..|m| - 2] else m
  }

  /** The destination name: the last two characters of the stem. */
  function Target(m: string): string
    requires |Stem(m)| >= 2
  {
    Stem(m)[|Stem(m)| - 2..]
  }

  /** The piece a promotion suffix asks for, if there is one. */
  function Promotion(m: string): (p: Option<Kind>)
    requires IsPromotionShaped(m) ==> IsPromotionLetter(m[|m| - 1])
    ensures p.Some? <==> IsPromotionShaped(m)
    ensures p.Some? ==> Letter(p.value) == m[|m| - 1]
  {
    if IsPromotionShaped(m) then Some(PromotionKind(m[|m| - 1])) else None
  }

  /**
    What the engine relies on to play a move from origin `o` on its scratch
    board: the origin holds a piece of the mover's colour and, unless the move
    is a castling string, the destination is a square that holds neither a
    piece of the mover's colour nor the opponent's king, and a promotion suffix
    names one of the four promotion pieces and belongs to a pawn.
   */
  predicate Playable(b: Grid, c: Color, o: string, m: string)
    requires Valid(b)
  {
    IsName(o) && IsColor(At(b, Parse(o)), c)
    && (IsCastle(m) ||
        (|Stem(m)| >= 2 && IsName(Target(m))
         && !IsColor(At(b, Parse(Target(m))), c)
         && At(b, Parse(Target(m))) != Occ(Opp(c), King)
         && (IsPromotionShaped(m) ==> IsPromotionLetter(m[|m| - 1]) && At(b, Parse(o)).kind == Pawn)))
  }

  /** The scratch board after the move (the copy, the two writes and the promotion write). */
  function Simulate(b: Grid, c: Color, o: string, m: string): (nb: Grid)
    requires Valid(b) && Playable(b, c, o, m) && !IsCastle(m)
    ensures Valid(nb)
    ensures HasKing(b, c) ==> HasKing(nb, c)
    ensures HasKing(b, Opp(c)) ==> HasKing(nb, Opp(c))
    ensures NoPawnOnLastRow(b, Opp(c)) ==> NoPawnOnLastRow(nb, Opp(c))
  {
    SimulateKeeps(b, c, o, m);
    ApplyMove(b, Parse(o), Parse(Target(m)), Promotion(m))
  }

  lemma SimulateKeeps(b: Grid, c: Color, o: string, m: string)
    requires Valid(b) && Playable(b, c, o, m) && !IsCastle(m)
    ensures var nb := ApplyMove(b, Parse(o), Parse(Target(m)), Promotion(m));
      (HasKing(b, c) ==> HasKing(nb, c))
      && (HasKing(b, Opp(c)) ==> HasKing(nb, Opp(c)))
      && (NoPawnOnLastRow(b, Opp(c)) ==> NoPawnOnLastRow(nb, Opp(c)))
  {
    var from, to, p := Parse(o), Parse(Target(m)), Promotion(m);
    var nb := ApplyMove(b, from, to, p);
    if HasKing(b, c) {
      ApplyKeepsOwnKing(b, from, to, p);
    }
    if HasKing(b, Opp(c)) {
      var k :| OnBoard(k) && At(b, k) == Occ(Opp(c), King);
      assert At(nb, k) == Occ(Opp(c), King);
    }
    if NoPawnOnLastRow(b, Opp(c)) {
      forall s | OnBoard(s) && At(nb, s) == Occ(Opp(c), Pawn)
        ensures s.y != LastRow(Opp(c))
      {
        ApplyKeepsOtherColor(b, from, to, p, s);
      }
    }
  }

  // ---------------------------------------------------------------- the reply scan

  /**
    The opponent's replies on the scratch board `nb`, unpruned. The king
    generator consults `km`: the engine passes it the mover's attack map of the
    real board, which is what its global map still holds at that point.
   */
  function Replies(km: seq<seq<nat>>, nb: Grid, c: Color): map<string, seq<string>>
    requires ValidCounts(km) && Valid(nb) && NoPawnOnLastRow(nb, Opp(c))
  {
    AllMoves(nb, Opp(c), km)
  }

  /**
    One reply of colour `r` from `o` on the scratch board `nb`, played on a
    second scratch board, leaves `r`'s king unattacked.
   */
  predicate ReplySafe(nb: Grid, r: Color, o: string, m: string)
    requires Valid(nb)
  {
    IsName(o) && IsColor(At(nb, Parse(o)), r) && HasDest(m) && !IsColor(At(nb, Dest(m)), r)
    && var hb := ApplyMove(nb, Parse(o), Dest(m), None);
       FindKing(hb, r).Some? && !Attacked(hb, Opp(r), FindKing(hb, r).value)
  }

  /** The reply test of `ReplySafe` as a function value, for the scan. */
  function SafeTest(nb: Grid, r: Color): (string, string) -> bool
    requires Valid(nb)
  {
    (o, m) => ReplySafe(nb, r, o, m)
  }

  /**
    For a generated reply the guards of `ReplySafe` always hold, so the verdict
    rests on the attack test alone: the reply is safe exactly when the replying
    king is not attacked after it.
   */
  lemma ReplySafeIff(km: seq<seq<nat>>, nb: Grid, c: Color, o: string, m: string)
    requires ValidCounts(km) && Valid(nb) && NoPawnOnLastRow(nb, Opp(c)) && HasKing(nb, Opp(c))
    requires o in Replies(km, nb, c) && m in Replies(km, nb, c)[o]
    ensures IsName(o) && HasDest(m)
    ensures var hb := ApplyMove(nb, Parse(o), Dest(m), None);
      HasKing(hb, Opp(c))
      && (ReplySafe(nb, Opp(c), o, m) <==> !Attacked(hb, c, FindKing(hb, Opp(c)).value))
  {
    GeneratedBasics(nb, Opp(c), km, o, m);
    ApplyKeepsOwnKing(nb, Parse(o), Dest(m), None);
  }

  // ---------------------------------------------------------------- one verdict

  /** Both kings on the board and no opponent pawn waiting to promote. */
  ghost predicate Position(b: Grid, c: Color) {
    Valid(b) && HasKing(b, c) && HasKing(b, Opp(c)) && NoPawnOnLastRow(b, Opp(c))
  }

  /**
    The verdict for one move (the body of `TryMoves`' inner loop). Castling
    strings are not played on the scratch board and count as quiet.
   */
  function TagOf(b: Grid, c: Color, km: seq<seq<nat>>, o: string, m: string): Tag
    requires Position(b, c) && ValidCounts(km) && Playable(b, c, o, m)
  {
    if IsCastle(m) then Quiet
    else
      var nb := Simulate(b, c, o, m);
      if Attacked(nb, Opp(c), FindKing(nb, c).value) then Illegal
      else LegalVerdict(km, nb, c)
  }

  /**
    The verdict for a move that keeps the mover's king safe, from the scratch
    board `nb`: quiet unless the opponent's king is attacked, and then check or
    mate as the reply scan finds an escape or not.
   */
  function LegalVerdict(km: seq<seq<nat>>, nb: Grid, c: Color): (t: Tag)
    requires ValidCounts(km) && Valid(nb) && HasKing(nb, Opp(c)) && NoPawnOnLastRow(nb, Opp(c))
    ensures t != Illegal
  {
    if !Attacked(nb, c, FindKing(nb, Opp(c)).value) then Quiet
    else if |TwoMoveScan(Replies(km, nb, c), SafeTest(nb, Opp(c)))| == 0 then Mate
    else Check
  }

  /** A move is illegal exactly when it leaves the mover's king attacked. */
  lemma IllegalIff(b: Grid, c: Color, km: seq<seq<nat>>, o: string, m: string)
    requires Position(b, c) && ValidCounts(km) && Playable(b, c, o, m)
    ensures TagOf(b, c, km, o, m) == Illegal ==>
      !IsCastle(m) && Attacked(Simulate(b, c, o, m), Opp(c), FindKing(Simulate(b, c, o, m), c).value)
    ensures !IsCastle(m) && Attacked(Simulate(b, c, o, m), Opp(c), FindKing(Simulate(b, c, o, m), c).value) ==>
      TagOf(b, c, km, o, m) == Illegal
  {
  }

  /** Some reply of `r` in `rs`, played on the scratch board `nb`, leaves `r`'s king unattacked. */
  ghost predicate SomeReplySafe(rs: map<string, seq<string>>, nb: Grid, r: Color)
    requires Valid(nb)
  {
    exists o, m :: o in rs && m in rs[o] && ReplySafe(nb, r, o, m)
  }

  /**
    `LegalVerdict` read back: quiet exactly when the opponent's king is not
    attacked, mate exactly when it is and no reply of the opponent leaves its
    king unattacked, check exactly when it is and some reply does.
   */
  lemma LegalVerdictShape(km: seq<seq<nat>>, nb: Grid, c: Color)
    requires ValidCounts(km) && Valid(nb) && HasKing(nb, Opp(c)) && NoPawnOnLastRow(nb, Opp(c))
    ensures var a := Attacked(nb, c, FindKing(nb, Opp(c)).value);
      var t, rs := LegalVerdict(km, nb, c), Replies(km, nb, c);
      && (t == Quiet <==> !a)
      && (t == Mate <==> a && !SomeReplySafe(rs, nb, Opp(c)))
      && (t == Check <==> a && SomeReplySafe(rs, nb, Opp(c)))
  {
    ReplyVerdictShape(LegalVerdict(km, nb, c), Attacked(nb, c, FindKing(nb, Opp(c)).value), Replies(km, nb, c), nb, Opp(c));
  }

  /** `VerdictShape` for the reply test `SafeTest`, over any reply map. */
  lemma ReplyVerdictShape(t: Tag, a: bool, rs: map<string, seq<string>>, nb: Grid, r: Color)
    requires Valid(nb)
    requires t == if !a then Quiet else if |TwoMoveScan(rs, SafeTest(nb, r))| == 0 then Mate else Check
    ensures t == Quiet <==> !a
    ensures t == Mate <==> a && !SomeReplySafe(rs, nb, r)
    ensures t == Check <==> a && SomeReplySafe(rs, nb, r)
  {
    var safe := SafeTest(nb, r);
    VerdictShape(t, a, rs, safe);
    if !NoneSafe(rs, safe) {
      var o, m :| o in rs && m in rs[o] && safe(o, m);
      assert ReplySafe(nb, r, o, m);
    }
  }

  // ---------------------------------------------------------------- all moves

  /** What the classifier works on: a legal position and a move map it can play. */
  ghost predicate ClassifierInput(b: Grid, c: Color, mm: map<string, seq<string>>) {
    Position(b, c) && forall o, m :: o in mm && m in mm[o] ==> Playable(b, c, o, m)
  }

  /** The verdicts for one origin's list, in the order of the list. */
  function Tags(b: Grid, c: Color, km: seq<seq<nat>>, o: string, ms: seq<string>): (ts: seq<Tag>)
    requires Position(b, c) && ValidCounts(km)
    requires forall i :: 0 <= i < |ms| ==> Playable(b, c, o, ms[i])
    ensures |ts| == |ms|
  {
    seq(|ms|, i requires 0 <= i < |ms| => TagOf(b, c, km, o, ms[i]))
  }

  /** The `results` map of `TryMoves`: one verdict per move of every origin. */
  function Results(b: Grid, c: Color, km: seq<seq<nat>>, mm: map<string, seq<string>>): (res: map<string, seq<Tag>>)
    requires ClassifierInput(b, c, mm) && ValidCounts(km)
    ensures res.Keys == mm.Keys && Aligned(mm, res)
  {
    map o | o in mm :: Tags(b, c, km, o, mm[o])
  }

  /**
    `TryMoves`: classify every move, mark checks and mates, and drop the
    illegal moves and the origins left without moves. `km` is the attack map
    the replying king generator reads (see `Replies`).
   */
  function TryMoves(b: Grid, c: Color, km: seq<seq<nat>>, mm: map<string, seq<string>>): (r: map<string, seq<string>>)
    requires ClassifierInput(b, c, mm) && ValidCounts(km)
    ensures forall o :: o in r ==> o in mm && |r[o]| > 0
  {
    Finalize(mm, Results(b, c, km, mm))
  }

  /**
    After `TryMoves` an origin is listed exactly when one of its moves is not
    illegal, and its list holds exactly its moves that are not illegal, each
    with `+` when it gives check and `#` when it mates.
   */
  lemma TryMovesIff(b: Grid, c: Color, km: seq<seq<nat>>, mm: map<string, seq<string>>, o: string, x: string)
    requires ClassifierInput(b, c, mm) && ValidCounts(km)
    ensures o in TryMoves(b, c, km, mm) <==> o in mm && exists m :: m in mm[o] && TagOf(b, c, km, o, m) != Illegal
    ensures o in TryMoves(b, c, km, mm) ==>
      (x in TryMoves(b, c, km, mm)[o] <==>
       exists m :: m in mm[o] && TagOf(b, c, km, o, m) != Illegal && x == Annotate(m, TagOf(b, c, km, o, m)))
  {
    var res := Results(b, c, km, mm);
    var tag := (o', m') => if o' in mm && m' in mm[o'] then TagOf(b, c, km, o', m') else Quiet;
    forall o', i | o' in mm && 0 <= i < |mm[o']|
      ensures res[o'][i] == tag(o', mm[o'][i])
    {
    }
    FinalizeByTag(mm, res, tag, o, x);
  }
}
