/**
  One turn of the engine: the move list offered to the player is built by
  generating, offering castling, expanding promotions, classifying and
  disambiguating, in that order; an input is accepted when it is listed; an
  accepted move is played on the board.
 */
module Turn {
  import opened Wrappers
  import opened Squares
  import opened Board
  import opened Attacks
  import opened MoveGen
  import opened Verdicts
  import opened Legality
  import opened Ambiguity
  import Castling
  import Promotions

  // ---------------------------------------------------------------- the state a turn starts from

  /** The mover attacks no square holding the opponent's king: the opponent's last move was legal. */
  ghost predicate OpponentKingSafe(b: Grid, c: Color)
    requires Valid(b)
  {
    forall s {:trigger At(b, s)} :: OnBoard(s) && At(b, s) == Occ(Opp(c), King) ==> !Attacked(b, c, s)
  }

  /**
    While a castling right is held or a side is available, the king stands on
    its home square, unless an own logged move moved it (the log scan of
    `checkCastlingRights` then withdraws the right before anything is offered).
   */
  ghost predicate CastlingAgrees(st: Castling.CastleState, b: Grid, c: Color, log: seq<string>)
    requires Valid(b)
  {
    forall s :: Castling.Get(st.rights, c, s) || Castling.Get(st.can, c, s) ==>
      At(b, Castling.KingHome(c)) == Occ(c, King) || Castling.KingMoved(log, c)
  }

  /**
    What the engine's turn relies on: both kings on the board, no pawn on the
    row it would have promoted on, the opponent's king not attacked, and a
    castling state that agrees with the board and the log.
   */
  ghost predicate TurnState(b: Grid, c: Color, st: Castling.CastleState, log: seq<string>) {
    Valid(b) && HasKing(b, White) && HasKing(b, Black)
    && NoPawnOnLastRow(b, White) && NoPawnOnLastRow(b, Black)
    && OpponentKingSafe(b, c) && CastlingAgrees(st, b, c, log)
  }

  /** The opening position, White to move with every right held and an empty log, is a turn state. */
  lemma OpeningTurnState()
    ensures TurnState(InitialBoard(), White, Castling.InitialCastling, [])
  {
    var b := InitialBoard();
    assert WhiteAtHome(b);
    assert OnBoard(Sq(7, 4)) && At(b, Sq(7, 4)) == Occ(White, King);
    assert OnBoard(Sq(0, 4)) && At(b, Sq(0, 4)) == Occ(Black, King);
    forall s | OnBoard(s) && At(b, s) == Occ(Black, King)
      ensures !Attacked(b, White, s)
    {
      AttackedIff(b, White, s);
      if Attacked(b, White, s) {
        var q :| OnBoard(q) && IsColor(At(b, q), White) && s in Reach(b, q);
        OpeningWhiteReach(b, q, s);
      }
    }
  }

  // ---------------------------------------------------------------- the stages

  /** `generateLegalMoves`, with the king consulting the opponent's attack map of the board. */
  function Generated(b: Grid, c: Color): map<string, seq<string>>
    requires Valid(b) && NoPawnOnLastRow(b, c)
  {
    GenerateLegalMoves(b, c, AttackMap(b, Opp(c)))
  }

  /**
    The castling state after `checkCastlingRights`, which runs only once the
    log has an entry. With `rookCheck` false this is the engine's rule as
    written; with `rookCheck` true the availability test also asks for the
    rook on its corner (see `Castling.CapturedRookStillCastles`).
   */
  function CastlingStep(st: Castling.CastleState, c: Color, log: seq<string>, rookFrom: seq<string>, rookCheck: bool, b: Grid): Castling.CastleState
    requires Valid(b)
  {
    if |log| == 0 then st
    else Castling.CheckRightsWith(st, c, log, rookFrom, b, AttackMap(b, White), AttackMap(b, Black), rookCheck)
  }

  /** The generated moves with the available castlings added under the king's home square. */
  function WithCastling(b: Grid, c: Color, st: Castling.CastleState, log: seq<string>, rookFrom: seq<string>, rookCheck: bool): map<string, seq<string>>
    requires Valid(b) && NoPawnOnLastRow(b, c)
  {
    if |log| == 0 then Generated(b, c)
    else Castling.OfferCastling(CastlingStep(st, c, log, rookFrom, rookCheck, b), c, Generated(b, c))
  }

  /** The moves handed to the classifier: castling offered, then promotions expanded. */
  function Candidates(b: Grid, c: Color, st: Castling.CastleState, log: seq<string>, rookFrom: seq<string>, rookCheck: bool): map<string, seq<string>>
    requires Valid(b) && NoPawnOnLastRow(b, c)
  {
    Promotions.CheckPawnPromotions(WithCastling(b, c, st, log, rookFrom, rookCheck), c)
  }

  // ---------------------------------------------------------------- what each stage hands on

  /**
    A generated move can be played by the classifier: it names a destination
    that is neither the mover's own piece nor (the opponent's king being safe)
    the opponent's king, it carries no promotion suffix, and a move of a piece
    other than a pawn starts with that piece's letter.
   */
  lemma GeneratedFacts(b: Grid, c: Color, o: string, m: string)
    requires Valid(b) && NoPawnOnLastRow(b, c) && OpponentKingSafe(b, c)
    requires o in Generated(b, c) && m in Generated(b, c)[o]
    ensures Playable(b, c, o, m) && !IsCastle(m) && HasDest(m) && !IsPromotionShaped(m)
    ensures At(b, Parse(o)).kind != Pawn ==> m[0] == Letter(At(b, Parse(o)).kind)
  {
    GeneratedMovesSound(b, c, AttackMap(b, Opp(c)), o, m);
    SoundMoveShaped(b, c, o, m);
  }

  /** A sound move of a piece of the mover's colour is one the classifier can play. */
  lemma SoundMoveShaped(b: Grid, c: Color, o: string, m: string)
    requires Valid(b) && OpponentKingSafe(b, c) && IsName(o) && IsColor(At(b, Parse(o)), c)
    requires SoundMove(b, Parse(o), m)
    ensures GeneratorShaped(b, c, o, m)
  {
    var t := Dest(m);
    assert !IsPromotionShaped(m);
    assert Stem(m) == m;
    if At(b, t).Occ? {
      AttackedIff(b, c, t);
      assert Attacked(b, c, t);
    }
  }

  /** `CastlingStage` over any move map and any attack maps. */
  lemma OfferedFromAgreeing(st: Castling.CastleState, c: Color, log: seq<string>, rookFrom: seq<string>, rookCheck: bool, b: Grid,
                            wa: seq<seq<nat>>, ba: seq<seq<nat>>, g: map<string, seq<string>>, o: string, x: string)
    requires |log| > 0 && Valid(b) && ValidCounts(wa) && ValidCounts(ba) && CastlingAgrees(st, b, c, log)
    requires var r := Castling.CheckRightsWith(st, c, log, rookFrom, b, wa, ba, rookCheck);
      o in Castling.OfferCastling(r, c, g) && x in Castling.OfferCastling(r, c, g)[o]
    ensures o in g
    ensures x in g[o] || (IsCastle(x) && o == Name(Castling.KingHome(c)) && At(b, Castling.KingHome(c)) == Occ(c, King))
  {
    var r := Castling.CheckRightsWith(st, c, log, rookFrom, b, wa, ba, rookCheck);
    Castling.OfferedFrom(r, c, g, o, x);
    if x !in g[o] {
      var s :| Castling.Get(r.can, c, s) && x == Castling.Note(s);
      Castling.CanIff(st, c, log, rookFrom, b, wa, ba, rookCheck, s);
    }
  }

  /**
    After castling is offered, every origin is a generated one and every
    move is a generated move or a castling listed under the home square of a
    king that stands there.
   */
  lemma CastlingStage(b: Grid, c: Color, st: Castling.CastleState, log: seq<string>, rookFrom: seq<string>, rookCheck: bool, o: string, x: string)
    requires TurnState(b, c, st, log)
    requires o in WithCastling(b, c, st, log, rookFrom, rookCheck) && x in WithCastling(b, c, st, log, rookFrom, rookCheck)[o]
    ensures o in Generated(b, c)
    ensures x in Generated(b, c)[o]
      || (IsCastle(x) && o == Name(Castling.KingHome(c)) && At(b, Castling.KingHome(c)) == Occ(c, King))
  {
    if |log| > 0 {
      OfferedFromAgreeing(st, c, log, rookFrom, rookCheck, b, AttackMap(b, White), AttackMap(b, Black), Generated(b, c), o, x);
    }
  }

  /** A promotion variant of a playable pawn move is playable. */
  lemma ExpansionPlayable(b: Grid, c: Color, o: string, p: string, x: string)
    requires Valid(b) && Playable(b, c, o, p) && !IsCastle(p) && !IsPromotionShaped(p)
    requires At(b, Parse(o)).kind == Pawn && x in Promotions.Expansions(p)
    ensures Playable(b, c, o, x) && !IsCastle(x)
  {
    assert x[..|p|] == p && x[|x| - 2] == '=';
    assert Stem(x) == p by {
      assert IsPromotionShaped(x);
    }
  }

  /** What the generator promises about one move (`GeneratedFacts`). */
  ghost predicate GeneratorShaped(b: Grid, c: Color, o: string, m: string)
    requires Valid(b)
  {
    Playable(b, c, o, m) && !IsCastle(m) && HasDest(m) && !IsPromotionShaped(m)
    && (At(b, Parse(o)).kind != Pawn ==> m[0] == Letter(At(b, Parse(o)).kind))
  }

  /** What the castling stage promises about one move (`CastlingStage`). */
  ghost predicate OfferShaped(b: Grid, c: Color, o: string, m: string)
    requires Valid(b)
  {
    GeneratorShaped(b, c, o, m)
    || (IsCastle(m) && o == Name(Castling.KingHome(c)) && At(b, Castling.KingHome(c)) == Occ(c, King))
  }

  /** An offer-shaped move is playable, and names a destination when its piece is scanned. */
  lemma KeptFacts(b: Grid, c: Color, o: string, x: string)
    requires Valid(b) && OfferShaped(b, c, o, x)
    ensures Playable(b, c, o, x)
    ensures ScannedOrigin(b, c, o) ==> HasDest(x)
  {
  }

  /** A promotion variant of an offer-shaped promotion move is playable and belongs to a pawn. */
  lemma ExpandedFacts(b: Grid, c: Color, o: string, p: string, x: string)
    requires Valid(b) && GeneratorShaped(b, c, o, p)
    requires Promotions.IsPromotionMove(p, c) && x in Promotions.Expansions(p)
    ensures Playable(b, c, o, x) && !ScannedOrigin(b, c, o)
  {
    assert Promotions.IsLower(p[0]);
    ExpansionPlayable(b, c, o, p, x);
  }

  /** No castling string passes the promotion-move test: it starts with a capital. */
  lemma PromotionNotCastle(p: string, c: Color)
    requires Promotions.IsPromotionMove(p, c)
    ensures !IsCastle(p)
  {
    if |p| >= 3 {
      assert Promotions.IsLower(p[0]);
    }
  }

  /**
    Expanding promotions in a map of offer-shaped moves gives moves the
    classifier can play, and the pieces the disambiguator reads keep moves
    that name a destination.
   */
  lemma PromotedFacts(b: Grid, c: Color, w: map<string, seq<string>>, o: string, x: string)
    requires Valid(b)
    requires forall o', m :: o' in w && m in w[o'] ==> OfferShaped(b, c, o', m)
    requires o in Promotions.CheckPawnPromotions(w, c) && x in Promotions.CheckPawnPromotions(w, c)[o]
    ensures Playable(b, c, o, x)
    ensures ScannedOrigin(b, c, o) ==> HasDest(x)
  {
    Promotions.PromotionIff(w, c, o, x);
    if x in w[o] && !Promotions.IsPromotionMove(x, c) {
      KeptFacts(b, c, o, x);
    } else {
      var p :| p in w[o] && Promotions.IsPromotionMove(p, c) && x in Promotions.Expansions(p);
      PromotionNotCastle(p, c);
      assert GeneratorShaped(b, c, o, p);
      ExpandedFacts(b, c, o, p, x);
    }
  }

  /** Every move after the castling stage is offer-shaped. */
  lemma OfferedShaped(b: Grid, c: Color, st: Castling.CastleState, log: seq<string>, rookFrom: seq<string>, rookCheck: bool)
    requires TurnState(b, c, st, log)
    ensures var w := WithCastling(b, c, st, log, rookFrom, rookCheck);
      forall o, m :: o in w && m in w[o] ==> OfferShaped(b, c, o, m)
  {
    var w := WithCastling(b, c, st, log, rookFrom, rookCheck);
    forall o, m | o in w && m in w[o]
      ensures OfferShaped(b, c, o, m)
    {
      CastlingStage(b, c, st, log, rookFrom, rookCheck, o, m);
      if m in Generated(b, c)[o] {
        GeneratedFacts(b, c, o, m);
      }
    }
  }

  /**
    Every move handed to the classifier can be played by it, and the moves
    of the pieces the disambiguator reads all name a destination.
   */
  lemma CandidateFacts(b: Grid, c: Color, st: Castling.CastleState, log: seq<string>, rookFrom: seq<string>, rookCheck: bool, o: string, x: string)
    requires TurnState(b, c, st, log)
    requires o in Candidates(b, c, st, log, rookFrom, rookCheck) && x in Candidates(b, c, st, log, rookFrom, rookCheck)[o]
    ensures Playable(b, c, o, x)
    ensures ScannedOrigin(b, c, o) ==> HasDest(x)
  {
    OfferedShaped(b, c, st, log, rookFrom, rookCheck);
    PromotedFacts(b, c, WithCastling(b, c, st, log, rookFrom, rookCheck), o, x);
  }

  /** The classifier's preconditions hold for the candidates. */
  lemma CandidatesClassifiable(b: Grid, c: Color, st: Castling.CastleState, log: seq<string>, rookFrom: seq<string>, rookCheck: bool)
    requires TurnState(b, c, st, log)
    ensures ClassifierInput(b, c, Candidates(b, c, st, log, rookFrom, rookCheck))
  {
    var mm := Candidates(b, c, st, log, rookFrom, rookCheck);
    forall o, m | o in mm && m in mm[o]
      ensures Playable(b, c, o, m)
    {
      CandidateFacts(b, c, st, log, rookFrom, rookCheck, o, m);
    }
  }

  /** A move that names a destination still does so, the same one, after it is marked. */
  lemma AnnotatedTarget(m: string, t: Tag)
    requires HasDest(m)
    ensures HasTarget(Annotate(m, t)) && DestName(Annotate(m, t)) == m[|m| - 2..]
    ensures Unmark(Annotate(m, t)) == m
  {
    var a := Annotate(m, t);
    assert m[|m| - 1] == m[|m| - 2..][1];
    if t == Check || t == Mate {
      assert |a| == |m| + 1 && a[..|m|] == m && IsMark(a[|m|]);
      assert Unmark(a) == m;
    } else {
      assert a == m;
    }
  }

  /** After classification every move of a piece the disambiguator reads names a destination. */
  lemma ClassifiedReadable(b: Grid, c: Color, st: Castling.CastleState, log: seq<string>, rookFrom: seq<string>, rookCheck: bool)
    requires TurnState(b, c, st, log) && ClassifierInput(b, c, Candidates(b, c, st, log, rookFrom, rookCheck))
    ensures Readable(b, c, TryMoves(b, c, AttackMap(b, c), Candidates(b, c, st, log, rookFrom, rookCheck)))
  {
    var mm := Candidates(b, c, st, log, rookFrom, rookCheck);
    var km := AttackMap(b, c);
    var t := TryMoves(b, c, km, mm);
    forall o, x | o in t && ScannedOrigin(b, c, o) && x in t[o]
      ensures HasTarget(x)
    {
      TryMovesIff(b, c, km, mm, o, x);
      var m :| m in mm[o] && TagOf(b, c, km, o, m) != Illegal && x == Annotate(m, TagOf(b, c, km, o, m));
      CandidateFacts(b, c, st, log, rookFrom, rookCheck, o, m);
      AnnotatedTarget(m, TagOf(b, c, km, o, m));
    }
  }

  // ---------------------------------------------------------------- one move per destination

  /** With its king away from home (and the log non-empty) a side has no castling available. */
  lemma NoCastlingAway(st: Castling.CastleState, c: Color, log: seq<string>, rookFrom: seq<string>, rookCheck: bool, b: Grid)
    requires |log| > 0 && Valid(b) && CastlingAgrees(st, b, c, log)
    requires At(b, Castling.KingHome(c)) != Occ(c, King)
    ensures var r := CastlingStep(st, c, log, rookFrom, rookCheck, b);
      !Castling.Get(r.can, c, Castling.Kingside) && !Castling.Get(r.can, c, Castling.Queenside)
  {
    var wa, ba := AttackMap(b, White), AttackMap(b, Black);
    Castling.CanIff(st, c, log, rookFrom, b, wa, ba, rookCheck, Castling.Kingside);
    Castling.CanIff(st, c, log, rookFrom, b, wa, ba, rookCheck, Castling.Queenside);
  }

  /**
    Castling is only ever added under the king's own square, so the list of a
    knight, bishop, rook or queen comes through the castling stage unchanged.
   */
  lemma ScannedSkipsCastling(b: Grid, c: Color, st: Castling.CastleState, log: seq<string>, rookFrom: seq<string>, rookCheck: bool, o: string)
    requires TurnState(b, c, st, log) && o in WithCastling(b, c, st, log, rookFrom, rookCheck) && ScannedOrigin(b, c, o)
    ensures o in Generated(b, c)
    ensures WithCastling(b, c, st, log, rookFrom, rookCheck)[o] == Generated(b, c)[o]
  {
    if |log| > 0 && o == Name(Castling.KingHome(c)) {
      NoCastlingAway(st, c, log, rookFrom, rookCheck, b);
    }
  }

  /** Expanding promotions leaves a list without promotion moves as it is. */
  lemma NoPromotionKept(w: map<string, seq<string>>, c: Color, o: string)
    requires o in w && forall x :: x in w[o] ==> !Promotions.IsPromotionMove(x, c)
    ensures o in Promotions.CheckPawnPromotions(w, c) && Promotions.CheckPawnPromotions(w, c)[o] == w[o]
  {
    Promotions.NoPromotionUnchanged(w[o], c);
  }

  /**
    Neither castling nor promotion touches the candidate list of a knight,
    bishop, rook or queen: it is the generator's list for that piece.
   */
  lemma ScannedCandidates(b: Grid, c: Color, st: Castling.CastleState, log: seq<string>, rookFrom: seq<string>, rookCheck: bool, o: string)
    requires TurnState(b, c, st, log) && o in Candidates(b, c, st, log, rookFrom, rookCheck) && ScannedOrigin(b, c, o)
    ensures PawnCanStep(b, Parse(o))
    ensures Candidates(b, c, st, log, rookFrom, rookCheck)[o] == PieceMoves(b, Parse(o), AttackMap(b, Opp(c)))
  {
    var w := WithCastling(b, c, st, log, rookFrom, rookCheck);
    var g := Generated(b, c);
    assert o in w;
    ScannedSkipsCastling(b, c, st, log, rookFrom, rookCheck, o);
    AllMovesAt(b, c, AttackMap(b, Opp(c)), o);
    forall x | x in w[o] ensures !Promotions.IsPromotionMove(x, c) {
      GeneratedFacts(b, c, o, x);
      assert !Promotions.IsLower(x[0]);
    }
    NoPromotionKept(w, c, o);
  }

  /** Marking keeps the destination of every move, so a list with one move per destination keeps that. */
  lemma MarkedOnePerSquare(ms: seq<string>, ts: seq<Tag>)
    requires |ts| == |ms| && DestsDistinct(ms)
    ensures var mk := Mark(Mark(ms, ts, Check, '+'), ts, Mate, '#');
      (forall m :: m in mk ==> HasTarget(m)) && OneMovePerSquare(mk)
  {
    var mk := Mark(Mark(ms, ts, Check, '+'), ts, Mate, '#');
    forall i | 0 <= i < |mk| ensures HasTarget(mk[i]) && DestName(mk[i]) == ms[i][|ms[i]| - 2..] {
      MarkBoth(ms, ts, i);
      AnnotatedTarget(ms[i], ts[i]);
    }
    forall m | m in mk ensures HasTarget(m) {
      var i :| 0 <= i < |mk| && mk[i] == m;
    }
    forall i, j | 0 <= i < j < |mk| ensures DestName(mk[i]) != DestName(mk[j]) {
      assert Dest(ms[i]) != Dest(ms[j]);
    }
  }

  /** The classifier's three passes keep a list with one move per destination so. */
  lemma FinalizeOnePerSquare(mm: map<string, seq<string>>, res: map<string, seq<Tag>>, o: string)
    requires Aligned(mm, res) && o in Finalize(mm, res) && o in mm && DestsDistinct(mm[o])
    ensures (forall m :: m in Finalize(mm, res)[o] ==> HasTarget(m)) && OneMovePerSquare(Finalize(mm, res)[o])
  {
    var ms, ts := mm[o], res[o];
    var mk := Mark(Mark(ms, ts, Check, '+'), ts, Mate, '#');
    assert ScanForCheckmates(ScanForChecks(mm, res), res)[o] == mk;
    assert Finalize(mm, res)[o] == DropIllegal(mk, ts);
    MarkedOnePerSquare(ms, ts);
    DropIllegalOnePerSquare(mk, ts);
  }

  /**
    In the classified map the disambiguator reads, every knight, bishop, rook
    and queen lists each destination square at most once.
   */
  lemma ClassifiedDistinct(b: Grid, c: Color, st: Castling.CastleState, log: seq<string>, rookFrom: seq<string>, rookCheck: bool, k: Kind)
    requires TurnState(b, c, st, log) && Scanned(k)
    ensures var mm := Candidates(b, c, st, log, rookFrom, rookCheck);
      && ClassifierInput(b, c, mm)
      && Readable(b, c, TryMoves(b, c, AttackMap(b, c), mm))
      && Distinct(b, c, k, TryMoves(b, c, AttackMap(b, c), mm))
  {
    var mm := Candidates(b, c, st, log, rookFrom, rookCheck);
    CandidatesClassifiable(b, c, st, log, rookFrom, rookCheck);
    ClassifiedReadable(b, c, st, log, rookFrom, rookCheck);
    var res := Results(b, c, AttackMap(b, c), mm);
    var t := TryMoves(b, c, AttackMap(b, c), mm);
    forall o | o in t && Holds(b, c, k, o) ensures OneMovePerSquare(t[o]) {
      ScannedCandidates(b, c, st, log, rookFrom, rookCheck, o);
      PieceMovesDistinct(b, Parse(o), AttackMap(b, Opp(c)));
      FinalizeOnePerSquare(mm, res, o);
    }
  }

  /**
    The move list offered to the player (the map after `scanAmbiguity`):
    the candidates classified, with illegal moves and origins without moves
    dropped, checks and mates marked, and the moves of knights, bishops,
    rooks and queens disambiguated. The replying king in the classifier reads
    the mover's attack map of the board.
   */
  function Listed(b: Grid, c: Color, st: Castling.CastleState, log: seq<string>, rookFrom: seq<string>, rookCheck: bool): (r: map<string, seq<string>>)
    requires TurnState(b, c, st, log)
    ensures ClassifierInput(b, c, Candidates(b, c, st, log, rookFrom, rookCheck))
    ensures forall o :: o in r ==> o in Candidates(b, c, st, log, rookFrom, rookCheck) && |r[o]| > 0
  {
    var mm := Candidates(b, c, st, log, rookFrom, rookCheck);
    CandidatesClassifiable(b, c, st, log, rookFrom, rookCheck);
    var t := TryMoves(b, c, AttackMap(b, c), mm);
    ClassifiedReadable(b, c, st, log, rookFrom, rookCheck);
    ScanAmbiguity(b, c, t)
  }

  /**
    An origin is listed exactly when one of its candidate moves is not
    illegal; the list of a pawn or king holds exactly its candidates that are
    not illegal, each marked with its verdict, and a disambiguated list is as
    long as before the rewrite.
   */
  lemma ListedIff(b: Grid, c: Color, st: Castling.CastleState, log: seq<string>, rookFrom: seq<string>, rookCheck: bool, o: string, x: string)
    requires TurnState(b, c, st, log)
    ensures var l := Listed(b, c, st, log, rookFrom, rookCheck);
      var mm, km := Candidates(b, c, st, log, rookFrom, rookCheck), AttackMap(b, c);
      && (o in l <==> o in mm && exists m :: m in mm[o] && TagOf(b, c, km, o, m) != Illegal)
      && (o in l && !ScannedOrigin(b, c, o) ==>
           (x in l[o] <==> exists m :: m in mm[o] && TagOf(b, c, km, o, m) != Illegal && x == Annotate(m, TagOf(b, c, km, o, m))))
  {
    CandidatesClassifiable(b, c, st, log, rookFrom, rookCheck);
    TryMovesIff(b, c, AttackMap(b, c), Candidates(b, c, st, log, rookFrom, rookCheck), o, x);
  }

  /**
    The list of a knight, bishop, rook or queen holds its classified moves
    (`TryMovesIff`), each rewritten by the disambiguator: a move to a square
    that another piece of the same kind and colour also reaches gets its
    origin's file, rank or whole name inserted after the piece letter, and
    every other move is kept as it is (`ContenderRewrite`).
   */
  lemma ListedScannedIff(b: Grid, c: Color, st: Castling.CastleState, log: seq<string>, rookFrom: seq<string>, rookCheck: bool, o: string, x: string)
    requires TurnState(b, c, st, log)
    ensures var l := Listed(b, c, st, log, rookFrom, rookCheck);
      var t := TryMoves(b, c, AttackMap(b, c), Candidates(b, c, st, log, rookFrom, rookCheck));
      && Readable(b, c, t)
      && (o in l && ScannedOrigin(b, c, o) ==>
           && o in t
           && (x in l[o] <==> exists m :: m in t[o] && x == ContenderRewrite(b, c, t, o, m)))
  {
    var l := Listed(b, c, st, log, rookFrom, rookCheck);
    var mm := Candidates(b, c, st, log, rookFrom, rookCheck);
    ClassifiedReadable(b, c, st, log, rookFrom, rookCheck);
    var t := TryMoves(b, c, AttackMap(b, c), mm);
    assert l == ScanAmbiguity(b, c, t);
    if o in l && ScannedOrigin(b, c, o) {
      ClassifiedDistinct(b, c, st, log, rookFrom, rookCheck, At(b, Parse(o)).kind);
      ScanAmbiguityIff(b, c, t, o, x);
    }
  }

  // ---------------------------------------------------------------- the input

  /** `isInputValid`: the input is accepted when some origin's list holds it. */
  method IsInputValid(input: string, mm: map<string, seq<string>>) returns (ok: bool)
    ensures ok <==> exists o :: o in mm && input in mm[o]
  {
    var keys := mm.Keys;
    while keys != {}
      invariant keys <= mm.Keys
      invariant forall o :: o in mm.Keys - keys ==> input !in mm[o]
      decreases keys
    {
      var k :| k in keys;
      var ms := mm[k];
      var i := 0;
      while i < |ms|
        invariant 0 <= i <= |ms|
        invariant input !in ms[..i]
      {
        if ms[i] == input {
          return true;
        }
        assert ms[..i + 1] == ms[..i] + [ms[i]];
        i := i + 1;
      }
      assert ms[..i] == ms;
      keys := keys - {k};
    }
    return false;
  }

  /** `std::string`'s `<`: lexicographic, a proper prefix first. */
  predicate Before(a: string, b: string)
    decreases |a|
  {
    if |a| == 0 then |b| > 0
    else if |b| == 0 then false
    else if a[0] != b[0] then a[0] < b[0]
    else Before(a[1..], b[1..])
  }

  lemma {:induction false} BeforeIrreflexive(a: string)
    ensures !Before(a, a)
    decreases |a|
  {
    if |a| > 0 {
      BeforeIrreflexive(a[1..]);
    }
  }

  lemma {:induction false} BeforeTransitive(a: string, b: string, c: string)
    requires Before(a, b) && Before(b, c)
    ensures Before(a, c)
    decreases |a|
  {
    if |a| > 0 && |b| > 0 && |c| > 0 && a[0] == b[0] && b[0] == c[0] {
      BeforeTransitive(a[1..], b[1..], c[1..]);
    }
  }

  lemma {:induction false} BeforeTotal(a: string, b: string)
    requires a != b
    ensures Before(a, b) || Before(b, a)
    decreases |a|
  {
    if |a| > 0 && |b| > 0 && a[0] == b[0] {
      BeforeTotal(a[1..], b[1..]);
    }
  }

  /**
    The origin the engine plays an accepted input from: walking the map in
    key order, the first origin whose list holds the input.
   */
  method OriginOf(mm: map<string, seq<string>>, input: string) returns (r: Option<string>)
    ensures r.None? <==> !exists o :: o in mm && input in mm[o]
    ensures r.Some? ==> r.value in mm && input in mm[r.value]
    ensures r.Some? ==> forall o :: o in mm && input in mm[o] && o != r.value ==> Before(r.value, o)
  {
    var keys := mm.Keys;
    r := None;
    while keys != {}
      invariant keys <= mm.Keys
      invariant r.None? ==> forall o :: o in mm.Keys - keys ==> input !in mm[o]
      invariant r.Some? ==> r.value in mm.Keys - keys && input in mm[r.value]
      invariant r.Some? ==> forall o :: o in mm.Keys - keys && input in mm[o] && o != r.value ==> Before(r.value, o)
      decreases keys
    {
      var k :| k in keys;
      if input in mm[k] {
        if r.None? {
          r := Some(k);
        } else if Before(k, r.value) {
          var old_best := r.value;
          forall o | o in mm.Keys - keys && input in mm[o] && o != k
            ensures Before(k, o)
          {
            if o != old_best {
              BeforeTransitive(k, old_best, o);
            }
          }
          r := Some(k);
        } else {
          BeforeTotal(k, r.value);
        }
      }
      keys := keys - {k};
    }
  }

  // ---------------------------------------------------------------- playing the input

  /** What an accepted move leaves behind: the board, the castling state, and whether the game ended. */
  datatype Outcome = Outcome(board: Grid, castling: Castling.CastleState, over: bool)

  /** The engine's loop announces mate as written: after dropping the final mark it tests the new last character. */
  predicate MateAnnouncedAsWritten(input: string) {
    |input| >= 2 && IsMark(input[|input| - 1]) && input[|input| - 2] == '#'
  }

  /** Mate announced as intended: the dropped mark is `#`. */
  predicate MateAnnounced(input: string) {
    |input| > 0 && input[|input| - 1] == '#'
  }

  /**
    No listed move ever ends the game as written: a marked move has a single
    mark, so the character before it is never `#`. With the intended test the
    game ends exactly on a move marked as mate.
   */
  lemma MateNeverAnnouncedAsWritten(m: string, t: Tag)
    requires |m| > 0 && !IsMark(m[|m| - 1])
    ensures !MateAnnouncedAsWritten(Annotate(m, t))
    ensures MateAnnounced(Annotate(m, t)) <==> t == Mate
  {
    AnnotateMarks(m, t);
  }

  /** A concrete case: the mating queen move `Qh7#` does not end the game as written. */
  lemma MateMissedExample()
    ensures !MateAnnouncedAsWritten("Qh7#") && MateAnnounced("Qh7#")
  {
  }

  /** An accepted input the move application can read: a castling, or a move naming its destination. */
  predicate Applicable(input: string) {
    var m := Unmark(input);
    IsCastle(m)
    || (|Stem(m)| >= 2 && IsName(Target(m)) && (IsPromotionShaped(m) ==> IsPromotionLetter(m[|m| - 1])))
  }

  /**
    The engine's move application for an input accepted from origin `o`:
    the final mark is dropped; a castling is performed; otherwise the piece on
    `o` moves to the destination and a promotion then writes the chosen piece.
   */
  function PlayMove(b: Grid, c: Color, st: Castling.CastleState, o: string, input: string): (r: Outcome)
    requires Valid(b) && IsName(o) && Applicable(input)
    ensures Valid(r.board)
    ensures r.over <==> MateAnnounced(input)
    ensures !IsCastle(Unmark(input)) ==> r.castling == st
  {
    var m := Unmark(input);
    var over := MateAnnounced(input);
    if IsCastle(m) then
      var (nb, ns) := Castling.PerformCastling(st, b, c, m);
      Outcome(nb, ns, over)
    else
      var moved := MovePieceToPosition(b, Parse(o), Parse(Target(m)));
      if IsPromotionShaped(m) then Outcome(Promotions.PerformPawnPromotion(moved, c, Stem(m), m[|m| - 1]), st, over)
      else Outcome(moved, st, over)
  }

  /**
    Playing a classified move on the board gives exactly the scratch board the
    classifier judged it on, whatever mark it carries.
   */
  lemma PlayMatchesClassifier(b: Grid, c: Color, st: Castling.CastleState, o: string, m: string, t: Tag)
    requires Valid(b) && Playable(b, c, o, m) && !IsCastle(m)
    requires |m| > 0 && !IsMark(m[|m| - 1])
    ensures Unmark(Annotate(m, t)) == m && Applicable(Annotate(m, t))
    ensures PlayMove(b, c, st, o, Annotate(m, t)).board == Simulate(b, c, o, m)
  {
    var a := Annotate(m, t);
    assert a[..|m|] == m;
    assert Unmark(a) == m;
  }

  /**
    Playing an available castling, whatever mark it carries, brings the king
    and the rook to their squares, empties their home squares, and leaves the
    mover with no right and no availability left.
   */
  lemma PlayCastling(b: Grid, c: Color, st: Castling.CastleState, o: string, s: Castling.Side, input: string)
    requires Valid(b) && IsName(o) && Castling.Get(st.can, c, s)
    requires At(b, Castling.KingHome(c)) == Occ(c, King) && Castling.RookAtHome(b, c, s)
    requires Unmark(input) == Castling.Note(s)
    ensures Applicable(input)
    ensures var r := PlayMove(b, c, st, o, input);
      && At(r.board, Castling.KingDest(c, s)) == Occ(c, King) && At(r.board, Castling.RookDest(c, s)) == Occ(c, Rook)
      && At(r.board, Castling.KingHome(c)) == Empty && At(r.board, Castling.RookHome(c, s)) == Empty
      && forall s' :: !Castling.Get(r.castling.rights, c, s') && !Castling.Get(r.castling.can, c, s')
  {
    assert Castling.SideOf(Castling.Note(s)) == Some(s);
    Castling.CastleBoard(st, b, c, s);
  }
}
