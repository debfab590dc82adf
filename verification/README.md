# Chess rules engine — a Dafny model

This project models the rules core of a two-player console chess program
(`main.cpp`). The board is an 8x8 grid of cells. Each cell is empty or holds a
piece of one colour. Rank 8 is row 0 and file a is column 0. Squares are
named in algebraic notation (`e4`).

For each turn the engine does the following:

- counts, per square, how many pieces of each colour attack it (the
  occupation maps);
- generates each piece's moves as short algebraic strings (`Nf3`, `exd5`,
  `Kxe2`), keyed by the square the piece stands on;
- offers castling when the rights and the path allow it;
- expands every move that reaches the last rank into its four promotion
  variants (`e8=Q`, `e8=R`, `e8=N`, `e8=B`);
- classifies every move by playing it on a scratch board: illegal (leaves
  the mover's king attacked), quiet, check, or mate (the opponent has no
  reply that leaves their king unattacked);
- marks checks with `+` and mates with `#`, drops illegal moves and origins
  left without moves;
- disambiguates the moves of knights, bishops, rooks and queens when two
  pieces of the same kind reach one square (`Nbd7`, `R1e2`, `Qh4e1`).

An input is accepted when some origin's list holds it exactly. An accepted
move is then played: a castling moves king and rook; any other move moves the
piece from the origin that lists it to the destination, and a promotion then
writes the chosen piece.

The modules follow that pipeline:

| file | module | what it holds |
|---|---|---|
| `wrappers.dfy` | `Wrappers` | `Option` |
| `squares.dfy` | `Squares` | squares, square names, the row-major square numbering |
| `board.dfy` | `Board` | cells, the grid, king lookup, moving a piece, the opening position |
| `geometry.dfy` | `Geometry` | directions and jump offsets of the pieces |
| `attacks.dfy` | `Attacks` | what each piece attacks, the occupation maps |
| `movegen.dfy` | `MoveGen` | the per-piece move generators and the move map |
| `verdicts.dfy` | `Verdicts` | the verdicts, the reply scan, marking and filtering |
| `legality.dfy` | `Legality` | the scratch-board classifier (`TryMoves`) |
| `promotion.dfy` | `Promotions` | promotion expansion and the promotion board write |
| `castling.dfy` | `Castling` | castling rights, availability, offering and playing a castling |
| `ambiguity.dfy` | `Ambiguity` | disambiguation (`scanAmbiguity`, `modifyLegalMove`) |
| `turn.dfy` | `Turn` | one turn: the listed moves, accepting an input, playing it |

## Model

| member | source | states |
|---|---|---|
| Squares.Name | main.cpp:12-15 | A square's name is a valid name, and parsing it gives the square back. |
| Squares.NameOfParse | main.cpp:2208-2215 | Every valid square name parses to an on-board square whose name is that string (names and squares are in bijection). |
| Squares.NameInjective | main.cpp:12-15 | Two on-board squares have the same name exactly when they are the same square. |
| Squares.IndexOf | main.cpp:786-787 | The row-major number of a square lies in 0..63, and numbering back gives the square. |
| Board.FindKingIn | main.cpp:1392-1404 | The king scan of the first k squares returns a square holding that colour's king, with no such king later in the scan; it returns nothing exactly when no square scanned holds one. |
| Board.FindKing | main.cpp:1392-1404 | The full-board king lookup finds a king exactly when the colour has one on the board, and what it finds is that colour's king. |
| Board.MovePiece | main.cpp:2208-2223 | `updateChessboard`: the destination receives what stood on the origin, the origin is emptied, and every other square is unchanged. |
| Board.MovePieceToPosition | main.cpp:710-741 | Moving from an empty square changes nothing; from an occupied square the board is updated as `updateChessboard` does. |
| Board.ApplyMove | main.cpp:1360-1375 | The scratch-board move: the origin is emptied; the destination gets the moving piece, or, for a promotion, a piece of the mover's colour of the chosen kind; all else is unchanged. |
| Board.ApplyKeepsOwnKing | main.cpp:1360-1375 | A move that does not land on the mover's own piece leaves the mover's king on the board. |
| Board.ApplyKeepsOtherColor | main.cpp:1360-1375 | A square that holds a piece of the other colour after the move held that same piece before: that colour gains nothing. |
| Board.InitialBoard | main.cpp:441-492 | The opening position: White's pieces fill rows 6 and 7, Black's rows 0 and 1, and rows 2 to 5 are empty. Pawns fill rows 1 and 6. On each back rank the rooks stand on the corners, the knights beside them, then the bishops, with the queen on column d and the king on column e. |
| Board.PromotionKind | main.cpp:2097-2104 | A promotion letter names a piece, never a pawn or a king, written with that letter. |
| Geometry.KnightOffsetsExact | main.cpp:185-222 | The eight knight offsets reach exactly the squares a knight's jump reaches (one file and two ranks apart, or two files and one rank). |
| Geometry.KingOffsetsExact | main.cpp:400-430 | The eight king offsets reach exactly the squares one king step away. |
| Geometry.DirectionSets | main.cpp:235-387 | The bishop directions are exactly the diagonal unit steps, the rook directions the orthogonal ones, and the queen directions all eight. |
| Geometry.ShiftBound | main.cpp:235-277 | A ray from an on-board square stays on the board for fewer than 8 steps, so every ray scan ends. |
| Attacks.PawnReachAsWrittenLeavesBoard | main.cpp:792-808 | The pawn attack guard as written lets a White pawn on rank 8 write to row -1, which is off the board. |
| Attacks.PawnReachExact | main.cpp:792-808 | Corrected reach: a pawn attacks exactly the on-board squares one row forward and one column to either side, and never the square straight ahead. |
| Attacks.KnightReachExact | main.cpp:808-823 | A knight attacks exactly the on-board squares a knight's jump away. |
| Attacks.KingReachExact | main.cpp:917-935 | A king attacks exactly the on-board squares one step away. |
| Attacks.OpeningWhiteReach | main.cpp:792-935 | When White's pieces fill rows 6 and 7 with pawns on row 6, as at the opening, every square a White piece attacks lies on rows 5 to 7. |
| Attacks.RayReachExact | main.cpp:824-854 | A sliding piece's ray reaches a square exactly when every square before it on the ray is empty; the ray includes the first occupied square, whatever its colour. |
| Attacks.RaysReachExact | main.cpp:824-916 | A slider reaches a square exactly when one of its directions' rays reaches it. |
| Attacks.OffsetReachExact | main.cpp:808-823 | Offset reach is exactly the on-board squares one offset away. |
| Attacks.OffsetReachNoRepeats | main.cpp:808-823 | An offset table without repeated offsets reaches each square at most once. |
| Attacks.RayReachNoRepeats | main.cpp:824-854 | A ray never reaches the same square twice. |
| Attacks.RaysReachNoRepeats | main.cpp:824-916 | Rays along different directions never share a square, so a slider reaches each square at most once. |
| Attacks.CountInIff | main.cpp:782-959 | A square's count over the first k squares is non-zero exactly when one of those squares' pieces reaches it. |
| Attacks.AttackedIff | main.cpp:782-959 | A square is attacked by a colour exactly when some piece of that colour reaches it. |
| Attacks.AttackMap | main.cpp:782-959 | Each counter of the occupation map equals the number of the colour's pieces reaching that square, counted with multiplicity. |
| Attacks.Bump | main.cpp:792-935 | Incrementing along a reach adds to each counter exactly the number of times the reach names that square. |
| Attacks.PartialStep | main.cpp:785-957 | Scanning one more square adds that square's piece's reach to the counts of its colour. |
| Attacks.CreatePieceOccupationMaps | main.cpp:782-959 | The engine's square-by-square incrementing loop produces exactly the White and Black occupation maps. |
| MoveGen.PieceNoteDest | main.cpp:185-430 | A piece move is its letter, an optional `x`, and the destination square; reading the destination back gives that square, and the `x` is there exactly for a capture. |
| MoveGen.PawnMovesExact | main.cpp:113-168 | A pawn's moves are exactly: its one-square push onto an empty square, written as the square alone; its two-square push from the start row over two empty squares; and its diagonal captures of an opponent piece, written with the pawn's file and `x` (`exd5`). |
| MoveGen.KnightMovesExact | main.cpp:185-222 | A knight's moves are exactly the jumps onto an empty square or an opponent piece, written `N`+square or `Nx`+square. |
| MoveGen.KingMovesExact | main.cpp:400-430 | A king's moves are exactly the steps onto an empty square the opponent does not attack (`K`+square) and the steps onto an opponent piece, attacked or not (`Kx`+square). |
| MoveGen.RayMovesExact | main.cpp:235-277 | A slider's moves along one direction are exactly the empty squares before the first piece, plus a capture of that piece when it is the opponent's. |
| MoveGen.RaysMovesExact | main.cpp:235-387 | Bishop, rook and queen moves are exactly the union of their directions' ray moves. |
| MoveGen.JumpMovesAsNotes | main.cpp:185-222 | The knight generator writes, in table order, one note for each in-board jump square that does not hold the mover's colour. |
| MoveGen.RaysMovesAsNotes | main.cpp:235-387 | The slider generators write, ray by ray, one note for each reached square that does not hold the mover's colour. |
| MoveGen.PieceMovesDistinct | main.cpp:185-387 | The list of a knight, bishop, rook or queen names each destination square at most once. |
| MoveGen.PieceMovesSound | main.cpp:605-657 | Every generated move names an on-board destination that the piece reaches or, for a pawn, pushes to, and that does not hold a piece of the mover's colour. |
| MoveGen.AllMoves | main.cpp:605-657 | The move map has a key for exactly the squares holding a piece of the mover's colour. |
| MoveGen.AllMovesAt | main.cpp:605-657 | Under each key stands exactly the list that piece's generator produces. |
| MoveGen.GenerateLegalMoves | main.cpp:605-657 | The generated map keeps exactly the origins whose list is not empty, with their lists unchanged. |
| MoveGen.GeneratedMovesSound | main.cpp:605-657 | Every move in the generated map comes from a piece of the mover's colour and is sound for it. |
| Verdicts.TwoMoveScanEmptyIff | main.cpp:1453-1545 | The reply scan returns an empty map exactly when no reply leaves the replying king unattacked. |
| Verdicts.TwoMoveScan | main.cpp:1453-1545 | An origin survives the reply scan exactly when one of its replies is safe, and then with its whole list. |
| Verdicts.VerdictShape | main.cpp:1406-1435 | The verdict for a move that keeps the mover's king safe is quiet exactly when the opponent's king is not attacked, mate when it is and no reply is safe, and check otherwise. |
| Verdicts.AnnotateMarks | main.cpp:1570-1600 | A marked move ends in `#` exactly for mate and in `+` exactly for check, and is unchanged otherwise. |
| Verdicts.MarkBoth | main.cpp:1570-1600 | Running `scanForChecks` and then `scanForCheckmates` gives each move its own verdict's mark. |
| Verdicts.ScanForChecks | main.cpp:1570-1584 | The check scan keeps every origin and the length of each list. |
| Verdicts.ScanForCheckmates | main.cpp:1586-1600 | The mate scan keeps every origin and the length of each list. |
| Verdicts.DropIllegalIff | main.cpp:1547-1568 | After filtering, a move is in a list exactly when some entry of that list equal to it was not judged illegal. |
| Verdicts.DropIllegalEmpty | main.cpp:1547-1568 | A filtered list is empty exactly when every one of its moves was judged illegal. |
| Verdicts.FilterIllegalMoves | main.cpp:1547-1568 | After filtering, every origin still listed was an origin before and has at least one move. |
| Verdicts.FinalizeIff | main.cpp:1442-1448 | After marking and filtering, an origin is listed exactly when one of its moves is not illegal, and its list holds exactly those moves, each marked by its verdict. |
| Legality.Stem | main.cpp:1342-1346 | Removing the promotion suffix: a promotion-shaped move loses its last two characters, and any other move is kept whole. |
| Legality.Promotion | main.cpp:1373-1375 | A promotion is read exactly from a promotion-shaped move, and it names the piece its last letter denotes. |
| Legality.Simulate | main.cpp:1348-1375 | Playing a move on a copy of the board keeps both kings on it (a move never lands on the opponent's king or the mover's own piece), and the opponent's pawns stay off their promotion row. |
| Legality.SimulateKeeps | main.cpp:1348-1375 | The same facts for the scratch-board move applied directly. |
| Legality.ReplySafeIff | main.cpp:1453-1545 | For a generated reply, the reply is safe exactly when the replying king is not attacked after it is played. |
| Legality.IllegalIff | main.cpp:1406-1435 | A move is judged illegal exactly when it is not a castling and the mover's king is attacked after it. |
| Legality.LegalVerdictShape | main.cpp:1406-1435 | A move that does not expose the mover's king is quiet exactly when it does not attack the opponent's king. It is mate exactly when it attacks the king and no reply of the opponent, played on a second scratch board, leaves the opponent's king unattacked. It is check exactly when it attacks the king and some reply does. |
| Legality.TryMoves | main.cpp:1327-1451 | Every origin `TryMoves` leaves in the map was in its input and keeps at least one move. |
| Legality.TryMovesIff | main.cpp:1327-1451 | After `TryMoves` an origin is listed exactly when one of its moves is not illegal. Its list holds exactly those moves, each marked `+` for check or `#` for mate. |
| Promotions.Expansions | main.cpp:2051-2071 | A promotion move has four variants; each is the move followed by `=` and a promotion letter. |
| Promotions.ExpansionsNotPromotions | main.cpp:2005-2049 | No promotion variant is itself taken for a move to expand. |
| Promotions.PromotionMoves | main.cpp:2005-2049 | The moves collected for expansion are exactly the list's moves onto the promotion rank written in lower case (pawn moves). |
| Promotions.OtherMoves | main.cpp:2005-2049 | The moves kept as they are are exactly the list's other moves. |
| Promotions.Remove | main.cpp:2051-2071 | The erase-remove step keeps exactly the entries different from the removed move. |
| Promotions.AddPawnPromotionMoves | main.cpp:2051-2071 | Under the given origin the promotion move is removed and its four variants appended; other origins are untouched; a missing origin changes nothing. |
| Promotions.ExpandListShape | main.cpp:2005-2071 | Expanding a list's promotion moves one after another removes them all and appends their variants in order. |
| Promotions.CheckPawnPromotions | main.cpp:2005-2049 | After expansion, each origin's list is its other moves followed by the four variants of each promotion move, in order. |
| Promotions.PromotionIff | main.cpp:2005-2071 | A move is listed after expansion exactly when it was listed and is no promotion move, or it is a variant of a listed promotion move. Each promotion move lengthens the list by three. |
| Promotions.NoPromotionUnchanged | main.cpp:2005-2049 | A list without promotion moves is left exactly as it was. |
| Promotions.PerformPawnPromotion | main.cpp:2073-2080 | The square named by the move's last two characters receives a piece of the mover's colour of the chosen kind; no other square changes. |
| Castling.Lower | main.cpp:1803-1815 | Lowering a colour's flags clears both of its sides and keeps the other colour's. |
| Castling.ForfeitFromIff | main.cpp:1796-1817 | The log scan, which reads every second entry from a start index, finds a forfeiting entry exactly when one of those entries is `O-O`, `O-O-O` or contains `K`. |
| Castling.KingMovedIff | main.cpp:1794-1817 | Scanning from the player's first entry finds a forfeit exactly when one of the player's own logged moves castled or moved the king. |
| Castling.CheckCastlingRights | main.cpp:1793-1908 | The engine's rights update never raises a right. |
| Castling.RightsIff | main.cpp:1793-1864 | After the update a right is held exactly when it was held, no own logged move castled or moved the king, and either the last move gave check or no rook moved from that corner. The opponent's rights are untouched. |
| Castling.CanIff | main.cpp:1793-1885 | After the update a side is available exactly when the king never moved, the last move gave no check and no rook left that corner. In addition, either the right is held with the path empty and unattacked, or the flag was already raised and the player has no logged move yet. |
| Castling.AvailableFromBefore | main.cpp:1793-1885 | A side is available after the update only if its right was held or it was available before. |
| Castling.NoCastlingInCheck | main.cpp:1819-1829 | When the last logged move gave check, no castling is offered. |
| Castling.AddCastlingMove | main.cpp:1928-1939 | The castling is appended to the list under the king's home square when that square has a list; no other list changes. |
| Castling.OfferCastling | main.cpp:1887-1907 | Offering changes only the list under the king's home square. With neither side available it changes nothing. |
| Castling.OfferedIff | main.cpp:1887-1939 | Under the king's home square, a castling is listed after offering exactly when it was listed before or its side is available. |
| Castling.OfferedFrom | main.cpp:1887-1939 | Whatever offering adds is a castling of an available side under the king's home square. |
| Castling.SideOf | main.cpp:2333-2334 | Exactly `O-O` and `O-O-O` name a side, and each is that side's notation. |
| Castling.PerformCastling | main.cpp:1941-2002 | A castling of an unavailable side, or a string that is no castling, changes nothing. An available one clears both of the mover's rights and availabilities and leaves the opponent's rights alone. |
| Castling.CastleBoard | main.cpp:1941-2002 | With king and rook at home, a castling puts the king on its destination and the rook beside it, empties both home squares, and leaves every other square unchanged. |
| Castling.CapturedRookStillCastles | main.cpp:1866-1870 | As written: White's kingside castling is offered after Black captured the h1 rook without the rook moving, and playing it moves the Black capturing piece to f1. |
| Castling.FixedCastlesOwnRook | main.cpp:1866-1870 | With the rook's presence added to the availability test, an offered castling always lands the player's own king and rook. |
| Ambiguity.Unmark | main.cpp:1638-1641 | A move ending in `+` or `#` loses exactly that last character. A move with no final mark, or an empty one, is returned unchanged. |
| Ambiguity.DestName | main.cpp:1643-1649 | The destination read from a move is a valid square name. |
| Ambiguity.CountToPositive | main.cpp:1624-1652 | A list counts towards a square exactly when one of its moves names that square. |
| Ambiguity.CountToAtMostOne | main.cpp:1624-1652 | A list whose moves name distinct squares adds at most one to any square. |
| Ambiguity.DropIllegalOnePerSquare | main.cpp:1547-1568 | Dropping illegal moves keeps a list at one move per destination. |
| Ambiguity.SumTwo | main.cpp:1613-1652 | A sum over squares of 0/1 contributions exceeds one exactly when two different squares contribute. |
| Ambiguity.AmbiguousIff | main.cpp:1602-1701 | A square's ambiguity count exceeds one exactly when two different pieces of one kind can move there. |
| Ambiguity.OccursIsDest | main.cpp:1694-1747 | For a generator-shaped move, the substring search for a square name finds it exactly when it is the move's destination. |
| Ambiguity.ContenderContributes | main.cpp:1669-1701 | A piece is among the contenders for a square exactly when its list counted towards that square. |
| Ambiguity.SameFileIff | main.cpp:1714-1735 | The file letter is repeated among the contenders exactly when another contender stands on the same file. |
| Ambiguity.SameRankIff | main.cpp:1714-1735 | The rank digit is repeated exactly when another contender stands on the same rank. |
| Ambiguity.DisambiguatorRule | main.cpp:1759-1765 | The inserted text is the file when no other contender shares it, otherwise the rank when no other contender shares that, otherwise the whole origin square. |
| Ambiguity.Insert | main.cpp:1751-1765 | Disambiguation inserts the text right after the piece letter and keeps the rest of the move. |
| Ambiguity.InsertKeepsDest | main.cpp:1751-1765 | Inserting the disambiguator keeps the move's destination and final character. |
| Ambiguity.DisambiguateIff | main.cpp:1669-1775 | A move of a scanned piece is rewritten exactly when another piece of its kind can also reach its destination, and then by the file, rank or square rule. |
| Ambiguity.DisambiguateByContenders | main.cpp:1669-1775 | When every list of the kind names each destination once, the counter-based rewrite equals the rewrite read off the set of contenders. |
| Ambiguity.DisambiguatedDistinct | main.cpp:1713-1765 | Two contenders for one square always end up with different move strings. |
| Ambiguity.ScanAmbiguity | main.cpp:1602-1778 | Disambiguation keeps every origin and the length of every list. It does not touch the lists of pawns and kings, and replaces each move of a knight, bishop, rook or queen by its disambiguated form in place. |
| Ambiguity.ScanAmbiguityIff | main.cpp:1602-1778 | When every list of the kind names each destination once, a scanned piece's rewritten list holds exactly the contender rewrites of its moves. |
| Ambiguity.ReplaceFirstAbsent | main.cpp:1780-1791 | Replacing a move that is not in the list changes nothing. |
| Ambiguity.ReplaceFirstAt | main.cpp:1780-1791 | Replacing changes exactly the first occurrence of the move. |
| Ambiguity.ModifyLegalMove | main.cpp:1780-1791 | `modifyLegalMove` changes only the list of the named origin. |
| Ambiguity.ModifyAt | main.cpp:1780-1791 | In a list without repeats, replacing the i-th move changes exactly position i. |
| Turn.OpeningTurnState | main.cpp:441-492 | The opening position, with White to move, every castling right held, no side available and an empty log, satisfies everything the turn relies on. In particular, no White piece attacks Black's king. |
| Turn.CastlingStage | main.cpp:2247-2250 | After the castling step every origin is a generated one. Every move is a generated move, or a castling listed under the king's home square while the king stands there. |
| Turn.CandidatesClassifiable | main.cpp:2247-2252 | Every move handed to the classifier can be played on a scratch board: its origin holds the mover's piece and its destination is a square. |
| Turn.CandidateFacts | main.cpp:2247-2252 | Every candidate move is playable, and a candidate of a knight, bishop, rook or queen names a destination. |
| Turn.ClassifiedReadable | main.cpp:2252-2253 | The classified map is what the disambiguation scan can read: each move of a scanned piece names a destination. |
| Turn.NoCastlingAway | main.cpp:1793-1885 | When the king is away from its home square and the log is not empty, no castling side is available. |
| Turn.ScannedCandidates | main.cpp:2247-2252 | Castling and promotion leave the list of a knight, bishop, rook or queen alone: its candidates are exactly its generator's list. |
| Turn.ClassifiedDistinct | main.cpp:2247-2253 | In the classified map the disambiguation scan reads, every knight, bishop, rook and queen names each destination at most once. |
| Turn.Listed | main.cpp:2247-2253 | Every origin listed to the player was a candidate and holds at least one move. With `rookCheck` false this is the engine's list as written; with `rookCheck` true castling also needs the rook on its corner. |
| Turn.ListedIff | main.cpp:2247-2253 | An origin is listed exactly when one of its candidate moves is not illegal. The list of a pawn or king holds exactly its legal candidates, each marked by its verdict. |
| Turn.ListedScannedIff | main.cpp:2247-2253 | The list of a knight, bishop, rook or queen holds exactly its classified moves, each with its origin's file, rank or square inserted when another piece of its kind also reaches the destination, and kept as it is otherwise. |
| Turn.IsInputValid | main.cpp:54-64 | The input is accepted exactly when some origin's list contains it. |
| Turn.BeforeTransitive | main.cpp:2357-2363 | The map's key order (`std::string` comparison) is transitive. |
| Turn.BeforeTotal | main.cpp:2357-2363 | Two different keys are always ordered one way or the other. |
| Turn.OriginOf | main.cpp:2357-2363 | The origin lookup returns nothing exactly when no list holds the input. Otherwise it returns the first origin, in key order, whose list holds the input. |
| Turn.MateNeverAnnouncedAsWritten | main.cpp:2319-2328 | As written, the end-of-game test never fires on a listed move. The intended test fires exactly on a move marked as mate. |
| Turn.MateMissedExample | main.cpp:2319-2328 | `Qh7#` does not end the game as written, and does with the intended test. |
| Turn.PlayMove | main.cpp:2310-2392 | Playing an accepted input keeps the board well formed and ends the game exactly when the input is marked as mate. A move that is not a castling leaves the castling state unchanged. |
| Turn.PlayMatchesClassifier | main.cpp:2336-2392 | Playing a classified move, whatever its mark, gives exactly the scratch board the classifier judged it on. |
| Turn.PlayCastling | main.cpp:2333-2334 | Playing an available castling, marked or not, puts king and rook on their squares and empties their homes. The mover keeps no right and no availability. |

## Left out

- Console output, the board display and reading input are not modelled. Neither is the outer game loop, which repeats the turn until mate. The model gives one turn: the listed moves, accepting an input, and playing it.
- The piece objects and the white/black piece vectors are left out (`findPieceAtPosition`, `removePieceAtPosition`, `addPieceToPosition`, the `Piece` class hierarchy). The grid is the only record of the board; the piece vectors mirror it.
- `findKeyOfRook` is left out. Its result, the list of squares rooks have moved from, is the `rookFrom` parameter of the castling update. The engine calls it for every input containing `R`.
- The `virtual_`/`hyper_virtual_` copies of the board, the maps and `initializeBoard` are modelled as immutable scratch boards. They are not modelled as mutable fields.
- Legality.TagOf: castling strings are not played on the scratch board and are given the quiet verdict. The engine would read their destination from the string `O-O`, which is not a square.
- Legality.Position: the classifier requires both kings on every scratch board. The engine reads uninitialised king coordinates when a king is missing.
- Turn.TurnState: the turn is modelled from a position where both kings stand, no pawn waits on its last rank, the opponent's king is not attacked, and every held castling right or available side has the king on its home square unless an own logged move moved the king. The engine does not check these conditions. The opening position meets them (Turn.OpeningTurnState). Each later turn keeps them: the legality filter keeps the first three, promotion keeps the second, and the log scan of `checkCastlingRights` withdraws the rights once the king moves. The model does not prove this preservation across turns.
- Ambiguity.DisambiguateIff: the engine finds a move's square by substring search; the model compares destinations. Ambiguity.OccursIsDest proves that the two agree for every move shape the generators produce.
- Ambiguity.ScanAmbiguity: the model rewrites each move once, from the unmodified map. The engine rewrites the map in place and may insert twice when run again. Repeating disambiguation is not claimed to be idempotent.
- Ambiguity.CountToAtMostOne: relies on a piece's list naming each destination at most once. Turn.ClassifiedDistinct proves this for the map the scan reads in a turn. It is not claimed for pawns and kings, whose lists the scan does not read.
- Promotions.PerformPawnPromotion: only the letters Q, R, N and B are modelled. The engine writes any letter it is given to the board, but only those four are ever listed.
- MoveGen.RayMovesExact: each ray is stated as the moves to the squares of the ray's reach. The engine's loop is written out as that reach.
- Turn.MateNeverAnnouncedAsWritten: a one-character input `#` counts as no mate. The engine would read the last character of an empty string there.

## Findings

| source | as written | input that shows it | evidently intended | confidence | as-written member | corrected member |
|---|---|---|---|---|---|---|
| main.cpp:794-800 | A White pawn's attack square is guarded by `y - 1 < 8` only, never by `y - 1 >= 0`. | A White pawn on row 0 (rank 8), reachable on a scratch board where promotion is not expanded, writes `whitePieceOccupation[-1][x±1]`. | The row is bounds-checked on both sides. | not executed | Attacks.PawnReachAsWrittenLeavesBoard | Attacks.PawnReachExact |
| main.cpp:1866-1885 | Castling availability checks the rights, the empty path and the attacked squares, but not that the rook still stands on its corner. | White king on e1, rook on h1 captured by a Black bishop (`Bxh1`), f1 and g1 empty and unattacked: `O-O` is offered and moves the Black bishop to f1. | A side is available only while the player's own rook stands on its corner. | not executed | Castling.CapturedRookStillCastles | Castling.FixedCastlesOwnRook |
| main.cpp:2319-2328 | After dropping the final `+`/`#`, the loop tests the new last character for `#`. | `Qh7#` (accepted as listed) becomes `Qh7`, whose last character is `7`, so the game does not end. | The dropped character is tested, so a move marked as mate ends the game. | not executed | Turn.MateNeverAnnouncedAsWritten | Turn.PlayMove |
