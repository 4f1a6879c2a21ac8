# Chess rules engine — a Dafny model

This project models the rule logic of a two-player chess game: the bitboard
position store with its attack oracle, the per-kind move generators, the
board that keeps a square -> piece map in step with the bitboard, and the
move history with its PGN-style export. Five modules, one per file:

- `ChessTypes` (chess_types.dfy): colours, the six kinds, the `Piece` record
  (`color`, `kind`, `hasMoved`), the four castling rights and square
  arithmetic. Squares are numbered a1 = 0 … h8 = 63, with file `s % 8` and
  rank `s / 8`.
- `Bitboards` (bitboard.dfy): the twelve per-colour, per-kind occupancy
  masks. Each is modelled as the set of squares whose bit is set, indexed
  as `map<Color, map<Kind, set<int>>>`. The masks are read by value
  functions: the lookup in WHITE/BLACK × PAWN..KING order, clear, place and
  move. The attack oracle covers pawn shift masks, the king mask, the
  knight offsets, the rook and bishop scans with the path test, and the
  queen test. The class `Bitboard` holds the masks, the combined white,
  black and all-pieces masks, the castling rights, the en-passant target
  and the two move counters. Its mutators are methods whose postconditions
  give the new masks as those value functions of the old ones, and they
  keep `Valid()`: the masks are well formed and the combined masks are
  their OR.
- `Pieces` (piece.dfy): the pseudo-legal generators. Each reads the board's
  map, castling rights and en-passant target (a `Position`) and returns its
  destinations in the order the engine appends them. The pawn generator
  covers pushes, double pushes, captures and the en-passant target. The
  rook and bishop rays, the queen, and the knight and king offset tables
  come next, then castling.
- `Board` (board.dfy): the class `ChessBoard`, with the map, the bitboard,
  the board's own castling rights and its own en-passant target. It covers
  the legality filter over a temporary board, move application, promotion,
  and the checkmate and stalemate tests. The representation invariant
  `Agree(pieces, bitboard.boards)` says each mask holds a square exactly
  when the map has a piece of that colour and kind there. It is proved once,
  over values, for every way the board changes the position. The methods
  then state their new state through those value functions.
- `MoveHistories` (move_history.dfy): the list of (notation, colour)
  entries. It covers filtering by colour, the (White, Black) pairing, the
  1-based pair lookup and the numbered PGN text.

Behaviour that is kept as the engine has it:

- **Two en-passant fields.** The board has its own en-passant target. It
  starts as None and no move changes it, and it is the one the pawn
  generator reads. `make_move` writes the bitboard's target instead. So
  `ChessBoard.MakeMove` leaves `enPassantTarget` alone, and
  `HandleSpecialMoves` sets `bitboard.enPassantTarget`.
- **En-passant victim square.** The en-passant handler empties `to + 8`
  for White and `to - 8` for Black (`EnPassantVictim`).
- **Two attack oracles.**
  - The board's own check test asks whether a square is in some enemy
    piece's pseudo-legal list (`Pieces.Attacked`). Under this test a pawn
    push counts as an attack, and a diagonal onto an empty square does not.
  - Checkmate, stalemate and the check flag of a move use the bitboard's
    oracle (`Bitboards.SquareUnderAttack`).
  - The bitboard's queen test never looks at queen squares
    (`Bitboards.QueenSquaresIgnored`).
- **Castling safety** tests only the two listed squares of each side, not
  the king's own square.
- **The temporary board** relocates only the moving piece. It moves no
  rook and removes no en-passant victim (`Board.TempPosition`).
- **Castling** moves whatever piece stands on the rook square.
- **Promotion to a king** writes a king into the masks while the map keeps
  the pawn, so the two representations stop agreeing
  (`Board.PromoteKingDesyncs`).
- **The check flag** returned by `make_move` is computed before the move is
  applied.
- **The PGN export** skips pairs without a White move. A skipped pair still
  uses up its number.

**Termination choice.** In the engine, the king's castling test asks the
board's attack test, which asks the other king's generator, which asks its
castling test again. When both kings may castle, this never ends. The
model's castling test uses the attack test without castling moves
(`Pieces.AttackedBySteps`). This changes no answer:

- `Pieces.AttackedFixedPoint` and `Pieces.CastlingQueriesExact` show that
  on every square castling asks about, the two tests agree.
- Those squares are never the other side's castling destinations.
- `Pieces.CastlingMovesExact` then states castling against the full attack
  test.

## Model

| member | source | states |
|---|---|---|
| ChessTypes.SquareAt | piece.py:43-45 | the square built from an on-board file and rank is a square with that file and rank |
| ChessTypes.SquareCoordinates | piece.py:38 | every square's file and rank are on the board and rebuild the square |
| Bitboards.EmptyBoardsWellFormed | bitboard.py:7-24 | a fresh store has twelve empty masks, which are well formed |
| Bitboards.InitialBoardsHolder | bitboard.py:43-55 | a starting mask holds a square exactly when the standard layout puts that colour and kind there |
| Bitboards.InitialBoardsWellFormed | bitboard.py:41-57 | the starting masks hold only squares, no square is in two masks, and they are the standard layout |
| Bitboards.UnionOfKindsMembership | bitboard.py:65-67 | the running OR over the first n kinds holds a square iff one of those n masks holds it |
| Bitboards.ColorMaskMembership | bitboard.py:61-69 | a colour's combined mask holds a square iff one of that colour's six masks holds it |
| Bitboards.FirstHolder | bitboard.py:74-78 | a found (colour, kind) has the square in its mask; None iff no later mask in lookup order has it |
| Bitboards.PieceAtSpec | bitboard.py:71-78 | the lookup is None iff no mask has the square; on well-formed masks it answers exactly the one mask that has it |
| Bitboards.PieceAtCongruence | bitboard.py:71-78 | the lookup depends only on which masks hold the square |
| Bitboards.Cleared | bitboard.py:88-93 | each of the twelve masks loses the square and nothing else |
| Bitboards.ClearedSpec | bitboard.py:88-95 | after clearing, the table stays well formed, the square is empty and every other square holds what it held |
| Bitboards.PlacedMasks | bitboard.py:80-86 | after set_piece the square is in the chosen mask and in no other; other squares' bits are unchanged |
| Bitboards.PlacedSpec | bitboard.py:80-86 | set_piece keeps the table well formed, the lookup on the square answers the chosen (colour, kind), and other squares are unchanged |
| Bitboards.MovedSpec | bitboard.py:97-104 | moving (c, k) from f to t leaves t holding (c, k) whatever was there, f empty unless f == t, and every other square as it was |
| Bitboards.PawnAttackGeometry | bitboard.py:147-156 | the shifted pawn masks attack a square iff a pawn stands one rank behind it in the attacker's direction on an adjacent file, so nothing wraps across the A/H files |
| Bitboards.PawnStep | bitboard.py:151-154 | one pawn's two guarded shifts are exactly its two forward diagonals |
| Bitboards.KingAttacksExact | bitboard.py:170-191 | the king mask of a square is exactly the on-board squares at distance one, with no wrap-around |
| Bitboards.BitScanForward | bitboard.py:285-288 | None iff the mask is empty; otherwise the lowest square in it |
| Bitboards.KingAttacksSquareExact | bitboard.py:158-168 | the king test holds iff the lowest square of the king mask is a neighbour of the square; higher king squares are ignored |
| Bitboards.WalkFrom | bitboard.py:271-283 | the path walk from step j reaches its target iff every square from step j up to the target is on the board and empty |
| Bitboards.ClearPathIff | bitboard.py:264-283 | for two squares on a common line, the path test is true iff every square strictly between them is empty; neighbours always pass |
| Bitboards.RookAttacksExact | bitboard.py:193-212 | the rook scan holds iff a rook of the colour shares the square's rank or file with nothing between |
| Bitboards.BishopAttacksExact | bitboard.py:214-234 | the bishop scan holds iff a bishop of the colour shares a diagonal with the square with nothing between |
| Bitboards.QueenAttacksSquare | bitboard.py:236-242 | the queen test is true only when the rook or bishop test is true, and false when the colour has no queen |
| Bitboards.QueenSquaresIgnored | bitboard.py:236-242 | a lone white queen on d1 does not attack d2 by the bitboard's oracle |
| Bitboards.KnightAttacksExact | bitboard.py:244-262 | the knight test holds iff a knight of the colour stands a knight's jump from the square |
| Bitboards.FirstKingSquare | bitboard.py:126-131 | a found square lies at or after the start and the lookup reports the colour's king there |
| Bitboards.FirstKingSquareLowest | bitboard.py:126-131 | the scan from a start square finds the lowest square from there on that holds the colour's king, and None iff there is none |
| Bitboards.KingInCheck | bitboard.py:125-137 | a colour without a king is never in check |
| Bitboards.KingInCheckExact | bitboard.py:125-137 | a colour is in check iff it has a king and the lowest square holding one is attacked by the other colour |
| Bitboards.SquareUnderAttackExact | bitboard.py:139-145 | a square is attacked iff a pawn stands diagonally behind it, a rook on its rank or file or a bishop on its diagonal sees it with nothing between, a knight is a jump away, or the lowest king square is a neighbour; queens add nothing |
| Bitboards.Bitboard.constructor | bitboard.py:6-39 | all masks empty and consistent, no castling rights, no en-passant target, counters 0 and 1 |
| Bitboards.Bitboard.SetInitialPosition | bitboard.py:41-59 | the masks become the starting layout with consistent combined masks and all four rights; target and counters unchanged |
| Bitboards.Bitboard.UpdateCombinedBoards | bitboard.py:61-69 | the white, black and all-pieces masks become the OR of the twelve |
| Bitboards.Bitboard.GetPieceAtSquare | bitboard.py:71-78 | returns the lookup over the masks in WHITE/BLACK × PAWN..KING order |
| Bitboards.Bitboard.ClearSquare | bitboard.py:88-95 | the masks become the cleared table and the combined masks stay consistent |
| Bitboards.Bitboard.ClearEverywhere | bitboard.py:91-93 | the colour loop produces the cleared table |
| Bitboards.Bitboard.ClearRow | bitboard.py:92-93 | the kind loop removes the square from each of one colour's six masks |
| Bitboards.Bitboard.SetPiece | bitboard.py:80-86 | the masks become the placed table and the combined masks stay consistent |
| Bitboards.Bitboard.MovePiece | bitboard.py:97-104 | returns true iff the origin held a piece; the masks become the moved table, which is unchanged for an empty origin |
| Bitboards.Bitboard.IsSquareOccupied | bitboard.py:106-108 | the all-pieces mask has the square iff the lookup finds a piece there |
| Bitboards.Bitboard.IsSquareOccupiedByColor | bitboard.py:110-113 | the colour's combined mask has the square iff the lookup finds a piece of that colour there |
| Bitboards.Bitboard.IsKingInCheck | bitboard.py:125-137 | the scan for the king and the oracle call answer the bitboard's check test |
| Bitboards.Bitboard.Copy | bitboard.py:298-311 | a fresh, consistent store with equal masks, rights, target and counters |
| Pieces.Ray | piece.py:83-93 | every square of a ray is on the board, is not the origin and is not held by the slider's colour |
| Pieces.RayExact | piece.py:82-106 | a ray holds exactly the squares along its direction with every earlier square empty and not held by the slider's colour |
| Pieces.ReachesBlocked | piece.py:88-92 | an occupied square ends the ray; it is included only when the other colour holds it |
| Pieces.RookMoves | piece.py:78-108 | rook destinations are on the board, not the origin, and not own-colour |
| Pieces.RookMovesExact | piece.py:78-108 | the rook reaches exactly what the four rank/file rays reach |
| Pieces.BishopMoves | piece.py:138-159 | bishop destinations are on the board, not the origin, and not own-colour |
| Pieces.BishopMovesExact | piece.py:138-159 | the bishop reaches exactly what the four diagonal rays reach |
| Pieces.QueenMoves | piece.py:166-169 | queen destinations are on the board, not the origin, and not own-colour |
| Pieces.QueenMovesExact | piece.py:166-169 | the queen list holds exactly the rook and bishop destinations, and its length is the sum of theirs |
| Pieces.OffsetMoves | piece.py:122-129 | an offset table yields exactly the on-board steps not held by the mover's colour |
| Pieces.KnightMovesExact | piece.py:115-131 | a knight reaches exactly the on-board squares a knight's jump away that its colour does not hold |
| Pieces.KingStepsExact | piece.py:176-191 | a king steps exactly onto the on-board neighbours its colour does not hold |
| Pieces.PawnMoves | piece.py:36-71 | on a valid position every pawn destination is a square |
| Pieces.PawnMovesExact | piece.py:36-71 | a pawn destination is exactly a push onto an empty square, a double push from the start rank over two empty squares, a diagonal onto an enemy piece, or the en-passant target on an adjacent file from the fifth rank |
| Pieces.PawnPushesExact | piece.py:40-54 | the pushes are exactly one step onto an empty square, and two steps from the start rank when both squares are empty |
| Pieces.PawnCapturesExact | piece.py:56-64 | the diagonal destinations are exactly the enemy-held squares one rank ahead on an adjacent file |
| Pieces.CastlingMoves | piece.py:197-233 | castling yields only g1/c1 or g8/c8 for the mover's colour, only empty squares, and nothing once the king has moved |
| Pieces.CastlingMovesExact | piece.py:197-233 | each castling destination appears iff the king has not moved, the right is held, the listed squares are empty and the two listed squares are not attacked |
| Pieces.CastlingQueriesExact | piece.py:203-231 | on the squares castling asks about, the attack test without castling equals the full attack test |
| Pieces.AttackedFixedPoint | board.py:247-254 | off the attacker's empty castling destinations, the full attack test and the test without castling agree |
| Pieces.PseudoLegalMoves | piece.py:176-195 | on a valid position every destination is a square; a non-pawn never lists its own colour's square |
| Pieces.PseudoLegalNotOrigin | piece.py:36-195 | no piece lists its own square |
| Board.AgreePieceAt | board.py:11-12 | when the map and masks agree, the bitboard lookup finds exactly the map's piece colour and kind on every square, and every key is a square |
| Board.AgreeClear | board.py:189-191 | removing a key from the map and clearing its bit keeps the two representations in step |
| Board.AgreeRelocate | board.py:145-149 | relocating the mover in the map and moving it in the masks keeps the two in step |
| Board.AgreeMoved | board.py:90-96 | the temporary board's relocation keeps the map and masks in step, whether or not the origin is occupied |
| Board.AgreeReplace | board.py:197-207 | writing a piece into the map and placing it in the masks keeps the two in step |
| Board.InitialPieceAt | board.py:22-48 | the starting map holds exactly the standard layout's squares, each piece unmoved |
| Board.InitialAgree | board.py:17-20 | the starting map and starting masks agree, and no piece has moved |
| Board.KingSquareFrom | board.py:234-239 | a found square holds a king of the colour and no earlier square does; None iff no king from there on |
| Board.TempPosition | board.py:83-98 | only the moving piece is relocated, overwriting any occupant; rights, target and all other squares are unchanged, and nothing changes when the origin is empty |
| Board.Filter | board.py:66-69 | the filtered list holds exactly the accepted entries and is no longer than the input |
| Board.FilterAppend | board.py:66-69 | filtering keeps the input order |
| Board.LegalMoves | board.py:60-63 | an empty square has no legal moves |
| Board.LegalMovesExact | board.py:60-81 | a destination is legal iff it is pseudo-legal and the relocated position does not leave the mover's colour in check; it is a square other than the origin |
| Board.MateExclusive | board.py:209-231 | a colour is never both checkmated and stalemated, and neither while one of its pieces has a legal move |
| Board.AfterCastling | board.py:172-185 | when a piece stands on the rook square it moves to the rook target and the rook square empties |
| Board.AfterEnPassant | board.py:187-191 | the victim square (to+8 for White, to−8 for Black) is removed and nothing else changes |
| Board.CastlingAgree | board.py:172-185 | the castling handler keeps the map and masks in step |
| Board.EnPassantAgree | board.py:187-191 | the en-passant handler keeps the map and masks in step |
| Board.SpecialAgree | board.py:157-165 | the special-move handler keeps the map and masks in step |
| Board.AppliedAgree | board.py:143-153 | an accepted move keeps the map and masks in step |
| Board.NextEnPassant | board.py:166-170 | the target is set iff a pawn moved 16 squares, and it is then the square passed over |
| Board.AppliedPieces | board.py:145-151 | after an accepted move the mover is on the destination marked as moved and the origin is empty |
| Board.SpecialKeepsMover | board.py:157-164 | the special-move handler never removes the mover from its origin |
| Board.EnPassantVictimNotOrigin | board.py:188 | the en-passant victim square is never the moving pawn's own square |
| Board.PromoteAgree | board.py:193-207 | promotion keeps the map and masks in step iff the new kind is not a king |
| Board.PromoteKingDesyncs | board.py:193-207 | promoting to a king leaves the masks well formed but no longer in step with the map |
| Board.ChessBoard.constructor | board.py:9-20 | a new board is consistent and holds the starting map and masks; the board and its bitboard both have all four rights and no en-passant target |
| Board.ChessBoard.SetInitialPosition | board.py:17-20 | the masks and the map become the starting position and agree |
| Board.ChessBoard.CreatePieces | board.py:22-48 | the map becomes the starting map |
| Board.ChessBoard.Reset | board.py:273-278 | a fresh consistent store with the starting position; the board and its new bitboard both have all four rights and no en-passant target |
| Board.ChessBoard.LookupsAgree | board.py:50-58 | on a consistent board the map's piece, occupancy and colour lookups answer as the bitboard's do |
| Board.ChessBoard.GetLegalMoves | board.py:60-71 | returns the legal destinations in generator order |
| Board.ChessBoard.IsLegalMove | board.py:73-81 | true iff a piece stands on the origin and the relocation leaves its colour not in check |
| Board.ChessBoard.LoadTempMove | board.py:85-96 | this board gets a fresh copy of the other's store with the masks moved, and the map, rights and target of the temporary position; the other board is not changed |
| Board.ChessBoard.MakeTempMove | board.py:83-98 | a fresh board with masks moved and map relocated as the temporary position; this board is not changed |
| Board.ChessBoard.IsKingInCheck | board.py:233-245 | answers the map-based check test on the lowest square holding the colour's king; false without a king |
| Board.ChessBoard.SquareUnderAttack | board.py:247-254 | true iff some enemy piece lists the square among its pseudo-legal destinations |
| Board.ChessBoard.MakeMove | board.py:127-155 | refuses exactly when the origin is empty, a king stands on the destination or the move is not legal, and then changes nothing; otherwise applies the move with the map and masks in step, the rights only losing bits and the bitboard target set |
| Board.ChessBoard.ApplyMove | board.py:143-153 | the map, masks, rights and bitboard target become their applied values |
| Board.ChessBoard.HandleSpecialMoves | board.py:157-170 | castling or en passant as the move calls for, then the bitboard target from the pawn's double step |
| Board.ChessBoard.HandleCastling | board.py:172-185 | the map and masks become their after-castling values |
| Board.ChessBoard.HandleEnPassant | board.py:187-191 | the map and masks become their after-en-passant values |
| Board.ChessBoard.UpdateCastlingRights | board.py:100-125 | the rights lose exactly those given up: both for a king move, the corner's for a rook leaving it or captured on it |
| Board.ChessBoard.PromotePawn | board.py:193-207 | nothing changes without a pawn on the square; otherwise the map and masks become their promoted values and stay in step unless the kind is a king |
| Board.ChessBoard.IsCheckmate | board.py:209-219 | true iff the bitboard's oracle reports check and no piece of the colour has a legal move |
| Board.ChessBoard.IsStalemate | board.py:221-231 | true iff the bitboard's oracle reports no check and no piece of the colour has a legal move |
| Board.ChessBoard.NoLegalMove | board.py:213-219 | true iff no piece of the colour has a legal move |
| MoveHistories.MovesForColor | move_history.py:23-25 | the filtered list is never longer than the record |
| MoveHistories.MovesForColorMembership | move_history.py:23-25 | a notation is kept iff the colour played it |
| MoveHistories.MovesForColorAppend | move_history.py:23-25 | filtering keeps the order of the record |
| MoveHistories.MovesForColorSplit | move_history.py:23-25 | the two colours' lists together have one entry per move |
| MoveHistories.PairsFromNonEmpty | move_history.py:39-54 | no pair is (None, None) |
| MoveHistories.PairsFromFlatten | move_history.py:39-54 | the pairs read back give the waiting White move followed by the notations in order |
| MoveHistories.PairsPreserveNotations | move_history.py:34-56 | every pair has a move, and the pairs read back in order give the record's notations |
| MoveHistories.PairsOfAlternatingStart | move_history.py:39-50 | a record that starts White, Black begins with that full pair |
| MoveHistories.AlternatingPairs | move_history.py:39-54 | an alternating record of n moves has ⌈n/2⌉ pairs, the k-th holding moves 2k and 2k+1, and the last is (w, None) when n is odd |
| MoveHistories.PairAt | move_history.py:30-32 | pair k−1 for 1 ≤ k ≤ the pair count, (None, None) otherwise |
| MoveHistories.PairAtFound | move_history.py:27-32 | on a record's own pairs a lookup finds a move iff the number is in range |
| MoveHistories.NatToString | move_history.py:63 | the move number is written as decimal digits without leading zeros |
| MoveHistories.NatToStringRoundTrip | move_history.py:63 | the decimal spelling reads back as the same number |
| MoveHistories.Chunk | move_history.py:62-65 | a pair gives one chunk iff its White move is present and non-empty |
| MoveHistories.ChunksCount | move_history.py:61-66 | one chunk per pair with a White move |
| MoveHistories.ChunksOfWhitePairs | move_history.py:61-66 | when every pair has a White move, pair j gets the chunk numbered k + j |
| MoveHistories.AlternatingChunks | move_history.py:58-66 | an alternating record of non-empty notations gives ⌈n/2⌉ chunks "k. w b", ending "k. w" when n is odd |
| MoveHistories.Join | move_history.py:68 | joining nothing gives the empty string and one string gives itself |
| MoveHistories.JoinLength | move_history.py:68 | joining adds exactly one separator between each two neighbours |
| MoveHistories.MoveHistory.constructor | move_history.py:6-7 | the record starts empty |
| MoveHistories.MoveHistory.AddMove | move_history.py:9-10 | appends exactly one entry at the end: the count grows by one and the last move is the new entry |
| MoveHistories.MoveHistory.GetLastMove | move_history.py:15-18 | None iff the record is empty; otherwise the most recent entry |
| MoveHistories.MoveHistory.Clear | move_history.py:20-21 | the record becomes empty and reports itself empty |
| MoveHistories.MoveHistory.IsEmpty | move_history.py:70-71 | true iff the count is zero, iff there is no last move |
| MoveHistories.MoveHistory.GetMovesForColor | move_history.py:23-25 | holds exactly the notations the colour played; its length and the other colour's add up to the record's |
| MoveHistories.MoveHistory.GetMovePairs | move_history.py:34-56 | returns the record's pairs: none is (None, None), and read back they give the notations in order |
| MoveHistories.MoveHistory.GetMovePair | move_history.py:27-32 | the pair numbered k from 1, or (None, None); found iff the number is in range |
| MoveHistories.MoveHistory.ExportPgn | move_history.py:58-68 | returns the chunks of the record's pairs, numbered from 1 and joined by single spaces |

## Left out

- ui.py, game.py and main.py are not part of this model. They hold rendering, event dispatch, timers and the main loop, all driven by the display library.
- The notation string built by `_get_move_notation` (board.py:256-271) is not modelled. It is formatting over symbol and file tables that are not part of this model. `ChessBoard.MakeMove` returns a `MoveRecord` instead: the kind that moved, the destination, and the check flag computed before the move.
- `Piece.get_symbol` and `get_image_path` (piece.py:19-26) are display lookups and are left out.
- The base `Piece.get_legal_moves` (piece.py:28-29) is not modelled. Kinds are a datatype and every kind has its own generator, so no piece can reach the base case.
- `Bitboard.get_attacks_to_square` (bitboard.py:115-123) and `get_all_pieces_of_color` (bitboard.py:290-296) are left out. No shown code uses them.
- The halfmove clock and fullmove number are only created and copied. Nothing updates them.
- The identity of `Piece` objects is not modelled. Pieces are values, and setting `has_moved` writes a new value into the map. The temporary board never changes the pieces it shares with the real board, so this loses nothing the rules read.
- Masks are sets of squares, not integers. A white pawn's shift on the eighth rank gives numbers above 63, which no query asks about. A black pawn's shift below square 0 drops out, as a right shift does. Castling rights are a set of four rights rather than four bits.
- Castling safety uses the attack test without castling moves. This is the termination choice explained above; `Pieces.CastlingMovesExact` states the result against the full test.
- Board.ChessBoard.MakeMove: states `bitboard.Valid()` and `Agree(pieces, bitboard.boards)` after the move rather than the board's `Valid()`. The third part of `Valid()`, the board's own en-passant target, is outside the method's modifies frame and so is unchanged.
- Board.ChessBoard.PromotePawn: states agreement only for kinds other than a king. For a king, `Board.PromoteKingDesyncs` shows that agreement is lost.
- MoveHistories.MoveHistory.GetMoveCount has no contract of its own. It is the length of the record, and `AddMove`, `GetLastMove` and `IsEmpty` state their results through it.
