/** The board: a square -> piece map kept in step with a `Bitboard`, the
    legality filter that replays each candidate move on a temporary board,
    move application with castling, en passant and castling-rights
    bookkeeping, promotion, and the checkmate and stalemate tests.

    The map is the board's own view of the position; the move generators and
    the board's own check test read it.  The masks answer the checkmate,
    stalemate and check-suffix questions through the bitboard's oracle. */
module Board {
  import opened ChessTypes
  import opened Bitboards
  import opened Pieces

  // ---------------------------------------------------------------------------
  // The representation invariant

  /** The map and the masks describe the same position: a mask holds a
      square exactly when the map holds a piece of that mask's colour and
      kind there. */
  ghost predicate Agree(pieces: map<int, Piece>, b: Boards)
    requires Complete(b)
  {
    forall c: Color, k: Kind :: b[c][k] == MaskOf(pieces, c, k)
  }

  /** The squares the map gives a piece of colour `c` and kind `k`. */
  ghost function MaskOf(pieces: map<int, Piece>, c: Color, k: Kind): set<int> {
    set s | s in pieces && pieces[s].color == c && pieces[s].kind == k
  }

  /** Removing a key removes it from the one mask it was in. */
  lemma MaskOfRemove(pieces: map<int, Piece>, sq: int, c: Color, k: Kind)
    ensures MaskOf(pieces - {sq}, c, k) == MaskOf(pieces, c, k) - {sq}
  {
  }

  /** Writing a piece on a key moves the key into that piece's mask only. */
  lemma MaskOfReplace(pieces: map<int, Piece>, sq: int, q: Piece, c: Color, k: Kind)
    ensures MaskOf(pieces[sq := q], c, k)
         == MaskOf(pieces, c, k) - {sq} + (if q.color == c && q.kind == k then {sq} else {})
  {
  }

  /** The representation invariant as the lookup sees it: the bitboard finds
      a piece on a square exactly when the map has one there, of the same
      colour and kind; and every key is a square. */
  lemma AgreePieceAt(pieces: map<int, Piece>, b: Boards)
    requires WellFormed(b) && Agree(pieces, b)
    ensures forall s :: PieceAt(b, s) == (if s in pieces then Some((pieces[s].color, pieces[s].kind)) else None)
    ensures forall s :: s in pieces ==> IsSquare(s)
  {
    forall s ensures PieceAt(b, s) == (if s in pieces then Some((pieces[s].color, pieces[s].kind)) else None) {
      AgreeAt(pieces, b, s);
    }
    forall s | s in pieces ensures IsSquare(s) {
      AgreeAt(pieces, b, s);
    }
  }

  /** AgreePieceAt on one square. */
  lemma AgreeAt(pieces: map<int, Piece>, b: Boards, s: int)
    requires WellFormed(b) && Agree(pieces, b)
    ensures PieceAt(b, s) == (if s in pieces then Some((pieces[s].color, pieces[s].kind)) else None)
    ensures s in pieces ==> IsSquare(s)
  {
    if s in pieces {
      var c, k := pieces[s].color, pieces[s].kind;
      assert s in MaskOf(pieces, c, k);
      PieceAtSpec(b, s);
    } else {
      forall c: Color, k: Kind ensures s !in b[c][k] {
        assert s !in MaskOf(pieces, c, k);
      }
      PieceAtSpec(b, s);
    }
  }

  /** Removing a key from the map and clearing its bit keeps the two in step. */
  lemma AgreeClear(pieces: map<int, Piece>, b: Boards, sq: int)
    requires WellFormed(b) && Agree(pieces, b)
    ensures WellFormed(Cleared(b, sq))
    ensures Agree(pieces - {sq}, Cleared(b, sq))
  {
    var r := Cleared(b, sq);
    WellFormedShrink(b, r);
    forall c: Color, k: Kind ensures r[c][k] == MaskOf(pieces - {sq}, c, k) {
      assert r[c][k] == b[c][k] - {sq};
      MaskOfRemove(pieces, sq, c, k);
    }
  }

  /** Relocating the piece on `from` to `to` in the map (overwriting any
      occupant) and moving it in the masks keeps the two in step; the piece
      may change anything but its colour and kind on the way. */
  lemma AgreeRelocate(pieces: map<int, Piece>, b: Boards, from: int, to: int, q: Piece)
    requires WellFormed(b) && Agree(pieces, b) && from in pieces && IsSquare(to)
    requires q.color == pieces[from].color && q.kind == pieces[from].kind
    ensures PieceAt(b, from) == Some((q.color, q.kind))
    ensures WellFormed(Placed(Cleared(b, from), to, q.color, q.kind))
    ensures Agree((pieces - {from})[to := q], Placed(Cleared(b, from), to, q.color, q.kind))
  {
    AgreeAt(pieces, b, from);
    AgreeClear(pieces, b, from);
    AgreeReplace(pieces - {from}, Cleared(b, from), to, q);
  }

  /** Relocating in the map and moving in the masks keep the two in step,
      whether or not `from` holds a piece. */
  lemma AgreeMoved(pieces: map<int, Piece>, b: Boards, from: int, to: int)
    requires WellFormed(b) && Agree(pieces, b) && IsSquare(to)
    ensures WellFormed(MovedBoards(b, from, to))
    ensures Agree(Relocated(pieces, from, to), MovedBoards(b, from, to))
  {
    AgreeAt(pieces, b, from);
    if from in pieces {
      AgreeRelocate(pieces, b, from, to, pieces[from]);
    }
  }

  /** Removing `from` and writing `to` commute when the two differ. */
  lemma RelocateOrder(m: map<int, Piece>, from: int, to: int, q: Piece)
    requires from != to
    ensures (m - {from})[to := q] == m[to := q] - {from}
  {
  }

  /** Writing `to` twice keeps only the second value, whether or not `from`
      is then removed. */
  lemma Rewrite(m: map<int, Piece>, from: int, to: int, p: Piece, q: Piece)
    requires from != to
    ensures (m[to := p] - {from})[to := q] == m[to := q] - {from}
    ensures from !in m ==> m[to := p][to := q] == m[to := q] - {from}
  {
  }

  /** Writing a piece into the map and placing it in the masks (which clears
      the square first) keeps the two in step. */
  lemma AgreeReplace(pieces: map<int, Piece>, b: Boards, sq: int, q: Piece)
    requires WellFormed(b) && Agree(pieces, b) && IsSquare(sq)
    ensures WellFormed(Placed(b, sq, q.color, q.kind))
    ensures Agree(pieces[sq := q], Placed(b, sq, q.color, q.kind))
  {
    PlacedMasks(b, sq, q.color, q.kind);
    PlacedWellFormed(b, sq, q.color, q.kind);
    forall c: Color, k: Kind ensures Placed(b, sq, q.color, q.kind)[c][k] == MaskOf(pieces[sq := q], c, k) {
      MaskOfReplace(pieces, sq, q, c, k);
    }
  }

  // ---------------------------------------------------------------------------
  // The starting position

  /** The piece the starting position puts on `s`, not yet moved. */
  function InitialPiece(s: int): Option<Piece> {
    match InitialHolder(s)
    case None => None
    case Some((c, k)) => Some(Piece(c, k, false))
  }

  /** The starting map: every square the starting masks occupy. */
  const InitialPieces: map<int, Piece> :=
    map s | 0 <= s < 64 && InitialPiece(s).Some? :: InitialPiece(s).value

  /** The starting map holds exactly the squares the starting layout
      occupies, each with its (colour, kind) and unmoved. */
  lemma InitialPieceAt(s: int)
    ensures s in InitialPieces <==> InitialHolder(s).Some?
    ensures s in InitialPieces ==>
      InitialPieces[s] == Piece(InitialHolder(s).value.0, InitialHolder(s).value.1, false)
  {
    if InitialHolder(s).Some? {
      assert 0 <= s < 64;
    }
  }

  /** `m` holds the squares below 16, those from 48 up to `lo`, and those
      from `lo` up to `hi`, each with its starting piece: the state of the
      starting map while it is written in square order. */
  ghost predicate HomeSquares(m: map<int, Piece>, lo: int, hi: int) {
    && (forall t :: t in m <==> (lo == 48 && 0 <= t < 16) || lo <= t < hi)
    && (forall t | t in m :: InitialPiece(t) == Some(m[t]))
  }

  /** The white back rank completes White's two home ranks. */
  lemma WhiteBackRank(m: map<int, Piece>)
    requires HomeSquares(m, 8, 16)
    ensures HomeSquares(m[0 := Piece(White, Rook, false)][1 := Piece(White, Knight, false)]
        [2 := Piece(White, Bishop, false)][3 := Piece(White, Queen, false)]
        [4 := Piece(White, King, false)][5 := Piece(White, Bishop, false)]
        [6 := Piece(White, Knight, false)][7 := Piece(White, Rook, false)], 48, 48)
  {
  }

  /** The black back rank completes the starting map. */
  lemma BlackBackRank(m: map<int, Piece>)
    requires HomeSquares(m, 48, 56)
    ensures HomeSquares(m[56 := Piece(Black, Rook, false)][57 := Piece(Black, Knight, false)]
        [58 := Piece(Black, Bishop, false)][59 := Piece(Black, Queen, false)]
        [60 := Piece(Black, King, false)][61 := Piece(Black, Bishop, false)]
        [62 := Piece(Black, Knight, false)][63 := Piece(Black, Rook, false)], 48, 64)
  {
  }

  /** A map holding the two home ranks of each side, each square with its
      starting piece, is the starting map. */
  lemma InitialPiecesFrom(m: map<int, Piece>)
    requires HomeSquares(m, 48, 64)
    ensures m == InitialPieces
  {
    forall t ensures (t in m <==> t in InitialPieces) && (t in m ==> m[t] == InitialPieces[t]) {
      InitialPieceAt(t);
    }
  }

  /** The starting map and the starting masks agree, and no piece has moved. */
  lemma InitialAgree()
    ensures WellFormed(InitialBoards)
    ensures Agree(InitialPieces, InitialBoards)
    ensures forall s :: s in InitialPieces ==> !InitialPieces[s].hasMoved
  {
    InitialBoardsWellFormed();
    forall c: Color, k: Kind ensures InitialBoards[c][k] == MaskOf(InitialPieces, c, k) {
      forall s ensures s in InitialBoards[c][k] <==> s in MaskOf(InitialPieces, c, k) {
        InitialBoardsHolder(c, k, s);
        InitialPieceAt(s);
      }
    }
    forall s | s in InitialPieces ensures !InitialPieces[s].hasMoved {
      InitialPieceAt(s);
    }
  }

  // ---------------------------------------------------------------------------
  // The board's own check test and the legality filter, over the map

  predicate IsKingOf(pos: Position, s: int, c: Color) {
    s in pos.pieces && pos.pieces[s].color == c && pos.pieces[s].kind == King
  }

  /** The first square from `i` upwards where colour `c` has a king. */
  function KingSquareFrom(pos: Position, c: Color, i: nat): (r: Option<int>)
    requires i <= 64
    decreases 64 - i
    ensures r.Some? ==> i <= r.value < 64 && IsKingOf(pos, r.value, c)
    ensures r.Some? ==> forall s | i <= s < r.value :: !IsKingOf(pos, s, c)
    ensures r.None? ==> forall s | i <= s < 64 :: !IsKingOf(pos, s, c)
  {
    if i == 64 then None
    else if IsKingOf(pos, i, c) then Some(i)
    else KingSquareFrom(pos, c, i + 1)
  }

  /** The board's check test: the other colour attacks, under the
      pseudo-legal test, the lowest square holding a king of `c`; false when
      `c` has no king. */
  predicate InCheck(pos: Position, c: Color) {
    match KingSquareFrom(pos, c, 0)
    case None => false
    case Some(k) => Attacked(pos, k, Opponent(c))
  }

  /** The position the temporary board holds: only the moving piece is
      relocated (overwriting any occupant); no rook and no en-passant victim
      moves. */
  function TempPosition(pos: Position, from: int, to: int): (r: Position)
    ensures r.castlingRights == pos.castlingRights && r.enPassantTarget == pos.enPassantTarget
    ensures from !in pos.pieces ==> r == pos
    ensures from in pos.pieces ==>
      && to in r.pieces && r.pieces[to] == pos.pieces[from]
      && (from != to ==> from !in r.pieces)
      && forall s :: s != from && s != to ==>
           (s in r.pieces <==> s in pos.pieces) && (s in r.pieces ==> r.pieces[s] == pos.pieces[s])
  {
    pos.(pieces := Relocated(pos.pieces, from, to))
  }

  /** The map with the piece on `from`, if any, moved to `to`. */
  function Relocated(pieces: map<int, Piece>, from: int, to: int): map<int, Piece> {
    if from in pieces then (pieces - {from})[to := pieces[from]] else pieces
  }

  /** A move from `from` to `to` is legal when a piece stands on `from` and,
      after the temporary relocation, its own colour is not in check. */
  predicate IsLegal(pos: Position, from: int, to: int) {
    from in pos.pieces && !InCheck(TempPosition(pos, from, to), pos.pieces[from].color)
  }

  /** The entries of `moves` that `keep` accepts, in their order. */
  function Filter(moves: seq<int>, keep: int -> bool): (r: seq<int>)
    ensures forall t :: t in r <==> t in moves && keep(t)
    ensures |r| <= |moves|
  {
    if moves == [] then []
    else
      var n := |moves| - 1;
      Filter(moves[..n], keep) + (if keep(moves[n]) then [moves[n]] else [])
  }

  /** Filtering a concatenation filters each part: the filter keeps the
      order of the list it is given. */
  lemma {:induction false} FilterAppend(a: seq<int>, b: seq<int>, keep: int -> bool)
    ensures Filter(a + b, keep) == Filter(a, keep) + Filter(b, keep)
    decreases |b|
  {
    if b == [] {
      assert a + b == a;
    } else {
      var n := |b| - 1;
      assert (a + b)[..|a + b| - 1] == a + b[..n];
      assert (a + b)[|a + b| - 1] == b[n];
      FilterAppend(a, b[..n], keep);
    }
  }

  /** Filtering one more entry of a list appends it when `keep` accepts it. */
  lemma FilterStep(moves: seq<int>, i: int, keep: int -> bool)
    requires 0 <= i < |moves|
    ensures Filter(moves[..i + 1], keep) == Filter(moves[..i], keep) + (if keep(moves[i]) then [moves[i]] else [])
  {
    assert moves[..i + 1][..i] == moves[..i];
  }

  /** The legality test for moves from `from`. */
  function LegalFrom(pos: Position, from: int): int -> bool {
    t => IsLegal(pos, from, t)
  }

  /** The legal destinations of the piece on `sq`: its pseudo-legal list
      filtered by the legality test; nothing for an empty square. */
  function LegalMoves(pos: Position, sq: int): (r: seq<int>)
    ensures sq !in pos.pieces ==> r == []
  {
    if sq in pos.pieces && IsSquare(sq) then Filter(PseudoLegalMoves(pos, sq, pos.pieces[sq]), LegalFrom(pos, sq))
    else []
  }

  /** A destination is legal exactly when the piece lists it and the
      relocation does not leave its colour in check; it is then a square other
      than the origin. */
  lemma LegalMovesExact(pos: Position, sq: int, t: int)
    requires ValidPosition(pos)
    ensures t in LegalMoves(pos, sq) <==>
      sq in pos.pieces && t in PseudoLegalMoves(pos, sq, pos.pieces[sq])
      && !InCheck(TempPosition(pos, sq, t), pos.pieces[sq].color)
    ensures t in LegalMoves(pos, sq) ==> IsSquare(t) && t != sq
  {
    if sq in pos.pieces {
      PseudoLegalNotOrigin(pos, sq);
    }
  }

  /** Some piece of colour `c` has a legal move. */
  predicate HasLegalMove(pos: Position, c: Color) {
    exists s | 0 <= s < 64 :: s in pos.pieces && pos.pieces[s].color == c && LegalMoves(pos, s) != []
  }

  /** Checkmate and stalemate as the board decides them: the bitboard's
      oracle for check, the map's legal moves for the rest. */
  predicate Checkmated(b: Boards, all: set<int>, pos: Position, c: Color)
    requires WellFormed(b)
  {
    KingInCheck(b, all, c) && !HasLegalMove(pos, c)
  }

  predicate Stalemated(b: Boards, all: set<int>, pos: Position, c: Color)
    requires WellFormed(b)
  {
    !KingInCheck(b, all, c) && !HasLegalMove(pos, c)
  }

  /** A colour is never both checkmated and stalemated, and neither while one
      of its pieces has a legal move. */
  lemma MateExclusive(b: Boards, all: set<int>, pos: Position, c: Color, s: int)
    requires WellFormed(b)
    ensures !(Checkmated(b, all, pos, c) && Stalemated(b, all, pos, c))
    ensures 0 <= s < 64 && s in pos.pieces && pos.pieces[s].color == c && LegalMoves(pos, s) != [] ==>
      !Checkmated(b, all, pos, c) && !Stalemated(b, all, pos, c)
  {
  }

  // ---------------------------------------------------------------------------
  // Move application, over the map

  /** What `make_move` reports for an accepted move: the kind that moved, its
      destination, and whether the mover's opponent was in check, by the
      bitboard's oracle, before the move was applied. */
  datatype MoveRecord = MoveRecord(kind: Kind, to: int, check: bool)

  /** `make_move` goes ahead when a piece stands on `from`, no king stands on
      `to`, and `to` is among the legal destinations. */
  predicate Accepts(pos: Position, from: int, to: int) {
    && from in pos.pieces
    && !(to in pos.pieces && pos.pieces[to].kind == King)
    && to in LegalMoves(pos, from)
  }

  /** The rook's squares for a two-square king move: `to+1 -> to-1` towards
      the higher files, `to-2 -> to+1` otherwise. */
  function CastlingRookFrom(from: int, to: int): int {
    if to > from then to + 1 else to - 2
  }

  function CastlingRookTo(from: int, to: int): int {
    if to > from then to - 1 else to + 1
  }

  /** The map after the castling rook has moved, when a piece stands on the
      rook square (whatever piece that is). */
  function AfterCastling(pieces: map<int, Piece>, from: int, to: int): (r: map<int, Piece>)
    ensures var rf, rt := CastlingRookFrom(from, to), CastlingRookTo(from, to);
      rf in pieces ==> rt in r && r[rt] == pieces[rf] && rf !in r
  {
    var rf, rt := CastlingRookFrom(from, to), CastlingRookTo(from, to);
    if rf in pieces then pieces[rt := pieces[rf]] - {rf} else pieces
  }

  /** The square the en-passant handler empties: one rank above `to` for
      White, one rank below for Black. */
  function EnPassantVictim(to: int, c: Color): int {
    to + (if c == White then 8 else -8)
  }

  /** The map after the en-passant handler has run. */
  function AfterEnPassant(pieces: map<int, Piece>, from: int, to: int): (r: map<int, Piece>)
    requires from in pieces
    ensures r.Keys == pieces.Keys - {EnPassantVictim(to, pieces[from].color)}
    ensures forall s :: s in r ==> r[s] == pieces[s]
  {
    var v := EnPassantVictim(to, pieces[from].color);
    if v in pieces then pieces - {v} else pieces
  }

  /** The map after the special-move handler: the castling rook moves for a
      two-square king move; otherwise, for a pawn arriving on the bitboard's
      en-passant target, the victim square is emptied. */
  function AfterSpecial(pieces: map<int, Piece>, bbTarget: Option<int>, from: int, to: int): map<int, Piece>
    requires from in pieces
  {
    var p := pieces[from];
    if p.kind == King && Abs(to - from) == 2 then AfterCastling(pieces, from, to)
    else if p.kind == Pawn && bbTarget == Some(to) then AfterEnPassant(pieces, from, to)
    else pieces
  }

  /** The masks after the castling handler: when the map holds a piece on
      the rook square, the masks move whatever they hold there. */
  function CastlingBoards(b: Boards, pieces: map<int, Piece>, from: int, to: int): Boards
    requires Complete(b)
  {
    var rf, rt := CastlingRookFrom(from, to), CastlingRookTo(from, to);
    if rf in pieces then MovedBoards(b, rf, rt) else b
  }

  /** The masks after the en-passant handler: the victim square is cleared
      when the map holds a piece there. */
  function EnPassantBoards(b: Boards, pieces: map<int, Piece>, from: int, to: int): Boards
    requires Complete(b) && from in pieces
  {
    var v := EnPassantVictim(to, pieces[from].color);
    if v in pieces then Cleared(b, v) else b
  }

  /** The masks after the special-move handler, in step with AfterSpecial. */
  function SpecialBoards(b: Boards, pieces: map<int, Piece>, bbTarget: Option<int>, from: int, to: int): Boards
    requires Complete(b) && from in pieces
  {
    var p := pieces[from];
    if p.kind == King && Abs(to - from) == 2 then CastlingBoards(b, pieces, from, to)
    else if p.kind == Pawn && bbTarget == Some(to) then EnPassantBoards(b, pieces, from, to)
    else b
  }

  /** The masks after an accepted move: the special-move handler's masks with
      the mover moved from `from` to `to`. */
  function AppliedBoards(b: Boards, pieces: map<int, Piece>, bbTarget: Option<int>, from: int, to: int): Boards
    requires Complete(b) && from in pieces
  {
    MovedBoards(SpecialBoards(b, pieces, bbTarget, from, to), from, to)
  }

  /** The castling handler keeps the map and the masks in step. */
  lemma CastlingAgree(pieces: map<int, Piece>, b: Boards, from: int, to: int)
    requires WellFormed(b) && Agree(pieces, b) && IsSquare(from) && IsSquare(to) && Abs(to - from) == 2
    ensures WellFormed(CastlingBoards(b, pieces, from, to))
    ensures Agree(AfterCastling(pieces, from, to), CastlingBoards(b, pieces, from, to))
  {
    var rf, rt := CastlingRookFrom(from, to), CastlingRookTo(from, to);
    if rf in pieces {
      AgreeMoved(pieces, b, rf, rt);
      RelocateOrder(pieces, rf, rt, pieces[rf]);
    }
  }

  /** The en-passant handler keeps the map and the masks in step. */
  lemma EnPassantAgree(pieces: map<int, Piece>, b: Boards, from: int, to: int)
    requires WellFormed(b) && Agree(pieces, b) && from in pieces
    ensures WellFormed(EnPassantBoards(b, pieces, from, to))
    ensures Agree(AfterEnPassant(pieces, from, to), EnPassantBoards(b, pieces, from, to))
  {
    var v := EnPassantVictim(to, pieces[from].color);
    if v in pieces {
      AgreeClear(pieces, b, v);
    }
  }

  /** The special-move handler keeps the map and the masks in step. */
  lemma SpecialAgree(pieces: map<int, Piece>, b: Boards, bbTarget: Option<int>, from: int, to: int)
    requires WellFormed(b) && Agree(pieces, b) && from in pieces && IsSquare(to)
    ensures WellFormed(SpecialBoards(b, pieces, bbTarget, from, to))
    ensures Agree(AfterSpecial(pieces, bbTarget, from, to), SpecialBoards(b, pieces, bbTarget, from, to))
  {
    var p := pieces[from];
    if p.kind == King && Abs(to - from) == 2 {
      AgreeAt(pieces, b, from);
      CastlingAgree(pieces, b, from, to);
    } else if p.kind == Pawn && bbTarget == Some(to) {
      EnPassantAgree(pieces, b, from, to);
    }
  }

  /** An accepted move keeps the map and the masks in step: the masks'
      mover is the map's mover, which the handler leaves in place. */
  lemma AppliedAgree(pos: Position, b: Boards, bbTarget: Option<int>, from: int, to: int)
    requires WellFormed(b) && Agree(pos.pieces, b) && ValidPosition(pos)
    requires from in pos.pieces && to in PseudoLegalMoves(pos, from, pos.pieces[from])
    ensures WellFormed(AppliedBoards(b, pos.pieces, bbTarget, from, to))
    ensures Agree(AppliedPieces(pos.pieces, bbTarget, from, to), AppliedBoards(b, pos.pieces, bbTarget, from, to))
  {
    var p := pos.pieces[from];
    PseudoLegalNotOrigin(pos, from);
    SpecialKeepsMover(pos, bbTarget, from, to);
    var sp, b1 := AfterSpecial(pos.pieces, bbTarget, from, to), SpecialBoards(b, pos.pieces, bbTarget, from, to);
    SpecialAgree(pos.pieces, b, bbTarget, from, to);
    AgreeRelocate(sp, b1, from, to, p.(hasMoved := true));
    RelocateOrder(sp, from, to, p.(hasMoved := true));
  }

  /** The bitboard's en-passant target after a move: the square passed over
      by a pawn's two-square advance, and none after any other move. */
  function NextEnPassant(p: Piece, from: int, to: int): (r: Option<int>)
    ensures r.Some? <==> p.kind == Pawn && Abs(to - from) == 16
    ensures r.Some? ==> r.value - from == to - r.value
  {
    if p.kind == Pawn && Abs(to - from) == 16 then Some((from + to) / 2) else None
  }

  /** The map after an accepted move: the special-move handler's map with
      the mover written on `to`, marked as moved, and `from` removed. */
  function AppliedPieces(pieces: map<int, Piece>, bbTarget: Option<int>, from: int, to: int): (r: map<int, Piece>)
    requires from in pieces
    ensures from != to ==> to in r && r[to] == pieces[from].(hasMoved := true) && from !in r
  {
    AfterSpecial(pieces, bbTarget, from, to)[to := pieces[from].(hasMoved := true)] - {from}
  }

  /** The corner a castling right's rook starts on. */
  function RookCorner(r: CastlingRight): int {
    match r
    case WhiteKingside => 7
    case WhiteQueenside => 0
    case BlackKingside => 63
    case BlackQueenside => 56
  }

  function RightColor(r: CastlingRight): Color {
    if r == WhiteKingside || r == WhiteQueenside then White else Black
  }

  /** The rights a move gives up: both of the mover's colour for a king move,
      a corner's right when its rook leaves that corner, and a corner's right
      when a rook is captured on it. */
  function LostRights(from: int, to: int, p: Piece, captured: Option<Piece>): set<CastlingRight> {
    set r | r in AllCastlingRights && LosesRight(r, from, to, p, captured)
  }

  predicate LosesRight(r: CastlingRight, from: int, to: int, p: Piece, captured: Option<Piece>) {
    || (p.kind == King && RightColor(r) == p.color)
    || (p.kind == Rook && from == RookCorner(r))
    || (captured.Some? && captured.value.kind == Rook && to == RookCorner(r))
  }

  /** The handler never empties the mover's own square for a move the
      generators produce. */
  lemma SpecialKeepsMover(pos: Position, bbTarget: Option<int>, from: int, to: int)
    requires ValidPosition(pos) && from in pos.pieces
    requires to in PseudoLegalMoves(pos, from, pos.pieces[from])
    ensures var sp := AfterSpecial(pos.pieces, bbTarget, from, to);
      from in sp && sp[from] == pos.pieces[from]
  {
    var p := pos.pieces[from];
    if p.kind == Pawn && !(p.kind == King && Abs(to - from) == 2) && bbTarget == Some(to) {
      EnPassantVictimNotOrigin(pos, from, p.color, to);
    }
  }

  /** The en-passant handler's victim square is never the moving pawn's own
      square: pushes stay on the pawn's file but the victim lies beyond the
      destination, and every other destination is on a neighbouring file. */
  lemma EnPassantVictimNotOrigin(pos: Position, sq: int, c: Color, t: int)
    requires IsSquare(sq) && t in PawnMoves(pos, sq, c)
    ensures EnPassantVictim(t, c) != sq
  {
    var dir := if c == White then 1 else -1;
    SquareCoordinates(sq);
    var u := sq - 8 * dir;
    Coordinates(u, FileOf(sq), RankOf(sq) - dir);
    PawnMovesExact(pos, sq, c, u);
    assert u !in PawnMoves(pos, sq, c);
  }

  /** The promotion kinds the board writes into the map. */
  predicate MapPromotes(k: Kind) {
    k == Queen || k == Rook || k == Bishop || k == Knight
  }

  /** The map after promoting the pawn on `sq`: a new, unmoved piece of the
      pawn's colour for the four kinds the map knows, the pawn otherwise. */
  function Promoted(pieces: map<int, Piece>, sq: int, kind: Kind): map<int, Piece>
    requires sq in pieces
  {
    if MapPromotes(kind) then pieces[sq := Piece(pieces[sq].color, kind, false)] else pieces
  }

  /** Promotion keeps the map and the masks in step exactly when the new kind
      is not a king. */
  lemma PromoteAgree(pieces: map<int, Piece>, b: Boards, sq: int, kind: Kind)
    requires WellFormed(b) && Agree(pieces, b) && sq in pieces && pieces[sq].kind == Pawn
    ensures WellFormed(Placed(Cleared(b, sq), sq, pieces[sq].color, kind))
    ensures kind != King <==> Agree(Promoted(pieces, sq, kind), Placed(Cleared(b, sq), sq, pieces[sq].color, kind))
  {
    if kind == King {
      PromoteKingDesyncs(pieces, b, sq);
    } else {
      PromoteKeepsAgree(pieces, b, sq, kind);
    }
  }

  lemma PromoteKeepsAgree(pieces: map<int, Piece>, b: Boards, sq: int, kind: Kind)
    requires WellFormed(b) && Agree(pieces, b) && sq in pieces && pieces[sq].kind == Pawn && kind != King
    ensures WellFormed(Placed(Cleared(b, sq), sq, pieces[sq].color, kind))
    ensures Agree(Promoted(pieces, sq, kind), Placed(Cleared(b, sq), sq, pieces[sq].color, kind))
  {
    AgreeAt(pieces, b, sq);
    var q := if MapPromotes(kind) then Piece(pieces[sq].color, kind, false) else pieces[sq];
    PromotedReplaces(pieces, sq, kind);
    AgreeClear(pieces, b, sq);
    AgreeReplace(pieces - {sq}, Cleared(b, sq), sq, q);
  }

  lemma PromoteKingDesyncs(pieces: map<int, Piece>, b: Boards, sq: int)
    requires WellFormed(b) && Agree(pieces, b) && sq in pieces && pieces[sq].kind == Pawn
    ensures WellFormed(Placed(Cleared(b, sq), sq, pieces[sq].color, King))
    ensures !Agree(Promoted(pieces, sq, King), Placed(Cleared(b, sq), sq, pieces[sq].color, King))
  {
    AgreeAt(pieces, b, sq);
    PlacedWellFormed(Cleared(b, sq), sq, pieces[sq].color, King);
    KingPromotionDesyncs(pieces, b, sq);
  }

  /** Promotion rewrites the pawn's square and nothing else. */
  lemma PromotedReplaces(pieces: map<int, Piece>, sq: int, kind: Kind)
    requires sq in pieces
    ensures Promoted(pieces, sq, kind)
         == (pieces - {sq})[sq := if MapPromotes(kind) then Piece(pieces[sq].color, kind, false) else pieces[sq]]
  {
  }

  /** Promoting to a king writes a king into the masks while the map keeps
      the pawn, so the two stop agreeing. */
  lemma KingPromotionDesyncs(pieces: map<int, Piece>, b: Boards, sq: int)
    requires WellFormed(b) && IsSquare(sq) && sq in pieces && pieces[sq].kind == Pawn
    ensures !Agree(pieces, Placed(Cleared(b, sq), sq, pieces[sq].color, King))
  {
    PlacedMasks(Cleared(b, sq), sq, pieces[sq].color, King);
    assert sq in Placed(Cleared(b, sq), sq, pieces[sq].color, King)[pieces[sq].color][King];
    assert sq !in MaskOf(pieces, pieces[sq].color, King);
  }

  // ---------------------------------------------------------------------------
  // The board

  class ChessBoard {
    var bitboard: Bitboard
    var pieces: map<int, Piece>
    var enPassantTarget: Option<int>
    var castlingRights: set<CastlingRight>

    /** What the move generators read of the board. */
    function View(): Position
      reads this
    {
      Position(pieces, castlingRights, enPassantTarget)
    }

    /** The masks are consistent, the en-passant target is a square when
        set, and the map agrees with the masks. */
    ghost predicate Valid()
      reads this, bitboard
    {
      && bitboard.Valid()
      && (enPassantTarget.Some? ==> IsSquare(enPassantTarget.value))
      && Agree(pieces, bitboard.boards)
    }

    /** Valid boards give the generators a valid position. */
    lemma ValidView()
      requires Valid()
      ensures ValidPosition(View())
    {
      AgreePieceAt(pieces, bitboard.boards);
    }

    /** A new board holds the starting position with all four rights and no
        en-passant target. */
    constructor()
      ensures Valid() && fresh(bitboard)
      ensures pieces == InitialPieces && bitboard.boards == InitialBoards
      ensures castlingRights == AllCastlingRights && enPassantTarget == None
      ensures bitboard.castlingRights == AllCastlingRights && bitboard.enPassantTarget == None
    {
      bitboard := new Bitboard();
      pieces := map[];
      enPassantTarget := None;
      castlingRights := AllCastlingRights;
      new;
      SetInitialPosition();
    }

    /** Loads the starting masks, then the starting map. */
    method SetInitialPosition()
      requires enPassantTarget.Some? ==> IsSquare(enPassantTarget.value)
      modifies this`pieces, bitboard
      ensures Valid() && pieces == InitialPieces && bitboard.boards == InitialBoards
      ensures bitboard.castlingRights == AllCastlingRights
      ensures bitboard.enPassantTarget == old(bitboard.enPassantTarget)
    {
      bitboard.SetInitialPosition();
      CreatePieces();
      InitialAgree();
    }

    /** Writes the starting map square by square: the pawn ranks by loop, the
        back ranks one by one. */
    method CreatePieces()
      modifies this`pieces
      ensures pieces == InitialPieces
    {
      pieces := map[];
      for s := 8 to 16
        invariant HomeSquares(pieces, 8, s)
      {
        pieces := pieces[s := Piece(White, Pawn, false)];
      }
      WhiteBackRank(pieces);
      pieces := pieces[0 := Piece(White, Rook, false)][1 := Piece(White, Knight, false)]
        [2 := Piece(White, Bishop, false)][3 := Piece(White, Queen, false)]
        [4 := Piece(White, King, false)][5 := Piece(White, Bishop, false)]
        [6 := Piece(White, Knight, false)][7 := Piece(White, Rook, false)];
      for s := 48 to 56
        invariant HomeSquares(pieces, 48, s)
      {
        pieces := pieces[s := Piece(Black, Pawn, false)];
      }
      BlackBackRank(pieces);
      pieces := pieces[56 := Piece(Black, Rook, false)][57 := Piece(Black, Knight, false)]
        [58 := Piece(Black, Bishop, false)][59 := Piece(Black, Queen, false)]
        [60 := Piece(Black, King, false)][61 := Piece(Black, Bishop, false)]
        [62 := Piece(Black, Knight, false)][63 := Piece(Black, Rook, false)];
      InitialPiecesFrom(pieces);
    }

    /** A fresh store with the starting masks, all rights, no en-passant
        target and the starting map.  The two fields are set before the
        store is loaded; neither step reads what the other writes. */
    method Reset()
      modifies this
      ensures Valid() && fresh(bitboard)
      ensures pieces == InitialPieces && bitboard.boards == InitialBoards
      ensures castlingRights == AllCastlingRights && enPassantTarget == None
      ensures bitboard.castlingRights == AllCastlingRights && bitboard.enPassantTarget == None
    {
      bitboard := new Bitboard();
      enPassantTarget := None;
      castlingRights := AllCastlingRights;
      SetInitialPosition();
    }

    /** The piece on `sq`, or None. */
    function GetPiece(sq: int): Option<Piece>
      reads this
    {
      if sq in pieces then Some(pieces[sq]) else None
    }

    function IsSquareOccupied(sq: int): bool
      reads this
    {
      GetPiece(sq).Some?
    }

    function IsSquareOccupiedByColor(sq: int, c: Color): bool
      reads this
    {
      GetPiece(sq).Some? && GetPiece(sq).value.color == c
    }

    /** On a valid board the map's lookups answer as the masks do: the same
        piece kind and colour, the same occupancy, the same colour test. */
    lemma LookupsAgree(sq: int, c: Color)
      requires Valid()
      ensures GetPiece(sq).Some? <==> PieceAt(bitboard.boards, sq).Some?
      ensures GetPiece(sq).Some? ==>
        PieceAt(bitboard.boards, sq).value == (GetPiece(sq).value.color, GetPiece(sq).value.kind)
      ensures IsSquareOccupied(sq) <==> bitboard.IsSquareOccupied(sq)
      ensures IsSquareOccupiedByColor(sq, c) <==> bitboard.IsSquareOccupiedByColor(sq, c)
    {
      AgreeAt(pieces, bitboard.boards, sq);
    }

    /** The legal destinations of the piece on `sq`, in generator order. */
    method GetLegalMoves(sq: int) returns (moves: seq<int>)
      requires Valid()
      ensures moves == LegalMoves(View(), sq)
    {
      if sq !in pieces {
        return [];
      }
      ValidView();
      var possible := PseudoLegalMoves(View(), sq, pieces[sq]);
      moves := [];
      for i := 0 to |possible|
        invariant moves == Filter(possible[..i], LegalFrom(View(), sq))
      {
        var ok := IsLegalMove(sq, possible[i]);
        FilterStep(possible, i, LegalFrom(View(), sq));
        if ok {
          moves := moves + [possible[i]];
        }
      }
      assert possible[..|possible|] == possible;
    }

    /** Replays the move on a temporary board and asks whether the mover's
        colour is then in check. */
    method IsLegalMove(from: int, to: int) returns (r: bool)
      requires Valid() && IsSquare(to)
      ensures r == IsLegal(View(), from, to)
    {
      if from !in pieces {
        return false;
      }
      var piece := pieces[from];
      var temp := MakeTempMove(from, to);
      var check := temp.IsKingInCheck(piece.color);
      return !check;
    }

    /** A new board holding this board's masks, map, rights and target with
        only the moving piece relocated; this board is not changed. */
    method MakeTempMove(from: int, to: int) returns (temp: ChessBoard)
      requires bitboard.Valid() && IsSquare(to)
      ensures fresh(temp) && fresh(temp.bitboard) && temp.bitboard.Valid()
      ensures temp.bitboard.boards == MovedBoards(bitboard.boards, from, to)
      ensures temp.View() == TempPosition(View(), from, to)
    {
      temp := new ChessBoard();
      temp.LoadTempMove(this, from, to);
    }

    /** Gives this board a copy of `other`'s store, map, rights and target,
        then relocates the piece on `from`, if any, in the map and the copied
        masks; `other` is not changed. */
    method LoadTempMove(other: ChessBoard, from: int, to: int)
      requires other != this && other.bitboard.Valid() && IsSquare(to)
      modifies this
      ensures fresh(bitboard) && bitboard.Valid()
      ensures bitboard.boards == MovedBoards(other.bitboard.boards, from, to)
      ensures View() == TempPosition(other.View(), from, to)
    {
      bitboard := other.bitboard.Copy();
      pieces := other.pieces;
      enPassantTarget := other.enPassantTarget;
      castlingRights := other.castlingRights;
      if from in pieces {
        var piece := pieces[from];
        pieces := pieces - {from};
        pieces := pieces[to := piece];
      }
      var moved := bitboard.MovePiece(from, to);
    }

    /** Finds the lowest square with a king of `c` and asks whether the other
        colour attacks it; false when there is no such king. */
    method IsKingInCheck(c: Color) returns (r: bool)
      ensures r == InCheck(View(), c)
    {
      var kingSquare: Option<int> := None;
      var sq := 0;
      while sq < 64 && kingSquare.None?
        invariant 0 <= sq <= 64
        invariant kingSquare.None? ==> KingSquareFrom(View(), c, 0) == KingSquareFrom(View(), c, sq)
        invariant kingSquare.Some? ==> kingSquare == KingSquareFrom(View(), c, 0)
        decreases 64 - sq, if kingSquare.None? then 1 else 0
      {
        if sq in pieces && pieces[sq].color == c && pieces[sq].kind == King {
          kingSquare := Some(sq);
        } else {
          sq := sq + 1;
        }
      }
      if kingSquare.None? {
        return false;
      }
      r := SquareUnderAttack(kingSquare.value, Opponent(c));
    }

    /** Whether some piece of colour `attacker` lists `sq` among its
        pseudo-legal destinations, trying the squares upwards. */
    method SquareUnderAttack(sq: int, attacker: Color) returns (r: bool)
      ensures r == Attacked(View(), sq, attacker)
    {
      for ps := 0 to 64
        invariant forall q | 0 <= q < ps ::
          !(OccupiedBy(View(), q, attacker) && sq in PseudoLegalMoves(View(), q, pieces[q]))
      {
        if ps in pieces && pieces[ps].color == attacker {
          var moves := PseudoLegalMoves(View(), ps, pieces[ps]);
          if sq in moves {
            return true;
          }
        }
      }
      return false;
    }

    /** Applies a move when it is accepted: special moves first, then the
        mover is relocated in both representations and marked as moved, then
        the rights are updated.  Nothing changes when the move is refused.
        The map and the masks stay in step (AppliedAgree), and the board's
        own en-passant target is untouched, so the board stays Valid(). */
    method MakeMove(from: int, to: int) returns (r: Option<MoveRecord>)
      requires Valid()
      modifies this`pieces, this`castlingRights
      modifies bitboard`boards, bitboard`whitePieces, bitboard`blackPieces, bitboard`allPieces
      modifies bitboard`enPassantTarget
      ensures bitboard.Valid() && Agree(pieces, bitboard.boards)
      ensures r.Some? <==> old(Accepts(View(), from, to))
      ensures r.None? ==>
        && pieces == old(pieces) && castlingRights == old(castlingRights)
        && bitboard.boards == old(bitboard.boards)
        && bitboard.enPassantTarget == old(bitboard.enPassantTarget)
      ensures r.Some? ==>
        && r.value == MoveRecord(old(pieces[from]).kind, to,
             old(KingInCheck(bitboard.boards, bitboard.allPieces, Opponent(pieces[from].color))))
        && pieces == AppliedPieces(old(pieces), old(bitboard.enPassantTarget), from, to)
        && bitboard.boards
           == AppliedBoards(old(bitboard.boards), old(pieces), old(bitboard.enPassantTarget), from, to)
        && castlingRights == old(castlingRights)
             - LostRights(from, to, old(pieces[from]), old(if to in pieces then Some(pieces[to]) else None))
        && bitboard.enPassantTarget == NextEnPassant(old(pieces[from]), from, to)
    {
      if from !in pieces {
        return None;
      }
      var piece := pieces[from];
      if to in pieces && pieces[to].kind == King {
        return None;
      }
      var legal := GetLegalMoves(from);
      if to !in legal {
        return None;
      }
      ghost var pos, b0, e0 := View(), bitboard.boards, bitboard.enPassantTarget;
      ValidView();
      LegalMovesExact(pos, from, to);
      var captured := if to in pieces then Some(pieces[to]) else None;
      var check := bitboard.IsKingInCheck(Opponent(piece.color));
      ApplyMove(from, to, piece, captured);
      AppliedAgree(pos, b0, e0, from, to);
      return Some(MoveRecord(piece.kind, to, check));
    }

    /** The tail of `make_move` once the move is accepted: the special-move
        handler, the relocation of the mover in the map and in the masks,
        its moved flag, and the rights update. */
    method ApplyMove(from: int, to: int, piece: Piece, captured: Option<Piece>)
      requires bitboard.Valid() && from in pieces && pieces[from] == piece
      requires IsSquare(from) && IsSquare(to) && from != to
      modifies this`pieces, this`castlingRights
      modifies bitboard`boards, bitboard`whitePieces, bitboard`blackPieces, bitboard`allPieces
      modifies bitboard`enPassantTarget
      ensures bitboard.Valid()
      ensures pieces == AppliedPieces(old(pieces), old(bitboard.enPassantTarget), from, to)
      ensures bitboard.boards == AppliedBoards(old(bitboard.boards), old(pieces), old(bitboard.enPassantTarget), from, to)
      ensures castlingRights == old(castlingRights) - LostRights(from, to, piece, captured)
      ensures bitboard.enPassantTarget == NextEnPassant(piece, from, to)
    {
      HandleSpecialMoves(from, to, piece);
      ghost var e1 := bitboard.enPassantTarget;
      var relocated := pieces[to := piece];
      if from in relocated {
        relocated := relocated - {from};
      }
      Rewrite(pieces, from, to, piece, piece.(hasMoved := true));
      // the piece now on `to` is marked as moved
      pieces := relocated[to := piece.(hasMoved := true)];
      var moved := bitboard.MovePiece(from, to);
      UpdateCastlingRights(from, to, piece, captured);
      assert bitboard.enPassantTarget == e1;
    }

    /** Runs the castling or en-passant handler the move calls for, then sets
        the bitboard's en-passant target. */
    method HandleSpecialMoves(from: int, to: int, piece: Piece)
      requires bitboard.Valid() && from in pieces && pieces[from] == piece && IsSquare(from) && IsSquare(to)
      modifies this`pieces
      modifies bitboard`boards, bitboard`whitePieces, bitboard`blackPieces, bitboard`allPieces
      modifies bitboard`enPassantTarget
      ensures bitboard.Valid()
      ensures pieces == AfterSpecial(old(pieces), old(bitboard.enPassantTarget), from, to)
      ensures bitboard.boards == SpecialBoards(old(bitboard.boards), old(pieces), old(bitboard.enPassantTarget), from, to)
      ensures bitboard.enPassantTarget == NextEnPassant(piece, from, to)
    {
      if piece.kind == King && Abs(to - from) == 2 {
        HandleCastling(from, to);
      } else if piece.kind == Pawn && bitboard.enPassantTarget == Some(to) {
        HandleEnPassant(from, to);
      }
      if piece.kind == Pawn && Abs(to - from) == 16 {
        bitboard.enPassantTarget := Some((from + to) / 2);
      } else {
        bitboard.enPassantTarget := None;
      }
    }

    /** Moves whatever piece stands on the rook square beside the king's
        destination to the square the king passed over. */
    method HandleCastling(from: int, to: int)
      requires bitboard.Valid() && IsSquare(from) && IsSquare(to) && Abs(to - from) == 2
      modifies this`pieces
      modifies bitboard`boards, bitboard`whitePieces, bitboard`blackPieces, bitboard`allPieces
      ensures bitboard.Valid()
      ensures pieces == AfterCastling(old(pieces), from, to)
      ensures bitboard.boards == CastlingBoards(old(bitboard.boards), old(pieces), from, to)
    {
      var rookFrom, rookTo;
      if to > from {
        rookFrom, rookTo := to + 1, to - 1;
      } else {
        rookFrom, rookTo := to - 2, to + 1;
      }
      if rookFrom in pieces {
        var rook := pieces[rookFrom];
        pieces := pieces[rookTo := rook];
        pieces := pieces - {rookFrom};
        var moved := bitboard.MovePiece(rookFrom, rookTo);
      }
      assert rookFrom == CastlingRookFrom(from, to) && rookTo == CastlingRookTo(from, to);
    }

    /** Empties the square one rank beyond the destination in the mover's
        direction of travel, in both representations. */
    method HandleEnPassant(from: int, to: int)
      requires bitboard.Valid() && from in pieces
      modifies this`pieces
      modifies bitboard`boards, bitboard`whitePieces, bitboard`blackPieces, bitboard`allPieces
      ensures bitboard.Valid()
      ensures pieces == AfterEnPassant(old(pieces), from, to)
      ensures bitboard.boards == EnPassantBoards(old(bitboard.boards), old(pieces), from, to)
    {
      var victim := to + (if pieces[from].color == White then 8 else -8);
      assert victim == EnPassantVictim(to, pieces[from].color);
      if victim in pieces {
        pieces := pieces - {victim};
        bitboard.ClearSquare(victim);
      }
    }

    /** Drops the rights a move gives up. */
    method UpdateCastlingRights(from: int, to: int, piece: Piece, captured: Option<Piece>)
      modifies this`castlingRights
      ensures castlingRights == old(castlingRights) - LostRights(from, to, piece, captured)
    {
      if piece.kind == King {
        if piece.color == White {
          castlingRights := castlingRights - {WhiteKingside, WhiteQueenside};
        } else {
          castlingRights := castlingRights - {BlackKingside, BlackQueenside};
        }
      } else if piece.kind == Rook {
        if from == 0 {
          castlingRights := castlingRights - {WhiteQueenside};
        } else if from == 7 {
          castlingRights := castlingRights - {WhiteKingside};
        } else if from == 56 {
          castlingRights := castlingRights - {BlackQueenside};
        } else if from == 63 {
          castlingRights := castlingRights - {BlackKingside};
        }
      }
      if captured.Some? && captured.value.kind == Rook {
        if to == 0 {
          castlingRights := castlingRights - {WhiteQueenside};
        } else if to == 7 {
          castlingRights := castlingRights - {WhiteKingside};
        } else if to == 56 {
          castlingRights := castlingRights - {BlackQueenside};
        } else if to == 63 {
          castlingRights := castlingRights - {BlackKingside};
        }
      }
      assert forall r :: r in castlingRights <==>
        r in old(castlingRights) && r !in LostRights(from, to, piece, captured);
    }

    /** Replaces a pawn on `sq`: the map gets a new, unmoved queen, rook,
        bishop or knight (and keeps the pawn for any other kind), while the
        masks get `kind` whatever it is.  Nothing happens unless a pawn
        stands on `sq`. */
    method PromotePawn(sq: int, kind: Kind)
      requires Valid()
      modifies this`pieces
      modifies bitboard`boards, bitboard`whitePieces, bitboard`blackPieces, bitboard`allPieces
      ensures bitboard.Valid()
      ensures !old(sq in pieces && pieces[sq].kind == Pawn) ==>
        pieces == old(pieces) && bitboard.boards == old(bitboard.boards)
      ensures old(sq in pieces && pieces[sq].kind == Pawn) ==>
        && pieces == Promoted(old(pieces), sq, kind)
        && bitboard.boards == Placed(Cleared(old(bitboard.boards), sq), sq, old(pieces[sq]).color, kind)
      ensures kind != King ==> Agree(pieces, bitboard.boards)
    {
      if sq in pieces && pieces[sq].kind == Pawn {
        AgreeAt(pieces, bitboard.boards, sq);
        var color := pieces[sq].color;
        var promoted := pieces;
        if kind == Queen {
          promoted := promoted[sq := Piece(color, Queen, false)];
        } else if kind == Rook {
          promoted := promoted[sq := Piece(color, Rook, false)];
        } else if kind == Bishop {
          promoted := promoted[sq := Piece(color, Bishop, false)];
        } else if kind == Knight {
          promoted := promoted[sq := Piece(color, Knight, false)];
        }
        ghost var p0, b0 := pieces, bitboard.boards;
        assert promoted == Promoted(p0, sq, kind);
        pieces := promoted;
        bitboard.ClearSquare(sq);
        bitboard.SetPiece(sq, color, kind);
        if kind != King {
          PromoteKeepsAgree(p0, b0, sq, kind);
        }
      }
    }

    /** Checkmate: in check by the bitboard's oracle, and no piece of `c`
        has a legal move. */
    method IsCheckmate(c: Color) returns (r: bool)
      requires Valid()
      ensures r == Checkmated(bitboard.boards, bitboard.allPieces, View(), c)
    {
      var check := bitboard.IsKingInCheck(c);
      if !check {
        return false;
      }
      r := NoLegalMove(c);
    }

    /** Stalemate: not in check by the bitboard's oracle, and no piece of
        `c` has a legal move. */
    method IsStalemate(c: Color) returns (r: bool)
      requires Valid()
      ensures r == Stalemated(bitboard.boards, bitboard.allPieces, View(), c)
    {
      var check := bitboard.IsKingInCheck(c);
      if check {
        return false;
      }
      r := NoLegalMove(c);
    }

    /** The square loop both tests share: false at the first piece of `c`
        with a legal move. */
    method NoLegalMove(c: Color) returns (r: bool)
      requires Valid()
      ensures r == !HasLegalMove(View(), c)
    {
      ghost var pos := View();
      for sq := 0 to 64
        invariant forall s {:trigger LegalMoves(pos, s)} | 0 <= s < sq ::
          !(s in pos.pieces && pos.pieces[s].color == c && LegalMoves(pos, s) != [])
      {
        if sq in pieces && pieces[sq].color == c {
          var moves := GetLegalMoves(sq);
          if moves != [] {
            assert sq in pos.pieces && LegalMoves(pos, sq) != [];
            return false;
          }
        }
      }
      return true;
    }
  }
}
