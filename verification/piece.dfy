/** The per-kind move generators.  They read the board through three things
    only: the square -> piece map, the board's castling rights and the
    board's en-passant target, gathered here in a `Position`.  Each generator
    returns its destinations in the order the engine appends them. */
module Pieces {
  import opened ChessTypes

  /** What the generators see of the board. */
  datatype Position = Position(
    pieces: map<int, Piece>,
    castlingRights: set<CastlingRight>,
    enPassantTarget: Option<int>)

  /** The map's keys and the en-passant target are squares. */
  predicate ValidPosition(pos: Position) {
    && (forall s :: s in pos.pieces ==> IsSquare(s))
    && (pos.enPassantTarget.Some? ==> IsSquare(pos.enPassantTarget.value))
  }

  predicate Occupied(pos: Position, s: int) {
    s in pos.pieces
  }

  predicate OccupiedBy(pos: Position, s: int, c: Color) {
    s in pos.pieces && pos.pieces[s].color == c
  }

  /** A direction a rook or bishop slides in. */
  predicate IsDirection(df: int, dr: int) {
    -1 <= df <= 1 && -1 <= dr <= 1 && (df != 0 || dr != 0)
  }

  // ---------------------------------------------------------------------------
  // Sliding pieces

  /** The squares a slider of colour `c` on `sq` reaches along (df, dr) from
      step `i` on: each empty square, then the first occupied square when the
      other colour holds it.  The walk stops at the edge. */
  function Ray(pos: Position, sq: int, c: Color, df: int, dr: int, i: nat): (r: seq<int>)
    requires IsSquare(sq) && IsDirection(df, dr) && 1 <= i <= 8
    decreases 8 - i
    ensures forall t :: t in r ==> IsSquare(t) && t != sq && !OccupiedBy(pos, t, c)
  {
    if i == 8 || !StepOnBoard(sq, df, dr, i) then []
    else
      var t := StepFrom(sq, df, dr, i);
      if Occupied(pos, t) then
        (if OccupiedBy(pos, t, Opponent(c)) then [t] else [])
      else
        [t] + Ray(pos, sq, c, df, dr, i + 1)
  }

  /** The squares from step `i` up to but excluding step `j` along (df, dr)
      are on the board and empty. */
  predicate ClearSteps(pos: Position, sq: int, df: int, dr: int, i: int, j: int) {
    forall m | i <= m < j :: StepOnBoard(sq, df, dr, m) && !Occupied(pos, StepFrom(sq, df, dr, m))
  }

  /** `t` lies `j` steps along (df, dr) from `sq`, with `i <= j < 8`, every
      square before it from step `i` on is empty, and colour `c` does not
      hold `t`. */
  predicate ReachesFrom(pos: Position, sq: int, c: Color, df: int, dr: int, i: int, t: int) {
    exists j | i <= j < 8 ::
      StepOnBoard(sq, df, dr, j) && t == StepFrom(sq, df, dr, j)
      && ClearSteps(pos, sq, df, dr, i, j) && !OccupiedBy(pos, t, c)
  }

  /** A ray holds exactly the squares along its direction that have nothing
      between them and the slider and that the slider's own colour does not
      hold. */
  lemma {:induction false} RayExact(pos: Position, sq: int, c: Color, df: int, dr: int, i: nat, t: int)
    requires IsSquare(sq) && IsDirection(df, dr) && 1 <= i <= 8
    ensures t in Ray(pos, sq, c, df, dr, i) <==> ReachesFrom(pos, sq, c, df, dr, i, t)
    decreases 8 - i
  {
    if i == 8 {
    } else if !StepOnBoard(sq, df, dr, i) {
      ReachesOffBoard(pos, sq, c, df, dr, i, t);
    } else {
      var s := StepFrom(sq, df, dr, i);
      if Occupied(pos, s) {
        assert Ray(pos, sq, c, df, dr, i) == if OccupiedBy(pos, s, Opponent(c)) then [s] else [];
        ReachesBlocked(pos, sq, c, df, dr, i, t);
      } else {
        assert Ray(pos, sq, c, df, dr, i) == [s] + Ray(pos, sq, c, df, dr, i + 1);
        ReachesEmpty(pos, sq, c, df, dr, i, t);
        RayExact(pos, sq, c, df, dr, i + 1, t);
      }
    }
  }

  /** Nothing is reached past the edge. */
  lemma ReachesOffBoard(pos: Position, sq: int, c: Color, df: int, dr: int, i: int, t: int)
    requires !StepOnBoard(sq, df, dr, i)
    ensures !ReachesFrom(pos, sq, c, df, dr, i, t)
  {
    forall j | i < j < 8
      ensures !ClearSteps(pos, sq, df, dr, i, j)
    {
    }
  }

  /** An occupied square is the last one reached. */
  lemma ReachesBlocked(pos: Position, sq: int, c: Color, df: int, dr: int, i: int, t: int)
    requires 1 <= i < 8 && StepOnBoard(sq, df, dr, i) && Occupied(pos, StepFrom(sq, df, dr, i))
    ensures ReachesFrom(pos, sq, c, df, dr, i, t) <==>
      t == StepFrom(sq, df, dr, i) && !OccupiedBy(pos, t, c)
  {
    assert ClearSteps(pos, sq, df, dr, i, i);
    forall j | i < j < 8
      ensures !ClearSteps(pos, sq, df, dr, i, j)
    {
    }
  }

  /** Past an empty square the ray goes on. */
  lemma ReachesEmpty(pos: Position, sq: int, c: Color, df: int, dr: int, i: int, t: int)
    requires 1 <= i < 8 && StepOnBoard(sq, df, dr, i) && !Occupied(pos, StepFrom(sq, df, dr, i))
    ensures ReachesFrom(pos, sq, c, df, dr, i, t) <==>
      t == StepFrom(sq, df, dr, i) || ReachesFrom(pos, sq, c, df, dr, i + 1, t)
  {
    assert ClearSteps(pos, sq, df, dr, i, i);
    if ReachesFrom(pos, sq, c, df, dr, i, t) && t != StepFrom(sq, df, dr, i) {
      var j :| i <= j < 8 && StepOnBoard(sq, df, dr, j) && t == StepFrom(sq, df, dr, j)
        && ClearSteps(pos, sq, df, dr, i, j) && !OccupiedBy(pos, t, c);
      assert ClearSteps(pos, sq, df, dr, i + 1, j);
    }
    if ReachesFrom(pos, sq, c, df, dr, i + 1, t) {
      var j :| i + 1 <= j < 8 && StepOnBoard(sq, df, dr, j) && t == StepFrom(sq, df, dr, j)
        && ClearSteps(pos, sq, df, dr, i + 1, j) && !OccupiedBy(pos, t, c);
      assert ClearSteps(pos, sq, df, dr, i, j);
    }
  }

  /** Rook destinations: file to the left, file to the right, rank down,
      rank up. */
  function RookMoves(pos: Position, sq: int, c: Color): (r: seq<int>)
    requires IsSquare(sq)
    ensures forall t :: t in r ==> IsSquare(t) && t != sq && !OccupiedBy(pos, t, c)
  {
    Ray(pos, sq, c, -1, 0, 1) + Ray(pos, sq, c, 1, 0, 1) + Ray(pos, sq, c, 0, -1, 1) + Ray(pos, sq, c, 0, 1, 1)
  }

  /** Bishop destinations: the four diagonals, file direction outermost. */
  function BishopMoves(pos: Position, sq: int, c: Color): (r: seq<int>)
    requires IsSquare(sq)
    ensures forall t :: t in r ==> IsSquare(t) && t != sq && !OccupiedBy(pos, t, c)
  {
    Ray(pos, sq, c, -1, -1, 1) + Ray(pos, sq, c, -1, 1, 1) + Ray(pos, sq, c, 1, -1, 1) + Ray(pos, sq, c, 1, 1, 1)
  }

  /** Queen destinations: the rook list followed by the bishop list. */
  function QueenMoves(pos: Position, sq: int, c: Color): (r: seq<int>)
    requires IsSquare(sq)
    ensures forall t :: t in r ==> IsSquare(t) && t != sq && !OccupiedBy(pos, t, c)
  {
    RookMoves(pos, sq, c) + BishopMoves(pos, sq, c)
  }

  /** A rook reaches exactly the squares along its rank or file that have
      nothing between and that its own colour does not hold. */
  lemma RookMovesExact(pos: Position, sq: int, c: Color, t: int)
    requires IsSquare(sq)
    ensures t in RookMoves(pos, sq, c) <==>
      || ReachesFrom(pos, sq, c, -1, 0, 1, t) || ReachesFrom(pos, sq, c, 1, 0, 1, t)
      || ReachesFrom(pos, sq, c, 0, -1, 1, t) || ReachesFrom(pos, sq, c, 0, 1, 1, t)
  {
    RayExact(pos, sq, c, -1, 0, 1, t);
    RayExact(pos, sq, c, 1, 0, 1, t);
    RayExact(pos, sq, c, 0, -1, 1, t);
    RayExact(pos, sq, c, 0, 1, 1, t);
  }

  /** A bishop reaches exactly the squares along its diagonals that have
      nothing between and that its own colour does not hold. */
  lemma BishopMovesExact(pos: Position, sq: int, c: Color, t: int)
    requires IsSquare(sq)
    ensures t in BishopMoves(pos, sq, c) <==>
      || ReachesFrom(pos, sq, c, -1, -1, 1, t) || ReachesFrom(pos, sq, c, -1, 1, 1, t)
      || ReachesFrom(pos, sq, c, 1, -1, 1, t) || ReachesFrom(pos, sq, c, 1, 1, 1, t)
  {
    RayExact(pos, sq, c, -1, -1, 1, t);
    RayExact(pos, sq, c, -1, 1, 1, t);
    RayExact(pos, sq, c, 1, -1, 1, t);
    RayExact(pos, sq, c, 1, 1, 1, t);
  }

  /** A queen reaches exactly what a rook or a bishop on its square reaches. */
  lemma QueenMovesExact(pos: Position, sq: int, c: Color, t: int)
    requires IsSquare(sq)
    ensures t in QueenMoves(pos, sq, c) <==> t in RookMoves(pos, sq, c) || t in BishopMoves(pos, sq, c)
    ensures |QueenMoves(pos, sq, c)| == |RookMoves(pos, sq, c)| + |BishopMoves(pos, sq, c)|
  {
  }

  // ---------------------------------------------------------------------------
  // Stepping pieces

  /** The destinations of a piece on `sq` stepping by each offset in turn:
      those on the board that colour `c` does not hold. */
  function OffsetMoves(pos: Position, sq: int, c: Color, offsets: seq<(int, int)>): (r: seq<int>)
    requires IsSquare(sq)
    ensures forall t :: t in r ==> IsSquare(t) && !OccupiedBy(pos, t, c)
    ensures forall t :: t in r <==> exists j | 0 <= j < |offsets| ::
      StepOnBoard(sq, offsets[j].0, offsets[j].1, 1) && t == StepFrom(sq, offsets[j].0, offsets[j].1, 1)
      && !OccupiedBy(pos, t, c)
  {
    if offsets == [] then []
    else
      var n := |offsets| - 1;
      var rest := OffsetMoves(pos, sq, c, offsets[..n]);
      var (df, dr) := offsets[n];
      var last :=
        if StepOnBoard(sq, df, dr, 1) && !OccupiedBy(pos, StepFrom(sq, df, dr, 1), c)
        then [StepFrom(sq, df, dr, 1)] else [];
      assert forall j | 0 <= j < n :: offsets[..n][j] == offsets[j];
      rest + last
  }

  function KnightMoves(pos: Position, sq: int, c: Color): (r: seq<int>)
    requires IsSquare(sq)
  {
    OffsetMoves(pos, sq, c, KnightOffsets)
  }

  /** The king's one-square steps, without castling. */
  function KingSteps(pos: Position, sq: int, c: Color): (r: seq<int>)
    requires IsSquare(sq)
  {
    OffsetMoves(pos, sq, c, KingOffsets)
  }

  /** A knight reaches exactly the on-board squares a knight's jump away that
      its own colour does not hold. */
  lemma KnightMovesExact(pos: Position, sq: int, c: Color, t: int)
    requires IsSquare(sq)
    ensures t in KnightMoves(pos, sq, c) <==>
      IsSquare(t) && !OccupiedBy(pos, t, c) && KnightJump(sq, t)
  {
    if t in KnightMoves(pos, sq, c) {
      KnightMovesSound(pos, sq, c, t);
    }
    if IsSquare(t) && !OccupiedBy(pos, t, c) && KnightJump(sq, t) {
      KnightMovesComplete(pos, sq, c, t);
    }
  }

  lemma KnightMovesSound(pos: Position, sq: int, c: Color, t: int)
    requires IsSquare(sq) && t in KnightMoves(pos, sq, c)
    ensures IsSquare(t) && !OccupiedBy(pos, t, c) && KnightJump(sq, t)
  {
    var j :| 0 <= j < |KnightOffsets| && StepOnBoard(sq, KnightOffsets[j].0, KnightOffsets[j].1, 1)
      && t == StepFrom(sq, KnightOffsets[j].0, KnightOffsets[j].1, 1) && !OccupiedBy(pos, t, c);
    var (df, dr) := KnightOffsets[j];
    OffsetStep(sq, df, dr);
    assert (Abs(df) == 1 && Abs(dr) == 2) || (Abs(df) == 2 && Abs(dr) == 1);
  }

  lemma KnightMovesComplete(pos: Position, sq: int, c: Color, t: int)
    requires IsSquare(sq) && IsSquare(t) && !OccupiedBy(pos, t, c) && KnightJump(sq, t)
    ensures t in KnightMoves(pos, sq, c)
  {
    NeighbourStep(sq, t);
    var j := KnightOffsetIndex(FileOf(t) - FileOf(sq), RankOf(t) - RankOf(sq));
  }

  /** A king steps exactly onto the on-board neighbours of its square that its
      own colour does not hold. */
  lemma KingStepsExact(pos: Position, sq: int, c: Color, t: int)
    requires IsSquare(sq)
    ensures t in KingSteps(pos, sq, c) <==>
      IsSquare(t) && t != sq && !OccupiedBy(pos, t, c)
      && Abs(FileOf(t) - FileOf(sq)) <= 1 && Abs(RankOf(t) - RankOf(sq)) <= 1
  {
    if t in KingSteps(pos, sq, c) {
      KingStepsSound(pos, sq, c, t);
    }
    if IsSquare(t) && t != sq && !OccupiedBy(pos, t, c)
       && Abs(FileOf(t) - FileOf(sq)) <= 1 && Abs(RankOf(t) - RankOf(sq)) <= 1
    {
      KingStepsComplete(pos, sq, c, t);
    }
  }

  lemma KingStepsSound(pos: Position, sq: int, c: Color, t: int)
    requires IsSquare(sq) && t in KingSteps(pos, sq, c)
    ensures IsSquare(t) && t != sq && !OccupiedBy(pos, t, c)
      && Abs(FileOf(t) - FileOf(sq)) <= 1 && Abs(RankOf(t) - RankOf(sq)) <= 1
  {
    var j :| 0 <= j < |KingOffsets| && StepOnBoard(sq, KingOffsets[j].0, KingOffsets[j].1, 1)
      && t == StepFrom(sq, KingOffsets[j].0, KingOffsets[j].1, 1) && !OccupiedBy(pos, t, c);
    OffsetStep(sq, KingOffsets[j].0, KingOffsets[j].1);
  }

  lemma KingStepsComplete(pos: Position, sq: int, c: Color, t: int)
    requires IsSquare(sq) && IsSquare(t) && t != sq && !OccupiedBy(pos, t, c)
    requires Abs(FileOf(t) - FileOf(sq)) <= 1 && Abs(RankOf(t) - RankOf(sq)) <= 1
    ensures t in KingSteps(pos, sq, c)
  {
    var df, dr := FileOf(t) - FileOf(sq), RankOf(t) - RankOf(sq);
    NeighbourStep(sq, t);
    var j := KingOffsetIndex(df, dr);
    assert StepFrom(sq, KingOffsets[j].0, KingOffsets[j].1, 1) == t;
  }

  // ---------------------------------------------------------------------------
  // Pawns

  /** The diagonal destination on (nf, nr) when the other colour holds it. */
  function PawnCapture(pos: Position, nf: int, nr: int, c: Color): seq<int> {
    if OnBoard(nf, nr) && OccupiedBy(pos, SquareAt(nf, nr), Opponent(c)) then [SquareAt(nf, nr)] else []
  }

  /** Pawn destinations: the push (and the double push from the start rank
      when both squares are empty), the two diagonal captures, then the board's
      en-passant target when it sits on an adjacent file and the pawn is on
      its fifth rank. */
  function PawnMoves(pos: Position, sq: int, c: Color): (r: seq<int>)
    requires IsSquare(sq)
    ensures ValidPosition(pos) ==> forall t :: t in r ==> IsSquare(t)
  {
    var f, rk := FileOf(sq), RankOf(sq);
    var dir := if c == White then 1 else -1;
    var pushes := PawnPushes(pos, sq, c);
    var captures := PawnCapture(pos, f - 1, rk + dir, c) + PawnCapture(pos, f + 1, rk + dir, c);
    var enPassant :=
      match pos.enPassantTarget
      case Some(ep) =>
        if Abs(f - FileOf(ep)) == 1 && rk == (if c == White then 4 else 3) then [ep] else []
      case None => [];
    pushes + captures + enPassant
  }

  /** The pushes of a pawn on `sq`: one square forward when it is empty, and
      then two squares forward from the start rank when that is empty too. */
  function PawnPushes(pos: Position, sq: int, c: Color): (r: seq<int>)
    requires IsSquare(sq)
  {
    var f, rk := FileOf(sq), RankOf(sq);
    var dir := if c == White then 1 else -1;
    var startRank := if c == White then 1 else 6;
    if 0 <= rk + dir <= 7 && !Occupied(pos, SquareAt(f, rk + dir)) then
      [SquareAt(f, rk + dir)]
      + (if rk == startRank && 0 <= rk + 2 * dir <= 7 && !Occupied(pos, SquareAt(f, rk + 2 * dir))
         then [SquareAt(f, rk + 2 * dir)] else [])
    else []
  }

  /** Every pawn destination is a push onto an empty square, a double push
      from the start rank over an empty square onto an empty square, a
      diagonal step onto a square the other colour holds, or the en-passant
      target under its file and rank conditions; and each of these is
      generated. */
  lemma PawnMovesExact(pos: Position, sq: int, c: Color, t: int)
    requires IsSquare(sq)
    ensures t in PawnMoves(pos, sq, c) <==>
      var dir := if c == White then 1 else -1;
      var startRank := if c == White then 1 else 6;
      || (IsSquare(sq + 8 * dir) && t == sq + 8 * dir && !Occupied(pos, t))
      || (RankOf(sq) == startRank && t == sq + 16 * dir
          && !Occupied(pos, sq + 8 * dir) && !Occupied(pos, t))
      || (IsSquare(t) && RankOf(t) == RankOf(sq) + dir && Abs(FileOf(t) - FileOf(sq)) == 1
          && OccupiedBy(pos, t, Opponent(c)))
      || (pos.enPassantTarget == Some(t) && Abs(FileOf(sq) - FileOf(t)) == 1
          && RankOf(sq) == (if c == White then 4 else 3))
  {
    PawnPushesExact(pos, sq, c, t);
    PawnCapturesExact(pos, sq, c, t);
  }

  lemma PawnPushesExact(pos: Position, sq: int, c: Color, t: int)
    requires IsSquare(sq)
    ensures t in PawnPushes(pos, sq, c) <==>
      var dir := if c == White then 1 else -1;
      var startRank := if c == White then 1 else 6;
      || (IsSquare(sq + 8 * dir) && t == sq + 8 * dir && !Occupied(pos, t))
      || (RankOf(sq) == startRank && t == sq + 16 * dir
          && !Occupied(pos, sq + 8 * dir) && !Occupied(pos, t))
  {
    SquareCoordinates(sq);
    var f, rk := FileOf(sq), RankOf(sq);
    var dir := if c == White then 1 else -1;
    if 0 <= rk + dir <= 7 {
      assert SquareAt(f, rk + dir) == sq + 8 * dir;
      if 0 <= rk + 2 * dir <= 7 {
        assert SquareAt(f, rk + 2 * dir) == sq + 16 * dir;
      }
    } else {
      assert !IsSquare(sq + 8 * dir);
    }
  }

  lemma PawnCapturesExact(pos: Position, sq: int, c: Color, t: int)
    requires IsSquare(sq)
    ensures
      var dir := if c == White then 1 else -1;
      t in PawnCapture(pos, FileOf(sq) - 1, RankOf(sq) + dir, c)
        + PawnCapture(pos, FileOf(sq) + 1, RankOf(sq) + dir, c) <==>
      IsSquare(t) && RankOf(t) == RankOf(sq) + dir && Abs(FileOf(t) - FileOf(sq)) == 1
      && OccupiedBy(pos, t, Opponent(c))
  {
    var dir := if c == White then 1 else -1;
    var f, rk := FileOf(sq), RankOf(sq);
    var left, right := PawnCapture(pos, f - 1, rk + dir, c), PawnCapture(pos, f + 1, rk + dir, c);
    PawnCaptureAt(pos, f - 1, rk + dir, c, t);
    PawnCaptureAt(pos, f + 1, rk + dir, c, t);
    assert t in left + right <==> t in left || t in right;
    assert Abs(FileOf(t) - f) == 1 <==> FileOf(t) == f - 1 || FileOf(t) == f + 1;
  }

  /** The diagonal capture onto (nf, nr) holds `t` exactly when `t` is that
      square and the other colour holds it. */
  lemma PawnCaptureAt(pos: Position, nf: int, nr: int, c: Color, t: int)
    ensures t in PawnCapture(pos, nf, nr, c) <==>
      IsSquare(t) && FileOf(t) == nf && RankOf(t) == nr && OccupiedBy(pos, t, Opponent(c))
  {
    if IsSquare(t) && FileOf(t) == nf && RankOf(t) == nr {
      SquareCoordinates(t);
    }
  }

  // ---------------------------------------------------------------------------
  // Castling and the attack test

  /** The castling destinations of the colour: g1/c1 for White, g8/c8 for
      Black. */
  function CastlingTargets(c: Color): set<int> {
    if c == White then {6, 2} else {62, 58}
  }

  /** Castling destinations of king `p`, in the order kingside, queenside.  A
      side needs its right, the listed squares between empty, and the two
      listed squares not attacked; the king's own square is not tested.  The
      attack test used is the one without castling moves (see
      `CastlingQueriesExact`). */
  function CastlingMoves(pos: Position, p: Piece): (r: seq<int>)
    ensures forall t :: t in r ==> t in CastlingTargets(p.color) && !Occupied(pos, t)
    ensures p.hasMoved ==> r == []
  {
    if p.hasMoved then []
    else
      (if p.color == White && WhiteKingside in pos.castlingRights
          && !Occupied(pos, 5) && !Occupied(pos, 6)
          && !AttackedBySteps(pos, 5, Black) && !AttackedBySteps(pos, 6, Black)
       then [6] else [])
      + (if p.color == White && WhiteQueenside in pos.castlingRights
            && !Occupied(pos, 1) && !Occupied(pos, 2) && !Occupied(pos, 3)
            && !AttackedBySteps(pos, 2, Black) && !AttackedBySteps(pos, 3, Black)
         then [2] else [])
      + (if p.color == Black && BlackKingside in pos.castlingRights
            && !Occupied(pos, 61) && !Occupied(pos, 62)
            && !AttackedBySteps(pos, 61, White) && !AttackedBySteps(pos, 62, White)
         then [62] else [])
      + (if p.color == Black && BlackQueenside in pos.castlingRights
            && !Occupied(pos, 57) && !Occupied(pos, 58) && !Occupied(pos, 59)
            && !AttackedBySteps(pos, 58, White) && !AttackedBySteps(pos, 59, White)
         then [58] else [])
  }

  /** The destinations of piece `p` on `sq` without castling. */
  function StepMoves(pos: Position, sq: int, p: Piece): (r: seq<int>)
    requires IsSquare(sq)
    ensures p.kind != Pawn ==> forall t :: t in r ==> IsSquare(t) && t != sq && !OccupiedBy(pos, t, p.color)
    ensures ValidPosition(pos) ==> forall t :: t in r ==> IsSquare(t)
  {
    match p.kind
    case Pawn => PawnMoves(pos, sq, p.color)
    case Rook => RookMoves(pos, sq, p.color)
    case Knight => KnightMovesNotOrigin(pos, sq, p.color); KnightMoves(pos, sq, p.color)
    case Bishop => BishopMoves(pos, sq, p.color)
    case Queen => QueenMoves(pos, sq, p.color)
    case King => KingStepsNotOrigin(pos, sq, p.color); KingSteps(pos, sq, p.color)
  }

  lemma KnightMovesNotOrigin(pos: Position, sq: int, c: Color)
    requires IsSquare(sq)
    ensures sq !in KnightMoves(pos, sq, c)
  {
    KnightMovesExact(pos, sq, c, sq);
  }

  lemma KingStepsNotOrigin(pos: Position, sq: int, c: Color)
    requires IsSquare(sq)
    ensures sq !in KingSteps(pos, sq, c)
  {
    KingStepsExact(pos, sq, c, sq);
  }

  /** Whether some piece of colour `attacker` on a square lists `s` among its
      destinations without castling. */
  predicate AttackedBySteps(pos: Position, s: int, attacker: Color) {
    exists ps | 0 <= ps < 64 :: OccupiedBy(pos, ps, attacker) && s in StepMoves(pos, ps, pos.pieces[ps])
  }

  /** The pseudo-legal destinations of piece `p` on `sq`: for a king, its
      steps followed by its castling destinations. */
  function PseudoLegalMoves(pos: Position, sq: int, p: Piece): (r: seq<int>)
    requires IsSquare(sq)
    ensures ValidPosition(pos) ==> forall t :: t in r ==> IsSquare(t)
    ensures p.kind != Pawn ==> forall t :: t in r ==> !OccupiedBy(pos, t, p.color)
  {
    if p.kind == King then StepMoves(pos, sq, p) + CastlingMoves(pos, p) else StepMoves(pos, sq, p)
  }

  /** The board's attack test: some piece of colour `attacker` on a square lists
      `s` among its pseudo-legal destinations. */
  predicate Attacked(pos: Position, s: int, attacker: Color) {
    exists ps | 0 <= ps < 64 :: OccupiedBy(pos, ps, attacker) && s in PseudoLegalMoves(pos, ps, pos.pieces[ps])
  }

  /** Castling moves only add the attacker's empty castling destinations, so
      on any other square the full attack test and the test without castling
      agree. */
  lemma AttackedFixedPoint(pos: Position, s: int, attacker: Color)
    requires s !in CastlingTargets(attacker) || Occupied(pos, s)
    ensures Attacked(pos, s, attacker) <==> AttackedBySteps(pos, s, attacker)
  {
    if Attacked(pos, s, attacker) {
      var ps :| 0 <= ps < 64 && OccupiedBy(pos, ps, attacker) && s in PseudoLegalMoves(pos, ps, pos.pieces[ps]);
      assert s in StepMoves(pos, ps, pos.pieces[ps]);
    }
    if AttackedBySteps(pos, s, attacker) {
      var ps :| 0 <= ps < 64 && OccupiedBy(pos, ps, attacker) && s in StepMoves(pos, ps, pos.pieces[ps]);
      assert s in PseudoLegalMoves(pos, ps, pos.pieces[ps]);
    }
  }

  /** The squares castling asks about are never the other side's castling
      destinations, so asking the test without castling gives the answer the
      full attack test gives. */
  lemma CastlingQueriesExact(pos: Position)
    ensures forall s | s in {5, 6, 2, 3} :: Attacked(pos, s, Black) <==> AttackedBySteps(pos, s, Black)
    ensures forall s | s in {61, 62, 58, 59} :: Attacked(pos, s, White) <==> AttackedBySteps(pos, s, White)
  {
    forall s | s in {5, 6, 2, 3} ensures Attacked(pos, s, Black) <==> AttackedBySteps(pos, s, Black) {
      AttackedFixedPoint(pos, s, Black);
    }
    forall s | s in {61, 62, 58, 59} ensures Attacked(pos, s, White) <==> AttackedBySteps(pos, s, White) {
      AttackedFixedPoint(pos, s, White);
    }
  }

  /** A king that has not moved castles kingside exactly when its right is
      held, the squares between are empty and neither listed square is
      attacked by the full test; likewise queenside.  A moved king never
      castles. */
  lemma CastlingMovesExact(pos: Position, p: Piece)
    ensures 6 in CastlingMoves(pos, p) <==>
      !p.hasMoved && p.color == White && WhiteKingside in pos.castlingRights
      && !Occupied(pos, 5) && !Occupied(pos, 6) && !Attacked(pos, 5, Black) && !Attacked(pos, 6, Black)
    ensures 2 in CastlingMoves(pos, p) <==>
      !p.hasMoved && p.color == White && WhiteQueenside in pos.castlingRights
      && !Occupied(pos, 1) && !Occupied(pos, 2) && !Occupied(pos, 3)
      && !Attacked(pos, 2, Black) && !Attacked(pos, 3, Black)
    ensures 62 in CastlingMoves(pos, p) <==>
      !p.hasMoved && p.color == Black && BlackKingside in pos.castlingRights
      && !Occupied(pos, 61) && !Occupied(pos, 62) && !Attacked(pos, 61, White) && !Attacked(pos, 62, White)
    ensures 58 in CastlingMoves(pos, p) <==>
      !p.hasMoved && p.color == Black && BlackQueenside in pos.castlingRights
      && !Occupied(pos, 57) && !Occupied(pos, 58) && !Occupied(pos, 59)
      && !Attacked(pos, 58, White) && !Attacked(pos, 59, White)
  {
    CastlingQueriesExact(pos);
  }

  /** No piece lists its own square among its destinations. */
  lemma PseudoLegalNotOrigin(pos: Position, sq: int)
    requires IsSquare(sq) && sq in pos.pieces
    ensures sq !in PseudoLegalMoves(pos, sq, pos.pieces[sq])
  {
    var p := pos.pieces[sq];
    if p.kind == Pawn {
      PawnMovesExact(pos, sq, p.color, sq);
    }
  }
}
