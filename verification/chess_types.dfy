/** Colours, piece kinds, pieces, castling rights and square arithmetic shared by
    the bitboard, the move generators, the board and the move history.

    Squares are numbered a1 = 0 ... h8 = 63: the file is `s % 8` and the rank
    is `s / 8`, both counted from 0. */
module ChessTypes {

  datatype Option<T> = None | Some(value: T)

  datatype Color = White | Black

  /** The six kinds, in the PAWN..KING order every loop of the engine uses. */
  datatype Kind = Pawn | Rook | Knight | Bishop | Queen | King

  /** A piece as the board's square -> piece map holds it.  `hasMoved` starts
      false and is set when the board moves the piece. */
  datatype Piece = Piece(color: Color, kind: Kind, hasMoved: bool)

  /** The four independent castling bits. */
  datatype CastlingRight = WhiteKingside | WhiteQueenside | BlackKingside | BlackQueenside

  const AllCastlingRights: set<CastlingRight> :=
    {WhiteKingside, WhiteQueenside, BlackKingside, BlackQueenside}

  /** The iteration orders of the engine's loops over colours and kinds. */
  const Colors: seq<Color> := [White, Black]
  const Kinds: seq<Kind> := [Pawn, Rook, Knight, Bishop, Queen, King]

  function Opponent(c: Color): (r: Color)
    ensures r != c
  {
    if c == White then Black else White
  }

  function ColorIndex(c: Color): (i: nat)
    ensures i < |Colors| && Colors[i] == c
  {
    match c
    case White => 0
    case Black => 1
  }

  function KindIndex(k: Kind): (i: nat)
    ensures i < |Kinds| && Kinds[i] == k
  {
    match k
    case Pawn => 0
    case Rook => 1
    case Knight => 2
    case Bishop => 3
    case Queen => 4
    case King => 5
  }

  /** Position `i` of the colour order holds the colour whose index is `i`. */
  lemma ColorAt(i: nat)
    requires i < |Colors|
    ensures ColorIndex(Colors[i]) == i
  {
  }

  lemma KindAt(i: nat)
    requires i < |Kinds|
    ensures KindIndex(Kinds[i]) == i
  {
  }

  predicate IsSquare(s: int) { 0 <= s < 64 }

  function FileOf(s: int): int { s % 8 }

  function RankOf(s: int): int { s / 8 }

  predicate OnBoard(f: int, r: int) { 0 <= f <= 7 && 0 <= r <= 7 }

  /** The square on file `f` and rank `r`; the inverse of FileOf/RankOf. */
  function SquareAt(f: int, r: int): (s: int)
    requires OnBoard(f, r)
    ensures IsSquare(s) && FileOf(s) == f && RankOf(s) == r
  {
    r * 8 + f
  }

  lemma SquareCoordinates(s: int)
    requires IsSquare(s)
    ensures OnBoard(FileOf(s), RankOf(s)) && SquareAt(FileOf(s), RankOf(s)) == s
  {
  }

  /** `d * k`, with the cases the board's directions use spelled out. */
  function Scale(d: int, k: int): (r: int)
    ensures d == 0 ==> r == 0
    ensures d == 1 ==> r == k
    ensures d == -1 ==> r == -k
    ensures k == 1 ==> r == d
    ensures k == 0 ==> r == 0
  {
    d * k
  }

  /** Whether the square `k` steps from `s` in direction (df, dr) lies on the board. */
  predicate StepOnBoard(s: int, df: int, dr: int, k: int) {
    OnBoard(FileOf(s) + Scale(df, k), RankOf(s) + Scale(dr, k))
  }

  /** The square `k` steps from `s` in direction (df, dr). */
  function StepFrom(s: int, df: int, dr: int, k: int): (t: int)
    requires StepOnBoard(s, df, dr, k)
    ensures IsSquare(t)
  {
    SquareAt(FileOf(s) + Scale(df, k), RankOf(s) + Scale(dr, k))
  }

  /** A square written as rank and file gives back that rank and file. */
  lemma Coordinates(t: int, f: int, r: int)
    requires 0 <= f < 8 && t == 8 * r + f
    ensures FileOf(t) == f && RankOf(t) == r
  {
  }

  /** The knight's (file, rank) offsets, in the order both the move generator
      and the attack test try them. */
  const KnightOffsets: seq<(int, int)> :=
    [(-2, -1), (-2, 1), (-1, -2), (-1, 2), (1, -2), (1, 2), (2, -1), (2, 1)]

  /** The king's eight (file, rank) offsets, file offset outermost. */
  const KingOffsets: seq<(int, int)> :=
    [(-1, -1), (-1, 0), (-1, 1), (0, -1), (0, 1), (1, -1), (1, 0), (1, 1)]

  function Abs(x: int): int { if x < 0 then -x else x }

  /** The sign of `x`, as the engine's direction computations use it. */
  function Sign(x: int): (r: int)
    ensures -1 <= r <= 1 && (r == 0 <==> x == 0) && (r > 0 <==> x > 0)
  {
    if x > 0 then 1 else if x < 0 then -1 else 0
  }

  /** `t` is a knight's jump away from `sq`. */
  predicate KnightJump(sq: int, t: int) {
    || (Abs(FileOf(t) - FileOf(sq)) == 1 && Abs(RankOf(t) - RankOf(sq)) == 2)
    || (Abs(FileOf(t) - FileOf(sq)) == 2 && Abs(RankOf(t) - RankOf(sq)) == 1)
  }

  /** The position of a knight offset in the offset table. */
  function KnightOffsetIndex(df: int, dr: int): (j: nat)
    requires (Abs(df) == 1 && Abs(dr) == 2) || (Abs(df) == 2 && Abs(dr) == 1)
    ensures j < |KnightOffsets| && KnightOffsets[j] == (df, dr)
  {
    if df == -2 then (if dr == -1 then 0 else 1)
    else if df == -1 then (if dr == -2 then 2 else 3)
    else if df == 1 then (if dr == -2 then 4 else 5)
    else (if dr == -1 then 6 else 7)
  }

  /** A single step by (df, dr) changes the file by df and the rank by dr. */
  lemma OffsetStep(sq: int, df: int, dr: int)
    requires IsSquare(sq) && StepOnBoard(sq, df, dr, 1)
    ensures var t := StepFrom(sq, df, dr, 1);
      FileOf(t) - FileOf(sq) == df && RankOf(t) - RankOf(sq) == dr
  {
    SquareCoordinates(sq);
  }

  /** A square is the step from `sq` by its own file and rank differences. */
  lemma NeighbourStep(sq: int, t: int)
    requires IsSquare(sq) && IsSquare(t)
    ensures StepOnBoard(sq, FileOf(t) - FileOf(sq), RankOf(t) - RankOf(sq), 1)
    ensures StepFrom(sq, FileOf(t) - FileOf(sq), RankOf(t) - RankOf(sq), 1) == t
  {
    SquareCoordinates(sq);
    SquareCoordinates(t);
  }

  /** The position of a king offset in the offset table. */
  function KingOffsetIndex(df: int, dr: int): (j: nat)
    requires -1 <= df <= 1 && -1 <= dr <= 1 && (df != 0 || dr != 0)
    ensures j < |KingOffsets| && KingOffsets[j] == (df, dr)
  {
    if df == -1 then dr + 1
    else if df == 0 then (if dr == -1 then 3 else 4)
    else dr + 6
  }
}
