/** The position store's occupancy masks and the attack oracle that reads them.

    The engine keeps one 64-bit mask per colour and kind; here each mask is the
    set of squares whose bit is set.  The combined white, black and all-pieces
    masks are derived from the twelve.  The attack tests are read-only and are
    functions over the masks; the mutators live on the class `Bitboard`. */
module Bitboards {
  import opened ChessTypes

  /** The twelve masks, indexed by colour and then kind. */
  type Boards = map<Color, map<Kind, set<int>>>

  /** Every colour has a mask for every kind. */
  predicate Complete(b: Boards) {
    (forall c: Color :: c in b) && (forall c: Color, k: Kind :: k in b[c])
  }

  /** The masks hold squares only, and no square is in two masks. */
  predicate WellFormed(b: Boards) {
    && Complete(b)
    && (forall c: Color, k: Kind, s :: s in b[c][k] ==> IsSquare(s))
    && (forall c1: Color, k1: Kind, c2: Color, k2: Kind, s ::
          s in b[c1][k1] && s in b[c2][k2] ==> c1 == c2 && k1 == k2)
  }

  const NoPieces: map<Kind, set<int>> :=
    map[Pawn := {}, Rook := {}, Knight := {}, Bishop := {}, Queen := {}, King := {}]

  /** The masks of a freshly created bitboard: all zero. */
  const EmptyBoards: Boards := map[White := NoPieces, Black := NoPieces]

  const Rank2: set<int> := set s | 8 <= s < 16
  const Rank7: set<int> := set s | 48 <= s < 56

  /** The masks of the standard starting position. */
  const InitialBoards: Boards :=
    map[White := map[Pawn := Rank2, Rook := {0, 7}, Knight := {1, 6}, Bishop := {2, 5},
                     Queen := {3}, King := {4}],
        Black := map[Pawn := Rank7, Rook := {56, 63}, Knight := {57, 62}, Bishop := {58, 61},
                     Queen := {59}, King := {60}]]

  /** Where the standard starting position puts each square's piece. */
  function InitialHolder(s: int): Option<(Color, Kind)> {
    if 8 <= s < 16 then Some((White, Pawn))
    else if 48 <= s < 56 then Some((Black, Pawn))
    else if s == 0 || s == 7 then Some((White, Rook))
    else if s == 1 || s == 6 then Some((White, Knight))
    else if s == 2 || s == 5 then Some((White, Bishop))
    else if s == 3 then Some((White, Queen))
    else if s == 4 then Some((White, King))
    else if s == 56 || s == 63 then Some((Black, Rook))
    else if s == 57 || s == 62 then Some((Black, Knight))
    else if s == 58 || s == 61 then Some((Black, Bishop))
    else if s == 59 then Some((Black, Queen))
    else if s == 60 then Some((Black, King))
    else None
  }

  lemma CompleteByCases(b: Boards)
    requires White in b && Black in b
    requires forall k: Kind :: k in b[White] && k in b[Black]
    ensures Complete(b)
  {
    forall c: Color ensures c in b {
      if c == White {} else { assert c == Black; }
    }
    forall c: Color, k: Kind ensures k in b[c] {
      if c == White {} else { assert c == Black; }
    }
  }

  lemma NoPiecesComplete()
    ensures forall k: Kind :: k in NoPieces && NoPieces[k] == {}
  {
    forall k: Kind ensures k in NoPieces && NoPieces[k] == {} {
      match k
      case Pawn =>
      case Rook =>
      case Knight =>
      case Bishop =>
      case Queen =>
      case King =>
    }
  }

  lemma EmptyBoardsWellFormed()
    ensures WellFormed(EmptyBoards)
    ensures forall c: Color, k: Kind :: EmptyBoards[c][k] == {}
  {
    NoPiecesComplete();
    CompleteByCases(EmptyBoards);
    forall c: Color, k: Kind ensures EmptyBoards[c][k] == {} {
      if c == White {} else { assert c == Black; }
    }
    assert forall c: Color, k: Kind, s :: s !in EmptyBoards[c][k];
  }

  /** The initial masks are exactly the standard starting position. */
  lemma InitialBoardsHolder(c: Color, k: Kind, s: int)
    requires Complete(InitialBoards)
    ensures s in InitialBoards[c][k] <==> InitialHolder(s) == Some((c, k))
  {
    match c {
      case White =>
        match k {
          case Pawn =>
          case Rook =>
          case Knight =>
          case Bishop =>
          case Queen =>
          case King =>
        }
      case Black =>
        match k {
          case Pawn =>
          case Rook =>
          case Knight =>
          case Bishop =>
          case Queen =>
          case King =>
        }
    }
  }

  lemma InitialBoardsWellFormed()
    ensures WellFormed(InitialBoards)
    ensures forall c: Color, k: Kind, s :: s in InitialBoards[c][k] <==> InitialHolder(s) == Some((c, k))
  {
    forall k: Kind ensures k in InitialBoards[White] && k in InitialBoards[Black] {
      match k
      case Pawn =>
      case Rook =>
      case Knight =>
      case Bishop =>
      case Queen =>
      case King =>
    }
    CompleteByCases(InitialBoards);
    forall c: Color, k: Kind, s
      ensures s in InitialBoards[c][k] <==> InitialHolder(s) == Some((c, k))
    {
      InitialBoardsHolder(c, k, s);
    }
    forall c: Color, k: Kind, s | s in InitialBoards[c][k] ensures IsSquare(s) {
      assert InitialHolder(s).Some?;
    }
    forall c1: Color, k1: Kind, c2: Color, k2: Kind, s | s in InitialBoards[c1][k1] && s in InitialBoards[c2][k2]
      ensures c1 == c2 && k1 == k2
    {
      assert InitialHolder(s) == Some((c1, k1)) && InitialHolder(s) == Some((c2, k2));
    }
  }

  // ---------------------------------------------------------------------------
  // Combined masks

  /** The union of colour `c`'s first `n` masks, in PAWN..KING order. */
  function UnionOfKinds(b: Boards, c: Color, n: nat): set<int>
    requires Complete(b) && n <= |Kinds|
  {
    if n == 0 then {} else UnionOfKinds(b, c, n - 1) + b[c][Kinds[n - 1]]
  }

  /** The OR of colour `c`'s six masks. */
  function ColorMask(b: Boards, c: Color): set<int>
    requires Complete(b)
  {
    UnionOfKinds(b, c, |Kinds|)
  }

  lemma {:induction false} UnionOfKindsMembership(b: Boards, c: Color, n: nat, s: int)
    requires Complete(b) && n <= |Kinds|
    ensures s in UnionOfKinds(b, c, n) <==> exists i | 0 <= i < n :: s in b[c][Kinds[i]]
  {
    if n > 0 {
      UnionOfKindsMembership(b, c, n - 1, s);
    }
  }

  /** A square is in a colour's combined mask iff one of its six masks has it. */
  lemma ColorMaskMembership(b: Boards, c: Color, s: int)
    requires Complete(b)
    ensures s in ColorMask(b, c) <==> exists k: Kind :: s in b[c][k]
  {
    UnionOfKindsMembership(b, c, |Kinds|, s);
    if s in ColorMask(b, c) {
      var i :| 0 <= i < |Kinds| && s in b[c][Kinds[i]];
      assert s in b[c][Kinds[i]];
    } else {
      forall k: Kind ensures s !in b[c][k] {
        assert Kinds[KindIndex(k)] == k;
      }
    }
  }

  // ---------------------------------------------------------------------------
  // Piece lookup

  /** The order in which the lookup tries the masks: WHITE then BLACK, each
      PAWN..KING. */
  const Order: seq<(Color, Kind)> :=
    [(White, Pawn), (White, Rook), (White, Knight), (White, Bishop), (White, Queen), (White, King),
     (Black, Pawn), (Black, Rook), (Black, Knight), (Black, Bishop), (Black, Queen), (Black, King)]

  lemma OrderAt(ci: nat, ki: nat)
    requires ci < |Colors| && ki < |Kinds|
    ensures ci * |Kinds| + ki < |Order| && Order[ci * |Kinds| + ki] == (Colors[ci], Kinds[ki])
  {
  }

  lemma OrderCovers(c: Color, k: Kind)
    ensures ColorIndex(c) * |Kinds| + KindIndex(k) < |Order|
    ensures Order[ColorIndex(c) * |Kinds| + KindIndex(k)] == (c, k)
  {
    OrderAt(ColorIndex(c), KindIndex(k));
  }

  /** The first (colour, kind) at or after position `i` of the lookup order
      whose mask holds `sq`. */
  function FirstHolder(b: Boards, sq: int, i: nat): (r: Option<(Color, Kind)>)
    requires Complete(b) && i <= |Order|
    decreases |Order| - i
    ensures r.Some? ==> sq in b[r.value.0][r.value.1]
    ensures r.None? <==> forall j | i <= j < |Order| :: sq !in b[Order[j].0][Order[j].1]
  {
    if i == |Order| then None
    else if sq in b[Order[i].0][Order[i].1] then Some(Order[i])
    else FirstHolder(b, sq, i + 1)
  }

  /** What the bitboard holds on `sq`: the first (colour, kind) in lookup order
      whose mask has the square, or None. */
  function PieceAt(b: Boards, sq: int): Option<(Color, Kind)>
    requires Complete(b)
  {
    FirstHolder(b, sq, 0)
  }

  /** The lookup finds nothing iff no mask has the square; on well-formed masks
      it finds exactly the one mask that has it. */
  lemma PieceAtSpec(b: Boards, sq: int)
    requires Complete(b)
    ensures PieceAt(b, sq).None? <==> forall c: Color, k: Kind :: sq !in b[c][k]
    ensures WellFormed(b) ==> forall c: Color, k: Kind :: PieceAt(b, sq) == Some((c, k)) <==> sq in b[c][k]
  {
    if PieceAt(b, sq).None? {
      forall c: Color, k: Kind ensures sq !in b[c][k] {
        OrderCovers(c, k);
      }
    }
  }

  /** The lookup on a square depends only on which masks hold that square. */
  lemma {:induction false} FirstHolderCongruence(b1: Boards, b2: Boards, sq1: int, sq2: int, i: nat)
    requires Complete(b1) && Complete(b2) && i <= |Order|
    requires forall c: Color, k: Kind :: sq1 in b1[c][k] <==> sq2 in b2[c][k]
    ensures FirstHolder(b1, sq1, i) == FirstHolder(b2, sq2, i)
    decreases |Order| - i
  {
    if i < |Order| {
      FirstHolderCongruence(b1, b2, sq1, sq2, i + 1);
    }
  }

  lemma PieceAtCongruence(b1: Boards, b2: Boards, sq1: int, sq2: int)
    requires Complete(b1) && Complete(b2)
    requires forall c: Color, k: Kind :: sq1 in b1[c][k] <==> sq2 in b2[c][k]
    ensures PieceAt(b1, sq1) == PieceAt(b2, sq2)
  {
    FirstHolderCongruence(b1, b2, sq1, sq2, 0);
  }

  /** Two complete mask tables with the same twelve masks are equal. */
  lemma BoardsEqual(b1: Boards, b2: Boards)
    requires Complete(b1) && Complete(b2)
    requires forall c: Color, k: Kind :: b1[c][k] == b2[c][k]
    ensures b1 == b2
  {
    forall c: Color ensures b1[c] == b2[c] {
      assert b1[c].Keys == b2[c].Keys;
    }
    assert b1.Keys == b2.Keys;
  }

  /** One colour's six masks with `sq` removed from each. */
  function ClearedRow(row: map<Kind, set<int>>, sq: int): map<Kind, set<int>> {
    map k | k in row :: row[k] - {sq}
  }

  /** The masks with `sq` removed from all twelve: what `clear_square` does
      to the table. */
  function Cleared(b: Boards, sq: int): (r: Boards)
    requires Complete(b)
    ensures Complete(r)
    ensures forall c: Color, k: Kind :: r[c][k] == b[c][k] - {sq}
  {
    map c | c in b :: ClearedRow(b[c], sq)
  }

  /** The masks after `set_piece(sq, c, k)`: `sq` cleared everywhere, then
      added to the (c, k) mask. */
  function Placed(b: Boards, sq: int, c: Color, k: Kind): (r: Boards)
    requires Complete(b)
    ensures Complete(r)
  {
    var cl := Cleared(b, sq);
    cl[c := cl[c][k := cl[c][k] + {sq}]]
  }

  /** Removing squares from masks keeps a table well formed. */
  lemma WellFormedShrink(b: Boards, r: Boards)
    requires WellFormed(b) && Complete(r)
    requires forall c: Color, k: Kind :: r[c][k] <= b[c][k]
    ensures WellFormed(r)
  {
  }

  /** Clearing a square keeps the table well formed, empties that square and
      leaves what every other square holds as it was. */
  lemma ClearedSpec(b: Boards, sq: int)
    requires WellFormed(b)
    ensures WellFormed(Cleared(b, sq))
    ensures PieceAt(Cleared(b, sq), sq) == None
    ensures forall s :: s != sq ==> PieceAt(Cleared(b, sq), s) == PieceAt(b, s)
  {
    WellFormedShrink(b, Cleared(b, sq));
    ClearedLookup(b, sq);
    forall s | s != sq ensures PieceAt(Cleared(b, sq), s) == PieceAt(b, s) {
      ClearedKeeps(b, sq, s);
    }
  }

  lemma ClearedLookup(b: Boards, sq: int)
    requires Complete(b)
    ensures PieceAt(Cleared(b, sq), sq) == None
  {
    PieceAtSpec(Cleared(b, sq), sq);
  }

  lemma ClearedKeeps(b: Boards, sq: int, s: int)
    requires Complete(b) && s != sq
    ensures PieceAt(Cleared(b, sq), s) == PieceAt(b, s)
  {
    PieceAtCongruence(Cleared(b, sq), b, s, s);
  }

  /** The twelve masks of `Placed`, one by one. */
  lemma PlacedMasks(b: Boards, sq: int, c: Color, k: Kind)
    requires Complete(b)
    ensures forall c': Color, k': Kind ::
      Placed(b, sq, c, k)[c'][k'] == b[c'][k'] - {sq} + (if c' == c && k' == k then {sq} else {})
  {
    var cl := Cleared(b, sq);
    var r := Placed(b, sq, c, k);
    forall c': Color, k': Kind
      ensures r[c'][k'] == b[c'][k'] - {sq} + (if c' == c && k' == k then {sq} else {})
    {
      if c' == c {
        assert r[c'] == cl[c][k := cl[c][k] + {sq}];
      }
    }
  }

  /** After `set_piece(sq, c, k)` the bit `sq` is set in the (c, k) mask and
      clear in the other eleven, every other square's bits are untouched, the
      table stays well formed and the lookup on `sq` answers (c, k). */
  lemma PlacedSpec(b: Boards, sq: int, c: Color, k: Kind)
    requires WellFormed(b) && IsSquare(sq)
    ensures forall c': Color, k': Kind ::
      Placed(b, sq, c, k)[c'][k'] == b[c'][k'] - {sq} + (if c' == c && k' == k then {sq} else {})
    ensures WellFormed(Placed(b, sq, c, k))
    ensures PieceAt(Placed(b, sq, c, k), sq) == Some((c, k))
    ensures forall s :: s != sq ==> PieceAt(Placed(b, sq, c, k), s) == PieceAt(b, s)
  {
    PlacedMasks(b, sq, c, k);
    PlacedWellFormed(b, sq, c, k);
    PieceAtSpec(Placed(b, sq, c, k), sq);
    forall s | s != sq ensures PieceAt(Placed(b, sq, c, k), s) == PieceAt(b, s) {
      PlacedKeeps(b, sq, c, k, s);
    }
  }

  lemma PlacedWellFormed(b: Boards, sq: int, c: Color, k: Kind)
    requires WellFormed(b) && IsSquare(sq)
    ensures WellFormed(Placed(b, sq, c, k))
  {
    var r := Placed(b, sq, c, k);
    PlacedMasks(b, sq, c, k);
    forall c1: Color, k1: Kind, c2: Color, k2: Kind, s | s in r[c1][k1] && s in r[c2][k2]
      ensures c1 == c2 && k1 == k2
    {
      if s != sq {
        assert s in b[c1][k1] && s in b[c2][k2];
      }
    }
  }

  lemma PlacedKeeps(b: Boards, sq: int, c: Color, k: Kind, s: int)
    requires Complete(b) && s != sq
    ensures PieceAt(Placed(b, sq, c, k), s) == PieceAt(b, s)
  {
    PlacedMasks(b, sq, c, k);
    PieceAtCongruence(Placed(b, sq, c, k), b, s, s);
  }

  /** The masks after `move_piece(f, t)`: the (colour, kind) found on `f`
      is cleared there and placed on `t`; nothing changes when `f` is empty. */
  function MovedBoards(b: Boards, f: int, t: int): Boards
    requires Complete(b)
  {
    match PieceAt(b, f)
    case None => b
    case Some((c, k)) => Placed(Cleared(b, f), t, c, k)
  }

  /** After `move_piece(f, t)` with (c, k) on `f`: `t` holds (c, k) whatever
      was there, `f` is empty unless it is `t`, and every other square keeps
      what it held. */
  lemma MovedSpec(b: Boards, f: int, t: int, c: Color, k: Kind)
    requires WellFormed(b) && IsSquare(t) && PieceAt(b, f) == Some((c, k))
    ensures WellFormed(Placed(Cleared(b, f), t, c, k))
    ensures PieceAt(Placed(Cleared(b, f), t, c, k), t) == Some((c, k))
    ensures f != t ==> PieceAt(Placed(Cleared(b, f), t, c, k), f) == None
    ensures forall s :: s != f && s != t ==> PieceAt(Placed(Cleared(b, f), t, c, k), s) == PieceAt(b, s)
  {
    ClearedSpec(b, f);
    PlacedSpec(Cleared(b, f), t, c, k);
  }

  // ---------------------------------------------------------------------------
  // Attack oracle

  /** The squares a colour's pawns attack, by shifting the pawn mask: White by
      7 (pawns off file A) and 9 (pawns off file H), Black by -9 (off file A)
      and -7 (off file H).  Bits shifted below square 0 drop out. */
  function PawnAttackSet(pawns: set<int>, c: Color): set<int> {
    if c == White then
      (set p | p in pawns && p % 8 != 0 :: p + 7) + (set p | p in pawns && p % 8 != 7 :: p + 9)
    else
      (set p | p in pawns && p % 8 != 0 && p >= 9 :: p - 9)
      + (set p | p in pawns && p % 8 != 7 && p >= 7 :: p - 7)
  }

  /** Pawn `p` of colour `c` reaches `sq` through one of the two shifts. */
  predicate PawnShift(p: int, sq: int, c: Color) {
    if c == White then (p % 8 != 0 && sq == p + 7) || (p % 8 != 7 && sq == p + 9)
    else (p % 8 != 0 && p >= 9 && sq == p - 9) || (p % 8 != 7 && p >= 7 && sq == p - 7)
  }

  /** `sq` lies one rank ahead of `p` in colour `c`'s direction, on an
      adjacent file. */
  predicate DiagonallyAhead(p: int, sq: int, c: Color) {
    RankOf(sq) == RankOf(p) + (if c == White then 1 else -1) && Abs(FileOf(sq) - FileOf(p)) == 1
  }

  /** The pawn shift masks respect the board's edges: a square is attacked
      exactly when a pawn stands one rank behind it (in the attacker's
      direction) on an adjacent file. */
  lemma PawnAttackGeometry(pawns: set<int>, c: Color, sq: int)
    requires forall p :: p in pawns ==> IsSquare(p)
    requires IsSquare(sq)
    ensures sq in PawnAttackSet(pawns, c) <==>
      exists p :: p in pawns && RankOf(sq) == RankOf(p) + (if c == White then 1 else -1)
                  && Abs(FileOf(sq) - FileOf(p)) == 1
  {
    if sq in PawnAttackSet(pawns, c) {
      var p :| p in pawns && PawnShift(p, sq, c);
      PawnStep(p, sq, c);
      assert DiagonallyAhead(p, sq, c);
    }
    if exists p :: p in pawns && DiagonallyAhead(p, sq, c) {
      var p :| p in pawns && DiagonallyAhead(p, sq, c);
      PawnStep(p, sq, c);
      assert PawnShift(p, sq, c);
    }
  }

  /** One pawn's shifts are exactly its two forward diagonals. */
  lemma PawnStep(p: int, sq: int, c: Color)
    requires IsSquare(p) && IsSquare(sq)
    ensures PawnShift(p, sq, c) <==> DiagonallyAhead(p, sq, c)
  {
    var f, r := p % 8, p / 8;
    if c == White {
      if 0 < f {
        Coordinates(p + 7, f - 1, r + 1);
      }
      if f < 7 {
        Coordinates(p + 9, f + 1, r + 1);
      }
    } else {
      if 0 < f {
        Coordinates(p - 9, f - 1, r - 1);
      }
      if f < 7 {
        Coordinates(p - 7, f + 1, r - 1);
      }
    }
    if DiagonallyAhead(p, sq, c) {
      Coordinates(sq, sq % 8, sq / 8);
    }
  }

  lemma PawnAttackSetEmpty(c: Color)
    ensures PawnAttackSet({}, c) == {}
  {
  }

  predicate PawnAttacksSquare(b: Boards, sq: int, c: Color)
    requires Complete(b)
  {
    sq in PawnAttackSet(b[c][Pawn], c)
  }

  /** The king attack mask of `sq`, each neighbour guarded against the edge
      it would wrap across. */
  function KingAttacks(sq: int): set<int> {
    (if sq % 8 > 0 then {sq - 1} else {})
    + (if sq % 8 < 7 then {sq + 1} else {})
    + (if sq >= 8 then {sq - 8} else {})
    + (if sq < 56 then {sq + 8} else {})
    + (if sq % 8 > 0 && sq >= 8 then {sq - 9} else {})
    + (if sq % 8 < 7 && sq >= 8 then {sq - 7} else {})
    + (if sq % 8 > 0 && sq < 56 then {sq + 7} else {})
    + (if sq % 8 < 7 && sq < 56 then {sq + 9} else {})
  }

  /** King attacks are exactly the on-board squares at distance one. */
  lemma KingAttacksExact(sq: int, t: int)
    requires IsSquare(sq)
    ensures t in KingAttacks(sq) <==>
      IsSquare(t) && t != sq && Abs(FileOf(t) - FileOf(sq)) <= 1 && Abs(RankOf(t) - RankOf(sq)) <= 1
  {
    if t in KingAttacks(sq) {
      KingAttacksCases(sq, t);
      KingAttacksNeighbours(sq, t);
    }
    if IsSquare(t) && t != sq && Abs(FileOf(t) - FileOf(sq)) <= 1 && Abs(RankOf(t) - RankOf(sq)) <= 1 {
      NeighboursInKingAttacks(sq, t);
    }
  }

  /** The eight guarded offsets of the king mask, one per disjunct. */
  lemma KingAttacksCases(sq: int, t: int)
    requires t in KingAttacks(sq)
    ensures || (sq % 8 > 0 && t == sq - 1) || (sq % 8 < 7 && t == sq + 1)
            || (sq >= 8 && t == sq - 8) || (sq < 56 && t == sq + 8)
            || (sq % 8 > 0 && sq >= 8 && t == sq - 9) || (sq % 8 < 7 && sq >= 8 && t == sq - 7)
            || (sq % 8 > 0 && sq < 56 && t == sq + 7) || (sq % 8 < 7 && sq < 56 && t == sq + 9)
  {
  }

  /** Each guarded offset of the king mask lands on a neighbour. */
  lemma KingAttacksNeighbours(sq: int, t: int)
    requires IsSquare(sq)
    requires || (sq % 8 > 0 && t == sq - 1) || (sq % 8 < 7 && t == sq + 1)
             || (sq >= 8 && t == sq - 8) || (sq < 56 && t == sq + 8)
             || (sq % 8 > 0 && sq >= 8 && t == sq - 9) || (sq % 8 < 7 && sq >= 8 && t == sq - 7)
             || (sq % 8 > 0 && sq < 56 && t == sq + 7) || (sq % 8 < 7 && sq < 56 && t == sq + 9)
    ensures IsSquare(t) && t != sq && Abs(FileOf(t) - FileOf(sq)) <= 1 && Abs(RankOf(t) - RankOf(sq)) <= 1
  {
    var f, r := FileOf(sq), RankOf(sq);
    assert 0 <= f < 8 && 0 <= r < 8 && sq == 8 * r + f;
    var df, dr;
    if f > 0 && t == sq - 1 { df, dr := -1, 0; }
    else if f < 7 && t == sq + 1 { df, dr := 1, 0; }
    else if sq >= 8 && t == sq - 8 { df, dr := 0, -1; }
    else if sq < 56 && t == sq + 8 { df, dr := 0, 1; }
    else if f > 0 && sq >= 8 && t == sq - 9 { df, dr := -1, -1; }
    else if f < 7 && sq >= 8 && t == sq - 7 { df, dr := 1, -1; }
    else if f > 0 && sq < 56 && t == sq + 7 { df, dr := -1, 1; }
    else { df, dr := 1, 1; }
    assert t == sq + 8 * dr + df && OnBoard(f + df, r + dr);
    NeighbourOffset(sq, df, dr);
  }

  /** The square (df, dr) away from `sq`, written as `sq + 8 * dr + df`, is
      a neighbour when it is on the board. */
  lemma NeighbourOffset(sq: int, df: int, dr: int)
    requires IsSquare(sq) && -1 <= df <= 1 && -1 <= dr <= 1 && (df != 0 || dr != 0)
    requires OnBoard(FileOf(sq) + df, RankOf(sq) + dr)
    ensures var t := sq + 8 * dr + df;
      IsSquare(t) && t != sq && Abs(FileOf(t) - FileOf(sq)) <= 1 && Abs(RankOf(t) - RankOf(sq)) <= 1
  {
    Coordinates(sq + 8 * dr + df, FileOf(sq) + df, RankOf(sq) + dr);
  }

  lemma NeighboursInKingAttacks(sq: int, t: int)
    requires IsSquare(sq) && IsSquare(t) && t != sq
    requires Abs(FileOf(t) - FileOf(sq)) <= 1 && Abs(RankOf(t) - RankOf(sq)) <= 1
    ensures t in KingAttacks(sq)
  {
    var f, r := FileOf(sq), RankOf(sq);
    var tf, tr := FileOf(t), RankOf(t);
    assert sq == 8 * r + f && 0 <= f < 8;
    assert t == 8 * tr + tf && 0 <= tf < 8;
    var df, dr := tf - f, tr - r;
    assert t == sq + 8 * dr + df;
    if dr == 0 {
      if df < 0 { assert f > 0 && t == sq - 1; } else { assert f < 7 && t == sq + 1; }
    } else if dr < 0 {
      assert sq >= 8;
      if df < 0 { assert f > 0 && t == sq - 9; }
      else if df == 0 { assert t == sq - 8; }
      else { assert f < 7 && t == sq - 7; }
    } else {
      assert sq < 56;
      if df < 0 { assert f > 0 && t == sq + 7; }
      else if df == 0 { assert t == sq + 8; }
      else { assert f < 7 && t == sq + 9; }
    }
  }

  /** The lowest square at or above `i` in `bb`. */
  function LowestFrom(bb: set<int>, i: int): (r: Option<int>)
    requires 0 <= i <= 64
    decreases 64 - i
    ensures r.Some? ==> r.value in bb && i <= r.value < 64
    ensures forall x :: x in bb && i <= x < 64 ==> r.Some? && r.value <= x
  {
    if i == 64 then None else if i in bb then Some(i) else LowestFrom(bb, i + 1)
  }

  /** The index of the lowest set bit, or None for an empty mask. */
  function BitScanForward(bb: set<int>): (r: Option<int>)
    requires forall x :: x in bb ==> IsSquare(x)
    ensures r.None? <==> bb == {}
    ensures r.Some? ==> r.value in bb && forall x :: x in bb ==> r.value <= x
  {
    if bb != {} then LowestFromNonEmpty(bb); LowestFrom(bb, 0) else None
  }

  lemma LowestFromNonEmpty(bb: set<int>)
    requires forall x :: x in bb ==> IsSquare(x)
    requires bb != {}
    ensures LowestFrom(bb, 0).Some?
  {
    if LowestFrom(bb, 0).None? {
      assert forall x :: x !in bb;
    }
  }

  /** Whether the king of colour `c` attacks `sq`.  Only the lowest square of
      the king mask is looked at. */
  predicate KingAttacksSquare(b: Boards, sq: int, c: Color)
    requires WellFormed(b)
  {
    var kings := b[c][King];
    if kings == {} then false
    else match BitScanForward(kings)
      case None => false
      case Some(ks) => sq in KingAttacks(ks)
  }

  /** The walk of the path test: from (cf, cr), stepping by (fd, rd), it
      succeeds on reaching (tf, tr) and fails on leaving the board or meeting
      an occupied square. */
  function Walk(all: set<int>, cf: int, cr: int, fd: int, rd: int, tf: int, tr: int): bool
    requires -1 <= cf <= 8 && -1 <= cr <= 8 && -1 <= fd <= 1 && -1 <= rd <= 1 && OnBoard(tf, tr)
    requires fd == 0 && rd == 0 ==> cf == tf && cr == tr
    decreases if fd > 0 then 8 - cf else if fd < 0 then cf + 1
              else if rd > 0 then 8 - cr else if rd < 0 then cr + 1 else 0
  {
    if cf == tf && cr == tr then true
    else if !OnBoard(cf, cr) then false
    else if SquareAt(cf, cr) in all then false
    else Walk(all, cf + fd, cr + rd, fd, rd, tf, tr)
  }

  /** Whether every square on the walk from `from` towards `to` is empty. */
  predicate ClearPathBetween(all: set<int>, from: int, to: int)
    requires IsSquare(from) && IsSquare(to)
  {
    SquareCoordinates(from);
    SquareCoordinates(to);
    var fd := Sign(FileOf(to) - FileOf(from));
    var rd := Sign(RankOf(to) - RankOf(from));
    Walk(all, FileOf(from) + fd, RankOf(from) + rd, fd, rd, FileOf(to), RankOf(to))
  }

  /** `a` and `b` are distinct and share a rank, a file or a diagonal. */
  predicate Aligned(a: int, b: int) {
    a != b &&
    (FileOf(a) == FileOf(b) || RankOf(a) == RankOf(b)
     || Abs(FileOf(a) - FileOf(b)) == Abs(RankOf(a) - RankOf(b)))
  }

  /** The number of king steps from `a` to `b` along their common line. */
  function LineDistance(a: int, b: int): int {
    var df, dr := Abs(FileOf(b) - FileOf(a)), Abs(RankOf(b) - RankOf(a));
    if df > dr then df else dr
  }

  /** Every square strictly between aligned `a` and `b` is outside `all`. */
  predicate NothingBetween(all: set<int>, a: int, b: int) {
    var fd := Sign(FileOf(b) - FileOf(a));
    var rd := Sign(RankOf(b) - RankOf(a));
    forall k | 0 < k < LineDistance(a, b) ::
      StepOnBoard(a, fd, rd, k) && StepFrom(a, fd, rd, k) !in all
  }

  /** `a` is a square, (fd, rd) a unit direction, and the point `d` steps
      along from `a` is on the board. */
  predicate Line(a: int, fd: int, rd: int, d: int) {
    IsSquare(a) && -1 <= fd <= 1 && -1 <= rd <= 1 && (fd != 0 || rd != 0)
    && 0 <= d && StepOnBoard(a, fd, rd, d)
  }

  /** (cf, cr) is the point `j` steps along from `a`. */
  predicate At(a: int, fd: int, rd: int, j: int, cf: int, cr: int) {
    cf == FileOf(a) + Scale(fd, j) && cr == RankOf(a) + Scale(rd, j)
  }

  /** Points of a line between two on-board points are on the board. */
  lemma LineOnBoard(a: int, fd: int, rd: int, d: int, k: int)
    requires Line(a, fd, rd, d) && 0 <= k <= d
    ensures StepOnBoard(a, fd, rd, k)
  {
    SquareCoordinates(a);
  }

  /** One step further along the line moves the point by the direction. */
  lemma StepAdvance(a: int, fd: int, rd: int, j: int, cf: int, cr: int)
    requires At(a, fd, rd, j, cf, cr)
    ensures At(a, fd, rd, j + 1, cf + fd, cr + rd)
  {
    assert Scale(fd, j + 1) == Scale(fd, j) + fd;
    assert Scale(rd, j + 1) == Scale(rd, j) + rd;
  }

  /** A point short of the far end of a line is a different point. */
  lemma StepShort(a: int, fd: int, rd: int, d: int, j: int, cf: int, cr: int, tf: int, tr: int)
    requires Line(a, fd, rd, d) && 0 <= j < d
    requires At(a, fd, rd, j, cf, cr) && At(a, fd, rd, d, tf, tr)
    ensures cf != tf || cr != tr
  {
    assert Scale(fd, j) != Scale(fd, d) || Scale(rd, j) != Scale(rd, d);
  }

  /** The point `j` steps along, when on the board, is the square StepFrom names. */
  lemma StepPoint(a: int, fd: int, rd: int, j: int, cf: int, cr: int)
    requires IsSquare(a) && StepOnBoard(a, fd, rd, j) && At(a, fd, rd, j, cf, cr)
    ensures OnBoard(cf, cr) && SquareAt(cf, cr) == StepFrom(a, fd, rd, j)
  {
  }

  /** One step of the walk along the line from `a`: short of the target
      (tf, tr), `d` steps along, the walk at (cf, cr), `j` steps along,
      succeeds iff square `j` is empty and the walk one step further
      succeeds. */
  lemma WalkStep(all: set<int>, a: int, fd: int, rd: int, d: int, j: int, cf: int, cr: int, tf: int, tr: int)
    requires Line(a, fd, rd, d) && 0 <= j < d
    requires At(a, fd, rd, j, cf, cr) && At(a, fd, rd, d, tf, tr)
    ensures StepOnBoard(a, fd, rd, j) && At(a, fd, rd, j + 1, cf + fd, cr + rd)
    ensures Walk(all, cf, cr, fd, rd, tf, tr)
        == (StepFrom(a, fd, rd, j) !in all && Walk(all, cf + fd, cr + rd, fd, rd, tf, tr))
  {
    LineOnBoard(a, fd, rd, d, j);
    LineOnBoard(a, fd, rd, d, j + 1);
    StepAdvance(a, fd, rd, j, cf, cr);
    StepShort(a, fd, rd, d, j, cf, cr, tf, tr);
    StepPoint(a, fd, rd, j, cf, cr);
  }

  /** The walk started at (cf, cr), `j` steps along the line from `a`,
      reaches (tf, tr), `d` steps along, iff the squares j .. d-1 steps along
      are all empty. */
  lemma {:induction false} WalkFrom(all: set<int>, a: int, fd: int, rd: int, d: int, j: int, cf: int, cr: int, tf: int, tr: int)
    requires Line(a, fd, rd, d) && 0 <= j <= d
    requires At(a, fd, rd, j, cf, cr) && At(a, fd, rd, d, tf, tr)
    ensures Walk(all, cf, cr, fd, rd, tf, tr) <==> EmptySteps(all, a, fd, rd, j, d)
    decreases d - j
  {
    if j < d {
      WalkStep(all, a, fd, rd, d, j, cf, cr, tf, tr);
      WalkFrom(all, a, fd, rd, d, j + 1, cf + fd, cr + rd, tf, tr);
      EmptyStepsSplit(all, a, fd, rd, d, j);
    }
  }

  /** Every square j .. d-1 steps along the line from `a` is on the board
      and empty. */
  predicate EmptySteps(all: set<int>, a: int, fd: int, rd: int, j: int, d: int) {
    forall k | j <= k < d :: StepOnBoard(a, fd, rd, k) && StepFrom(a, fd, rd, k) !in all
  }

  /** The steps j .. d-1 are empty iff step j is and steps j+1 .. d-1 are. */
  lemma EmptyStepsSplit(all: set<int>, a: int, fd: int, rd: int, d: int, j: int)
    requires j < d && StepOnBoard(a, fd, rd, j)
    ensures EmptySteps(all, a, fd, rd, j, d) <==>
      StepFrom(a, fd, rd, j) !in all && EmptySteps(all, a, fd, rd, j + 1, d)
  {
  }

  /** For squares on a common line, the path test succeeds iff every square
      strictly between them is empty; adjacent squares always pass. */
  lemma ClearPathIff(all: set<int>, a: int, b: int)
    requires IsSquare(a) && IsSquare(b) && Aligned(a, b)
    ensures ClearPathBetween(all, a, b) <==> NothingBetween(all, a, b)
    ensures LineDistance(a, b) == 1 ==> ClearPathBetween(all, a, b)
  {
    AlignedWalk(all, a, b);
    ClearPathWalk(all, a, b);
    NothingBetweenSteps(all, a, b);
  }

  /** Between aligned squares, the walk from one step along reaches `b` iff
      every step short of `b` is on the board and empty. */
  lemma AlignedWalk(all: set<int>, a: int, b: int)
    requires IsSquare(a) && IsSquare(b) && Aligned(a, b)
    ensures var fd, rd := Sign(FileOf(b) - FileOf(a)), Sign(RankOf(b) - RankOf(a));
      Walk(all, FileOf(a) + fd, RankOf(a) + rd, fd, rd, FileOf(b), RankOf(b)) <==>
      EmptySteps(all, a, fd, rd, 1, LineDistance(a, b))
  {
    AlignedSteps(a, b);
    WalkFrom(all, a, Sign(FileOf(b) - FileOf(a)), Sign(RankOf(b) - RankOf(a)), LineDistance(a, b), 1,
             FileOf(a) + Sign(FileOf(b) - FileOf(a)), RankOf(a) + Sign(RankOf(b) - RankOf(a)), FileOf(b), RankOf(b));
  }

  /** The path test is the walk from one step along towards `b`. */
  lemma ClearPathWalk(all: set<int>, a: int, b: int)
    requires IsSquare(a) && IsSquare(b)
    ensures var fd, rd := Sign(FileOf(b) - FileOf(a)), Sign(RankOf(b) - RankOf(a));
      ClearPathBetween(all, a, b) == Walk(all, FileOf(a) + fd, RankOf(a) + rd, fd, rd, FileOf(b), RankOf(b))
  {
  }

  /** Nothing between `a` and `b` means every step from 1 short of the
      distance is on the board and empty. */
  lemma NothingBetweenSteps(all: set<int>, a: int, b: int)
    ensures var fd, rd := Sign(FileOf(b) - FileOf(a)), Sign(RankOf(b) - RankOf(a));
      NothingBetween(all, a, b) <==> EmptySteps(all, a, fd, rd, 1, LineDistance(a, b))
  {
  }

  /** Aligned squares: `b` is `a` moved LineDistance steps in the sign
      direction, which is not the null direction. */
  lemma AlignedSteps(a: int, b: int)
    requires IsSquare(a) && IsSquare(b) && Aligned(a, b)
    ensures var fd, rd := Sign(FileOf(b) - FileOf(a)), Sign(RankOf(b) - RankOf(a));
      && Line(a, fd, rd, LineDistance(a, b)) && 1 <= LineDistance(a, b)
      && At(a, fd, rd, 1, FileOf(a) + fd, RankOf(a) + rd)
      && At(a, fd, rd, LineDistance(a, b), FileOf(b), RankOf(b))
  {
    SquareCoordinates(a);
    SquareCoordinates(b);
  }

  /** Whether a rook of colour `c` on `sq`'s rank or file has a clear path to
      it.  The rank is scanned before the file, as in the engine. */
  predicate RookAttacksSquare(b: Boards, all: set<int>, sq: int, c: Color)
    requires Complete(b) && IsSquare(sq)
  {
    var rooks := b[c][Rook];
    rooks != {} &&
    ((exists i | 0 <= i < 8 ::
        i != FileOf(sq) && SquareAt(i, RankOf(sq)) in rooks
        && ClearPathBetween(all, SquareAt(i, RankOf(sq)), sq))
     || (exists i | 0 <= i < 8 ::
        i != RankOf(sq) && SquareAt(FileOf(sq), i) in rooks
        && ClearPathBetween(all, SquareAt(FileOf(sq), i), sq)))
  }

  /** Whether a bishop of colour `c` on one of `sq`'s diagonals has a clear
      path to it.  The engine walks each diagonal outwards and stops at the
      edge; a step past the edge stays past it, so testing every on-board step
      is the same test. */
  predicate BishopAttacksSquare(b: Boards, all: set<int>, sq: int, c: Color)
    requires Complete(b) && IsSquare(sq)
  {
    var bishops := b[c][Bishop];
    bishops != {} &&
    exists fd, rd, i | fd in {-1, 1} && rd in {-1, 1} && 1 <= i < 8 ::
      StepOnBoard(sq, fd, rd, i) && StepFrom(sq, fd, rd, i) in bishops
      && ClearPathBetween(all, StepFrom(sq, fd, rd, i), sq)
  }

  /** The engine's queen test: when colour `c` has any queen, it repeats the
      rook and bishop tests, which look at rook and bishop squares.  Queen
      squares themselves are never examined. */
  function QueenAttacksSquare(b: Boards, all: set<int>, sq: int, c: Color): (r: bool)
    requires Complete(b) && IsSquare(sq)
    ensures r ==> RookAttacksSquare(b, all, sq, c) || BishopAttacksSquare(b, all, sq, c)
    ensures b[c][Queen] == {} ==> !r
  {
    b[c][Queen] != {} && (RookAttacksSquare(b, all, sq, c) || BishopAttacksSquare(b, all, sq, c))
  }

  /** Whether a knight of colour `c` stands a knight's jump from `sq`. */
  predicate KnightAttacksSquare(b: Boards, sq: int, c: Color)
    requires Complete(b) && IsSquare(sq)
  {
    var knights := b[c][Knight];
    knights != {} &&
    exists j | 0 <= j < |KnightOffsets| ::
      StepOnBoard(sq, KnightOffsets[j].0, KnightOffsets[j].1, 1)
      && StepFrom(sq, KnightOffsets[j].0, KnightOffsets[j].1, 1) in knights
  }

  // The attackers of a square as board geometry, independent of how the
  // engine's tests look for them.

  /** A pawn of colour `c` stands diagonally behind `sq` in its own direction. */
  ghost predicate PawnInReach(b: Boards, sq: int, c: Color)
    requires Complete(b)
  {
    exists p :: p in b[c][Pawn] && DiagonallyAhead(p, sq, c)
  }

  /** A rook of colour `c` shares `sq`'s rank or file with nothing between. */
  ghost predicate RookInView(b: Boards, all: set<int>, sq: int, c: Color)
    requires Complete(b)
  {
    exists r :: r in b[c][Rook] && r != sq && (FileOf(r) == FileOf(sq) || RankOf(r) == RankOf(sq))
                && NothingBetween(all, r, sq)
  }

  /** A bishop of colour `c` shares a diagonal with `sq` with nothing between. */
  ghost predicate BishopInView(b: Boards, all: set<int>, sq: int, c: Color)
    requires Complete(b)
  {
    exists r :: r in b[c][Bishop] && r != sq && Abs(FileOf(r) - FileOf(sq)) == Abs(RankOf(r) - RankOf(sq))
                && NothingBetween(all, r, sq)
  }

  /** A knight of colour `c` stands a knight's jump from `sq`. */
  ghost predicate KnightInReach(b: Boards, sq: int, c: Color)
    requires Complete(b)
  {
    exists n :: n in b[c][Knight] && KnightJump(sq, n)
  }

  /** The lowest square of colour `c`'s king mask is a neighbour of `sq`. */
  ghost predicate LowestKingAdjacent(b: Boards, sq: int, c: Color)
    requires Complete(b)
  {
    exists k :: k in b[c][King] && (forall x :: x in b[c][King] ==> k <= x)
                && k != sq && Abs(FileOf(k) - FileOf(sq)) <= 1 && Abs(RankOf(k) - RankOf(sq)) <= 1
  }

  /** The rook scan finds exactly the rooks of colour `c` that share `sq`'s
      rank or file with nothing between them and `sq`. */
  lemma RookAttacksExact(b: Boards, all: set<int>, sq: int, c: Color)
    requires WellFormed(b) && IsSquare(sq)
    ensures RookAttacksSquare(b, all, sq, c) <==> RookInView(b, all, sq, c)
  {
    if RookAttacksSquare(b, all, sq, c) {
      RookScanSound(b, all, sq, c);
    }
    if RookInView(b, all, sq, c) {
      var r :| r in b[c][Rook] && r != sq && (FileOf(r) == FileOf(sq) || RankOf(r) == RankOf(sq))
               && NothingBetween(all, r, sq);
      RookScanComplete(b, all, sq, c, r);
    }
  }

  lemma RookScanSound(b: Boards, all: set<int>, sq: int, c: Color)
    requires WellFormed(b) && IsSquare(sq) && RookAttacksSquare(b, all, sq, c)
    ensures exists r :: r in b[c][Rook] && r != sq && (FileOf(r) == FileOf(sq) || RankOf(r) == RankOf(sq))
                        && NothingBetween(all, r, sq)
  {
    var rooks := b[c][Rook];
    if exists i | 0 <= i < 8 :: i != FileOf(sq) && SquareAt(i, RankOf(sq)) in rooks
                              && ClearPathBetween(all, SquareAt(i, RankOf(sq)), sq) {
      var i :| 0 <= i < 8 && i != FileOf(sq) && SquareAt(i, RankOf(sq)) in rooks
               && ClearPathBetween(all, SquareAt(i, RankOf(sq)), sq);
      var r := SquareAt(i, RankOf(sq));
      ClearPathIff(all, r, sq);
    } else {
      var i :| 0 <= i < 8 && i != RankOf(sq) && SquareAt(FileOf(sq), i) in rooks
               && ClearPathBetween(all, SquareAt(FileOf(sq), i), sq);
      var r := SquareAt(FileOf(sq), i);
      ClearPathIff(all, r, sq);
    }
  }

  lemma RookScanComplete(b: Boards, all: set<int>, sq: int, c: Color, r: int)
    requires WellFormed(b) && IsSquare(sq)
    requires r in b[c][Rook] && r != sq && (FileOf(r) == FileOf(sq) || RankOf(r) == RankOf(sq))
    requires NothingBetween(all, r, sq)
    ensures RookAttacksSquare(b, all, sq, c)
  {
    SquareCoordinates(r);
    SquareCoordinates(sq);
    ClearPathIff(all, r, sq);
    if RankOf(r) == RankOf(sq) {
      assert SquareAt(FileOf(r), RankOf(sq)) == r;
    } else {
      assert SquareAt(FileOf(sq), RankOf(r)) == r;
    }
  }

  /** The bishop scan finds exactly the bishops of colour `c` on one of
      `sq`'s diagonals with nothing between them and `sq`. */
  lemma BishopAttacksExact(b: Boards, all: set<int>, sq: int, c: Color)
    requires WellFormed(b) && IsSquare(sq)
    ensures BishopAttacksSquare(b, all, sq, c) <==> BishopInView(b, all, sq, c)
  {
    if BishopAttacksSquare(b, all, sq, c) {
      BishopScanSound(b, all, sq, c);
    }
    if BishopInView(b, all, sq, c) {
      var r :| r in b[c][Bishop] && r != sq && Abs(FileOf(r) - FileOf(sq)) == Abs(RankOf(r) - RankOf(sq))
               && NothingBetween(all, r, sq);
      BishopScanComplete(b, all, sq, c, r);
    }
  }

  lemma BishopScanSound(b: Boards, all: set<int>, sq: int, c: Color)
    requires WellFormed(b) && IsSquare(sq) && BishopAttacksSquare(b, all, sq, c)
    ensures exists r :: r in b[c][Bishop] && r != sq && Abs(FileOf(r) - FileOf(sq)) == Abs(RankOf(r) - RankOf(sq))
                        && NothingBetween(all, r, sq)
  {
    var fd, rd, i :| fd in {-1, 1} && rd in {-1, 1} && 1 <= i < 8
      && StepOnBoard(sq, fd, rd, i) && StepFrom(sq, fd, rd, i) in b[c][Bishop]
      && ClearPathBetween(all, StepFrom(sq, fd, rd, i), sq);
    var r := StepFrom(sq, fd, rd, i);
    SquareCoordinates(sq);
    assert FileOf(r) - FileOf(sq) == Scale(fd, i) && RankOf(r) - RankOf(sq) == Scale(rd, i);
    ClearPathIff(all, r, sq);
  }

  lemma BishopScanComplete(b: Boards, all: set<int>, sq: int, c: Color, r: int)
    requires WellFormed(b) && IsSquare(sq)
    requires r in b[c][Bishop] && r != sq && Abs(FileOf(r) - FileOf(sq)) == Abs(RankOf(r) - RankOf(sq))
    requires NothingBetween(all, r, sq)
    ensures BishopAttacksSquare(b, all, sq, c)
  {
    SquareCoordinates(r);
    SquareCoordinates(sq);
    var fd, rd := Sign(FileOf(r) - FileOf(sq)), Sign(RankOf(r) - RankOf(sq));
    var i := Abs(FileOf(r) - FileOf(sq));
    assert 1 <= i < 8;
    assert FileOf(sq) + Scale(fd, i) == FileOf(r) && RankOf(sq) + Scale(rd, i) == RankOf(r);
    assert StepFrom(sq, fd, rd, i) == r;
    ClearPathIff(all, r, sq);
  }

  /** The knight test holds exactly when a knight of colour `c` stands a
      knight's jump from `sq`. */
  lemma KnightAttacksExact(b: Boards, sq: int, c: Color)
    requires WellFormed(b) && IsSquare(sq)
    ensures KnightAttacksSquare(b, sq, c) <==> KnightInReach(b, sq, c)
  {
    if KnightAttacksSquare(b, sq, c) {
      KnightScanSound(b, sq, c);
    }
    if KnightInReach(b, sq, c) {
      var n :| n in b[c][Knight] && KnightJump(sq, n);
      KnightScanComplete(b, sq, c, n);
    }
  }

  lemma KnightScanSound(b: Boards, sq: int, c: Color)
    requires WellFormed(b) && IsSquare(sq) && KnightAttacksSquare(b, sq, c)
    ensures exists n :: n in b[c][Knight] && KnightJump(sq, n)
  {
    var j :| 0 <= j < |KnightOffsets| && StepOnBoard(sq, KnightOffsets[j].0, KnightOffsets[j].1, 1)
      && StepFrom(sq, KnightOffsets[j].0, KnightOffsets[j].1, 1) in b[c][Knight];
    var (df, dr) := KnightOffsets[j];
    OffsetStep(sq, df, dr);
    assert KnightJump(sq, StepFrom(sq, df, dr, 1));
  }

  lemma KnightScanComplete(b: Boards, sq: int, c: Color, n: int)
    requires WellFormed(b) && IsSquare(sq) && n in b[c][Knight] && KnightJump(sq, n)
    ensures KnightAttacksSquare(b, sq, c)
  {
    NeighbourStep(sq, n);
    var j := KnightOffsetIndex(FileOf(n) - FileOf(sq), RankOf(n) - RankOf(sq));
    assert StepFrom(sq, KnightOffsets[j].0, KnightOffsets[j].1, 1) == n;
  }

  /** The king test holds exactly when the lowest square of colour `c`'s king
      mask is a neighbour of `sq`; kings on higher squares are not looked at. */
  lemma KingAttacksSquareExact(b: Boards, sq: int, c: Color)
    requires WellFormed(b) && IsSquare(sq)
    ensures KingAttacksSquare(b, sq, c) <==> LowestKingAdjacent(b, sq, c)
  {
    var kings := b[c][King];
    if kings != {} {
      var k := BitScanForward(kings).value;
      KingAttacksExact(k, sq);
      forall k' | k' in kings && (forall x :: x in kings ==> k' <= x) ensures k' == k {
      }
    }
  }

  /** The bitboard's attack oracle: pawn, rook, bishop, queen, knight, king. */
  predicate SquareUnderAttack(b: Boards, all: set<int>, sq: int, c: Color)
    requires WellFormed(b) && IsSquare(sq)
  {
    || PawnAttacksSquare(b, sq, c)
    || RookAttacksSquare(b, all, sq, c)
    || BishopAttacksSquare(b, all, sq, c)
    || QueenAttacksSquare(b, all, sq, c)
    || KnightAttacksSquare(b, sq, c)
    || KingAttacksSquare(b, sq, c)
  }

  /** The first square at or after `i` that the lookup reports as colour
      `c`'s king. */
  function FirstKingSquare(b: Boards, c: Color, i: nat): (r: Option<int>)
    requires Complete(b) && i <= 64
    decreases 64 - i
    ensures r.Some? ==> i <= r.value < 64 && PieceAt(b, r.value) == Some((c, King))
  {
    if i == 64 then None
    else if PieceAt(b, i) == Some((c, King)) then Some(i)
    else FirstKingSquare(b, c, i + 1)
  }

  /** The oracle holds exactly when some attacker of colour `c` is placed to
      reach `sq`: a pawn diagonally behind it, a rook or bishop in view, a
      knight a jump away, or the lowest king next to it.  The queen test
      adds nothing of its own, so a queen alone never attacks. */
  lemma SquareUnderAttackExact(b: Boards, all: set<int>, sq: int, c: Color)
    requires WellFormed(b) && IsSquare(sq)
    ensures SquareUnderAttack(b, all, sq, c) <==>
      || PawnInReach(b, sq, c)
      || RookInView(b, all, sq, c)
      || BishopInView(b, all, sq, c)
      || KnightInReach(b, sq, c)
      || LowestKingAdjacent(b, sq, c)
  {
    PawnAttackGeometry(b[c][Pawn], c, sq);
    RookAttacksExact(b, all, sq, c);
    BishopAttacksExact(b, all, sq, c);
    KnightAttacksExact(b, sq, c);
    KingAttacksSquareExact(b, sq, c);
  }

  /** The bitboard's check test: the lowest square holding colour `c`'s king
      is attacked by the other colour; no king means no check. */
  function KingInCheck(b: Boards, all: set<int>, c: Color): (r: bool)
    requires WellFormed(b)
    ensures b[c][King] == {} ==> !r
  {
    match FirstKingSquare(b, c, 0)
    case None => false
    case Some(k) => SquareUnderAttack(b, all, k, Opponent(c))
  }

  /** The check test looks at the lowest king square only: it holds exactly
      when colour `c` has a king and the lowest set bit of its king mask,
      the square the king attack test scans for, is attacked by the other
      colour. */
  lemma KingInCheckExact(b: Boards, all: set<int>, c: Color)
    requires WellFormed(b)
    ensures KingInCheck(b, all, c) <==>
      b[c][King] != {} && SquareUnderAttack(b, all, BitScanForward(b[c][King]).value, Opponent(c))
  {
    var kings := b[c][King];
    FirstKingSquareLowest(b, c, 0);
    if kings == {} {
      assert LowestFrom(kings, 0).None?;
    } else {
      assert LowestFrom(kings, 0) == BitScanForward(kings);
    }
  }

  /** Under well-formed masks the square-by-square king search finds the
      lowest square of the king mask at or above `i`. */
  lemma {:induction false} FirstKingSquareLowest(b: Boards, c: Color, i: nat)
    requires WellFormed(b) && i <= 64
    decreases 64 - i
    ensures FirstKingSquare(b, c, i) == LowestFrom(b[c][King], i)
  {
    if i < 64 {
      KingLookup(b, i, c);
      FirstKingSquareLowest(b, c, i + 1);
    }
  }

  /** On well-formed masks the lookup reports colour `c`'s king exactly on
      the squares of its king mask. */
  lemma KingLookup(b: Boards, j: int, c: Color)
    requires WellFormed(b)
    ensures PieceAt(b, j) == Some((c, King)) <==> j in b[c][King]
  {
    PieceAtSpec(b, j);
  }


  /** A lone white queen on d1 (square 3). */
  const LoneQueen: Boards := EmptyBoards[White := NoPieces[Queen := {3}]]

  lemma LoneQueenWellFormed()
    ensures WellFormed(LoneQueen)
    ensures forall k: Kind :: k != Queen ==> LoneQueen[White][k] == {}
  {
    var b := LoneQueen;
    NoPiecesComplete();
    EmptyBoardsWellFormed();
    CompleteByCases(b);
    forall c: Color, k: Kind ensures b[c][k] == if c == White && k == Queen then {3} else {} {
      if c == Black {
        assert b[c] == EmptyBoards[Black];
      } else if k != Queen {
        assert b[c][k] == NoPieces[k];
      }
    }
  }

  /** The queen test never looks at queen squares: a lone white queen on d1
      (square 3) does not attack d2 (square 11) by this oracle. */
  lemma QueenSquaresIgnored()
    ensures WellFormed(LoneQueen) && !SquareUnderAttack(LoneQueen, {3}, 11, White)
  {
    LoneQueenWellFormed();
    PawnAttackSetEmpty(White);
    assert !RookAttacksSquare(LoneQueen, {3}, 11, White) && !BishopAttacksSquare(LoneQueen, {3}, 11, White);
  }

  // ---------------------------------------------------------------------------
  // The position store

  /** The engine's position store: twelve masks, the combined masks derived
      from them, and the castling, en-passant and move-counter fields kept
      beside them. */
  class Bitboard {
    var boards: Boards
    var whitePieces: set<int>
    var blackPieces: set<int>
    var allPieces: set<int>
    var castlingRights: set<CastlingRight>
    var enPassantTarget: Option<int>
    var halfmoveClock: int
    var fullmoveNumber: int

    /** The masks are well formed and the combined masks are the OR of them. */
    ghost predicate Valid()
      reads this
    {
      && WellFormed(boards)
      && whitePieces == ColorMask(boards, White)
      && blackPieces == ColorMask(boards, Black)
      && allPieces == whitePieces + blackPieces
    }

    /** All masks zero, no castling rights, no en-passant target, counters 0 and 1. */
    constructor()
      ensures Valid() && boards == EmptyBoards && allPieces == {}
      ensures castlingRights == {} && enPassantTarget == None
      ensures halfmoveClock == 0 && fullmoveNumber == 1
    {
      boards := EmptyBoards;
      whitePieces, blackPieces, allPieces := {}, {}, {};
      castlingRights := {};
      enPassantTarget := None;
      halfmoveClock, fullmoveNumber := 0, 1;
      EmptyBoardsWellFormed();
      forall c: Color, s ensures s !in ColorMask(EmptyBoards, c) {
        ColorMaskMembership(EmptyBoards, c, s);
      }
    }

    /** Loads the standard starting position and grants all four castling
        rights. */
    method SetInitialPosition()
      modifies this
      ensures Valid() && boards == InitialBoards && castlingRights == AllCastlingRights
      ensures enPassantTarget == old(enPassantTarget)
      ensures halfmoveClock == old(halfmoveClock) && fullmoveNumber == old(fullmoveNumber)
    {
      boards := InitialBoards;
      InitialBoardsWellFormed();
      UpdateCombinedBoards();
      castlingRights := AllCastlingRights;
    }

    /** Recomputes the white, black and all-pieces masks from the twelve. */
    method UpdateCombinedBoards()
      requires WellFormed(boards)
      modifies this`whitePieces, this`blackPieces, this`allPieces
      ensures Valid()
    {
      whitePieces, blackPieces := {}, {};
      for i := 0 to |Kinds|
        invariant whitePieces == UnionOfKinds(boards, White, i)
        invariant blackPieces == UnionOfKinds(boards, Black, i)
      {
        whitePieces := whitePieces + boards[White][Kinds[i]];
        blackPieces := blackPieces + boards[Black][Kinds[i]];
      }
      allPieces := whitePieces + blackPieces;
    }

    /** The first (colour, kind) in WHITE/BLACK x PAWN..KING order whose mask
        holds `sq`, or None. */
    method GetPieceAtSquare(sq: int) returns (r: Option<(Color, Kind)>)
      requires Valid()
      ensures r == PieceAt(boards, sq)
    {
      for ci := 0 to |Colors|
        invariant PieceAt(boards, sq) == FirstHolder(boards, sq, ci * |Kinds|)
      {
        for ki := 0 to |Kinds|
          invariant PieceAt(boards, sq) == FirstHolder(boards, sq, ci * |Kinds| + ki)
        {
          OrderAt(ci, ki);
          var c, k := Colors[ci], Kinds[ki];
          if sq in boards[c][k] {
            return Some((c, k));
          }
        }
      }
      return None;
    }

    /** Clears `sq` in all twelve masks and recomputes the combined masks. */
    method ClearSquare(sq: int)
      requires Valid()
      modifies this`boards, this`whitePieces, this`blackPieces, this`allPieces
      ensures Valid() && boards == Cleared(old(boards), sq)
    {
      ClearedSpec(boards, sq);
      boards := ClearEverywhere(boards, sq);
      UpdateCombinedBoards();
    }

    /** The colour-by-colour loop of `clear_square` over the mask table. */
    static method ClearEverywhere(b: Boards, sq: int) returns (table: Boards)
      requires Complete(b)
      ensures table == Cleared(b, sq)
    {
      table := b;
      for ci := 0 to |Colors|
        invariant table.Keys == b.Keys
        invariant forall c: Color :: (c in table &&
          table[c] == if ColorIndex(c) < ci then ClearedRow(b[c], sq) else b[c])
      {
        var c := Colors[ci];
        ColorAt(ci);
        var masks := ClearRow(table[c], sq);
        table := table[c := masks];
      }
    }

    /** The kind-by-kind inner loop of `clear_square` over one colour's masks. */
    static method ClearRow(row: map<Kind, set<int>>, sq: int) returns (masks: map<Kind, set<int>>)
      requires forall k: Kind :: k in row
      ensures masks == ClearedRow(row, sq)
    {
      masks := row;
      for ki := 0 to |Kinds|
        invariant masks.Keys == row.Keys
        invariant forall k: Kind :: (k in masks &&
          masks[k] == if KindIndex(k) < ki then row[k] - {sq} else row[k])
      {
        var k := Kinds[ki];
        KindAt(ki);
        masks := masks[k := masks[k] - {sq}];
      }
    }

    /** Clears `sq`, then sets it in the (c, k) mask. */
    method SetPiece(sq: int, c: Color, k: Kind)
      requires Valid() && IsSquare(sq)
      modifies this`boards, this`whitePieces, this`blackPieces, this`allPieces
      ensures Valid() && boards == Placed(old(boards), sq, c, k)
    {
      ClearSquare(sq);
      var table := boards;
      table := table[c := table[c][k := table[c][k] + {sq}]];
      assert table == Placed(old(boards), sq, c, k);
      PlacedWellFormed(old(boards), sq, c, k);
      boards := table;
      UpdateCombinedBoards();
    }

    /** Moves whatever stands on `from` to `to`, replacing any occupant;
        reports whether `from` held a piece, and changes nothing if not. */
    method MovePiece(from: int, to: int) returns (moved: bool)
      requires Valid() && IsSquare(to)
      modifies this`boards, this`whitePieces, this`blackPieces, this`allPieces
      ensures Valid()
      ensures moved <==> PieceAt(old(boards), from).Some?
      ensures boards == MovedBoards(old(boards), from, to)
    {
      var piece := GetPieceAtSquare(from);
      if piece.Some? {
        var (c, k) := piece.value;
        ClearSquare(from);
        SetPiece(to, c, k);
        return true;
      }
      return false;
    }

    /** Whether any piece stands on `sq`. */
    function IsSquareOccupied(sq: int): (r: bool)
      reads this
      requires Valid()
      ensures r <==> PieceAt(boards, sq).Some?
    {
      PieceAtSpec(boards, sq);
      ColorMaskMembership(boards, White, sq);
      ColorMaskMembership(boards, Black, sq);
      sq in allPieces
    }

    /** Whether a piece of colour `c` stands on `sq`. */
    function IsSquareOccupiedByColor(sq: int, c: Color): (r: bool)
      reads this
      requires Valid()
      ensures r <==> PieceAt(boards, sq).Some? && PieceAt(boards, sq).value.0 == c
    {
      PieceAtSpec(boards, sq);
      ColorMaskMembership(boards, c, sq);
      sq in (if c == White then whitePieces else blackPieces)
    }

    /** Scans the squares upwards for colour `c`'s king and asks the attack
        oracle whether the other colour attacks the first one found. */
    method IsKingInCheck(c: Color) returns (r: bool)
      requires Valid()
      ensures r == KingInCheck(boards, allPieces, c)
    {
      var kingSquare: Option<int> := None;
      var sq := 0;
      while sq < 64 && kingSquare.None?
        invariant 0 <= sq <= 64
        invariant kingSquare.None? ==> FirstKingSquare(boards, c, 0) == FirstKingSquare(boards, c, sq)
        invariant kingSquare.Some? ==> kingSquare == FirstKingSquare(boards, c, 0)
        decreases 64 - sq, if kingSquare.None? then 1 else 0
      {
        var piece := GetPieceAtSquare(sq);
        if piece == Some((c, King)) {
          kingSquare := Some(sq);
        } else {
          sq := sq + 1;
        }
      }
      if kingSquare.None? {
        return false;
      }
      return SquareUnderAttack(boards, allPieces, kingSquare.value, Opponent(c));
    }

    /** A new store with the same masks, rights, target and counters. */
    method Copy() returns (r: Bitboard)
      requires Valid()
      ensures fresh(r) && r.Valid()
      ensures r.boards == boards && r.allPieces == allPieces
      ensures r.castlingRights == castlingRights && r.enPassantTarget == enPassantTarget
      ensures r.halfmoveClock == halfmoveClock && r.fullmoveNumber == fullmoveNumber
    {
      r := new Bitboard();
      r.boards := boards;
      r.whitePieces := whitePieces;
      r.blackPieces := blackPieces;
      r.allPieces := allPieces;
      r.castlingRights := castlingRights;
      r.enPassantTarget := enPassantTarget;
      r.halfmoveClock := halfmoveClock;
      r.fullmoveNumber := fullmoveNumber;
    }
  }
}
