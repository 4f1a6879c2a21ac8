/** The game record: the notations in the order they were played, each with
    the colour that played it, grouped into numbered (White, Black) pairs and
    written out as a PGN-style move list. */
module MoveHistories {
  import opened ChessTypes

  /** One recorded move: its notation and the colour that played it. */
  type Entry = (string, Color)

  /** A numbered move: the White notation and the Black notation, either of
      which may be missing. */
  type Pair = (Option<string>, Option<string>)

  // ---------------------------------------------------------------------------
  // Filtering by colour

  /** The notations of `moves` played by `c`, in the order they were played. */
  function MovesForColor(moves: seq<Entry>, c: Color): (r: seq<string>)
    ensures |r| <= |moves|
  {
    if moves == [] then []
    else
      var n := |moves| - 1;
      MovesForColor(moves[..n], c) + (if moves[n].1 == c then [moves[n].0] else [])
  }

  /** A notation is kept exactly when `c` played it somewhere in the record. */
  lemma {:induction false} MovesForColorMembership(moves: seq<Entry>, c: Color)
    ensures forall m :: m in MovesForColor(moves, c) <==> (m, c) in moves
  {
    if moves != [] {
      var n := |moves| - 1;
      MovesForColorMembership(moves[..n], c);
      assert moves == moves[..n] + [moves[n]];
    }
  }

  /** Filtering keeps the order: the filtered record of a concatenation is the
      concatenation of the filtered records. */
  lemma {:induction false} MovesForColorAppend(a: seq<Entry>, b: seq<Entry>, c: Color)
    ensures MovesForColor(a + b, c) == MovesForColor(a, c) + MovesForColor(b, c)
    decreases |b|
  {
    if b == [] {
      assert a + b == a;
    } else {
      var n := |b| - 1;
      assert (a + b)[..|a| + n] == a + b[..n];
      MovesForColorAppend(a, b[..n], c);
    }
  }

  /** Together the two colours' lists hold every entry once. */
  lemma {:induction false} MovesForColorSplit(moves: seq<Entry>)
    ensures |MovesForColor(moves, White)| + |MovesForColor(moves, Black)| == |moves|
  {
    if moves != [] {
      MovesForColorSplit(moves[..|moves| - 1]);
    }
  }

  // ---------------------------------------------------------------------------
  // Pairing

  /** The pairs the record from here on produces when `white` is the White
      move still waiting for its answer.  A White move flushes a waiting one
      as (white, None); a Black move closes the pair, with or without a
      White move before it; a White move still waiting at the end is
      flushed last. */
  function PairsFrom(moves: seq<Entry>, white: Option<string>): (r: seq<Pair>)
    decreases |moves|
  {
    if moves == [] then
      (if white.Some? then [(white, None)] else [])
    else if moves[0].1 == White then
      (if white.Some? then [(white, None)] else []) + PairsFrom(moves[1..], Some(moves[0].0))
    else
      [(white, Some(moves[0].0))] + PairsFrom(moves[1..], None)
  }

  /** The numbered pairs of a whole record. */
  function Pairs(moves: seq<Entry>): seq<Pair> {
    PairsFrom(moves, None)
  }

  /** The notations of a record, in order, without their colours. */
  function Notations(moves: seq<Entry>): (r: seq<string>)
    ensures |r| == |moves|
    ensures forall i | 0 <= i < |moves| :: r[i] == moves[i].0
  {
    if moves == [] then [] else [moves[0].0] + Notations(moves[1..])
  }

  /** The present notations of a pair, White's first. */
  function PairNotations(p: Pair): (r: seq<string>)
    ensures |r| <= 2
  {
    (if p.0.Some? then [p.0.value] else []) + (if p.1.Some? then [p.1.value] else [])
  }

  /** The present notations of a list of pairs, in order. */
  function Flatten(pairs: seq<Pair>): seq<string> {
    if pairs == [] then [] else PairNotations(pairs[0]) + Flatten(pairs[1..])
  }

  lemma {:induction false} FlattenAppend(a: seq<Pair>, b: seq<Pair>)
    ensures Flatten(a + b) == Flatten(a) + Flatten(b)
  {
    if a == [] {
      assert a + b == b;
    } else {
      assert (a + b)[0] == a[0] && (a + b)[1..] == a[1..] + b;
      FlattenAppend(a[1..], b);
      calc {
        Flatten(a + b);
        PairNotations(a[0]) + Flatten(a[1..] + b);
        PairNotations(a[0]) + (Flatten(a[1..]) + Flatten(b));
        (PairNotations(a[0]) + Flatten(a[1..])) + Flatten(b);
        Flatten(a) + Flatten(b);
      }
    }
  }

  /** No pair is (None, None). */
  lemma {:induction false} PairsFromNonEmpty(moves: seq<Entry>, white: Option<string>)
    ensures forall p | p in PairsFrom(moves, white) :: p.0.Some? || p.1.Some?
    decreases |moves|
  {
    if moves != [] {
      PairsFromNonEmpty(moves[1..], if moves[0].1 == White then Some(moves[0].0) else None);
    }
  }

  /** Reading the pairs back reproduces the record's notations in order,
      after the waiting White move. */
  lemma {:induction false} PairsFromFlatten(moves: seq<Entry>, white: Option<string>)
    ensures Flatten(PairsFrom(moves, white)) == Waiting(white) + Notations(moves)
    decreases |moves|
  {
    if moves == [] {
      FlattenFlush(white, []);
    } else {
      var m := moves[0].0;
      var next := if moves[0].1 == White then Some(m) else None;
      PairsFromFlatten(moves[1..], next);
      if moves[0].1 == White {
        FlattenFlush(white, PairsFrom(moves[1..], next));
      } else {
        FlattenAnswer(white, m, PairsFrom(moves[1..], next));
      }
    }
  }

  /** The waiting White move, as a list of zero or one notations. */
  function Waiting(white: Option<string>): (r: seq<string>)
    ensures |r| <= 1
  {
    if white.Some? then [white.value] else []
  }

  /** Flushing the waiting White move puts it in front of what follows. */
  lemma FlattenFlush(white: Option<string>, rest: seq<Pair>)
    ensures Flatten((if white.Some? then [(white, None)] else []) + rest) == Waiting(white) + Flatten(rest)
  {
    var flushed: seq<Pair> := if white.Some? then [(white, None)] else [];
    FlattenAppend(flushed, rest);
    if white.Some? {
      assert Flatten(flushed) == PairNotations((white, None)) + Flatten([]);
    }
  }

  /** A Black move closes the pair after the waiting White move. */
  lemma FlattenAnswer(white: Option<string>, m: string, rest: seq<Pair>)
    ensures Flatten([(white, Some(m))] + rest) == Waiting(white) + [m] + Flatten(rest)
  {
    FlattenAppend([(white, Some(m))], rest);
    assert Flatten([(white, Some(m))]) == PairNotations((white, Some(m))) + Flatten([]);
  }

  /** Every pair has a move in it, and the pairs read back in order give the
      record's notations. */
  lemma PairsPreserveNotations(moves: seq<Entry>)
    ensures forall p | p in Pairs(moves) :: p.0.Some? || p.1.Some?
    ensures Flatten(Pairs(moves)) == Notations(moves)
  {
    PairsFromNonEmpty(moves, None);
    PairsFromFlatten(moves, None);
  }

  /** The record alternates White, Black, White, ... from the first move. */
  predicate Alternating(moves: seq<Entry>) {
    forall i | 0 <= i < |moves| :: moves[i].1 == (if i % 2 == 0 then White else Black)
  }

  /** An alternating record begins with one full pair. */
  lemma PairsOfAlternatingStart(moves: seq<Entry>)
    requires |moves| >= 2 && moves[0].1 == White && moves[1].1 == Black
    ensures Pairs(moves) == [(Some(moves[0].0), Some(moves[1].0))] + Pairs(moves[2..])
  {
    assert moves[1..][0] == moves[1] && moves[1..][1..] == moves[2..];
    assert PairsFrom(moves[1..], Some(moves[0].0))
      == [(Some(moves[0].0), Some(moves[1].0))] + PairsFrom(moves[2..], None);
  }

  /** An alternating record of n moves makes ceil(n / 2) pairs, the k-th
      holding moves 2k and 2k + 1 (counting from 0), and the last pair of
      an odd record has no Black move. */
  lemma {:induction false} AlternatingPairs(moves: seq<Entry>)
    requires Alternating(moves)
    ensures |Pairs(moves)| == (|moves| + 1) / 2
    ensures forall k | 0 <= k < |moves| / 2 ::
      Pairs(moves)[k] == (Some(moves[2 * k].0), Some(moves[2 * k + 1].0))
    ensures |moves| % 2 == 1 ==> Pairs(moves)[|moves| / 2] == (Some(moves[|moves| - 1].0), None)
    decreases |moves|
  {
    if |moves| == 1 {
      assert moves[1..] == [];
      assert Pairs(moves) == [] + PairsFrom([], Some(moves[0].0));
    } else if |moves| >= 2 {
      var rest := moves[2..];
      assert Alternating(rest) by {
        forall i | 0 <= i < |rest| ensures rest[i].1 == (if i % 2 == 0 then White else Black) {
          assert rest[i] == moves[i + 2];
        }
      }
      AlternatingPairs(rest);
      PairsOfAlternatingStart(moves);
      forall k | 1 <= k < |moves| / 2
        ensures Pairs(moves)[k] == (Some(moves[2 * k].0), Some(moves[2 * k + 1].0))
      {
        assert Pairs(moves)[k] == Pairs(rest)[k - 1];
        assert rest[2 * (k - 1)] == moves[2 * k] && rest[2 * (k - 1) + 1] == moves[2 * k + 1];
      }
    }
  }

  /** The `k`-th pair, counting from 1, or (None, None) when there is none. */
  function PairAt(pairs: seq<Pair>, k: int): (r: Pair)
    ensures 1 <= k <= |pairs| ==> r == pairs[k - 1]
    ensures !(1 <= k <= |pairs|) ==> r == (None, None)
  {
    if 1 <= k <= |pairs| then pairs[k - 1] else (None, None)
  }

  /** For a record's own pairs, a lookup finds a move exactly when the
      number is in range. */
  lemma PairAtFound(moves: seq<Entry>, k: int)
    ensures PairAt(Pairs(moves), k) != (None, None) <==> 1 <= k <= |Pairs(moves)|
  {
    PairsFromNonEmpty(moves, None);
    if 1 <= k <= |Pairs(moves)| {
      assert Pairs(moves)[k - 1] in Pairs(moves);
    }
  }

  // ---------------------------------------------------------------------------
  // PGN text

  /** A notation counts as present when it is there and not empty, as a
      string's truth value does. */
  predicate Present(m: Option<string>) {
    m.Some? && m.value != ""
  }

  function DigitChar(d: nat): (ch: char)
    requires d < 10
    ensures '0' <= ch <= '9'
  {
    "0123456789"[d]
  }

  /** The decimal spelling of `n`, without leading zeros. */
  function NatToString(n: nat): (s: string)
    ensures |s| >= 1 && forall i | 0 <= i < |s| :: '0' <= s[i] <= '9'
    ensures |s| > 1 ==> s[0] != '0'
  {
    if n < 10 then [DigitChar(n)] else NatToString(n / 10) + [DigitChar(n % 10)]
  }

  /** The number a string of decimal digits spells. */
  function ParseNat(s: string): nat
    requires forall i | 0 <= i < |s| :: '0' <= s[i] <= '9'
  {
    if s == [] then 0 else 10 * ParseNat(s[..|s| - 1]) + (s[|s| - 1] as int - '0' as int)
  }

  /** The decimal spelling reads back as the same number. */
  lemma {:induction false} NatToStringRoundTrip(n: nat)
    ensures ParseNat(NatToString(n)) == n
  {
    if n >= 10 {
      var s := NatToString(n);
      assert s[..|s| - 1] == NatToString(n / 10);
      NatToStringRoundTrip(n / 10);
    }
  }

  /** The chunk for pair number `k`: "k. w b" when both moves are present,
      "k. w" when only White's is, nothing otherwise. */
  function Chunk(p: Pair, k: nat): (r: seq<string>)
    ensures |r| == (if Present(p.0) then 1 else 0)
  {
    if Present(p.0) && Present(p.1) then [NatToString(k) + ". " + p.0.value + " " + p.1.value]
    else if Present(p.0) then [NatToString(k) + ". " + p.0.value]
    else []
  }

  /** The chunks of the pairs numbered from `k` on. */
  function Chunks(pairs: seq<Pair>, k: nat): seq<string>
    decreases |pairs|
  {
    if pairs == [] then [] else Chunk(pairs[0], k) + Chunks(pairs[1..], k + 1)
  }

  /** How many of the pairs have a present White move. */
  function WhitePresentCount(pairs: seq<Pair>): nat {
    if pairs == [] then 0 else (if Present(pairs[0].0) then 1 else 0) + WhitePresentCount(pairs[1..])
  }

  /** One chunk per pair with a White move; pairs without one are skipped but
      still use up their number. */
  lemma {:induction false} ChunksCount(pairs: seq<Pair>, k: nat)
    ensures |Chunks(pairs, k)| == WhitePresentCount(pairs)
    decreases |pairs|
  {
    if pairs != [] {
      ChunksCount(pairs[1..], k + 1);
    }
  }

  lemma {:induction false} ChunksAppend(a: seq<Pair>, b: seq<Pair>, k: nat)
    ensures Chunks(a + b, k) == Chunks(a, k) + Chunks(b, k + |a|)
    decreases |a|
  {
    if a == [] {
      assert a + b == b;
    } else {
      assert (a + b)[0] == a[0] && (a + b)[1..] == a[1..] + b;
      ChunksAppend(a[1..], b, k + 1);
      calc {
        Chunks(a + b, k);
        Chunk(a[0], k) + Chunks(a[1..] + b, k + 1);
        Chunk(a[0], k) + (Chunks(a[1..], k + 1) + Chunks(b, k + 1 + |a[1..]|));
        (Chunk(a[0], k) + Chunks(a[1..], k + 1)) + Chunks(b, k + |a|);
        Chunks(a, k) + Chunks(b, k + |a|);
      }
    }
  }

  /** The chunks of one more pair: the chunk of pair i, numbered i + 1. */
  lemma ChunksSnoc(pairs: seq<Pair>, i: nat)
    requires i < |pairs|
    ensures Chunks(pairs[..i + 1], 1) == Chunks(pairs[..i], 1) + Chunk(pairs[i], i + 1)
  {
    assert pairs[..i + 1] == pairs[..i] + [pairs[i]];
    ChunksAppend(pairs[..i], [pairs[i]], 1);
    assert Chunks([pairs[i]], i + 1) == Chunk(pairs[i], i + 1) + Chunks([], i + 2);
  }

  /** When every pair has a White move, pair j gets chunk j, numbered k + j. */
  lemma {:induction false} ChunksOfWhitePairs(pairs: seq<Pair>, k: nat)
    requires forall p | p in pairs :: Present(p.0)
    ensures |Chunks(pairs, k)| == |pairs|
    ensures forall j | 0 <= j < |pairs| :: Chunks(pairs, k)[j] == Chunk(pairs[j], k + j)[0]
    decreases |pairs|
  {
    if pairs != [] {
      var tail := pairs[1..];
      assert forall p | p in tail :: p in pairs;
      ChunksOfWhitePairs(tail, k + 1);
      assert pairs[0] in pairs;
      var first := Chunk(pairs[0], k);
      assert |first| == 1;
      assert Chunks(pairs, k) == first + Chunks(tail, k + 1);
      forall j | 1 <= j < |pairs| ensures Chunks(pairs, k)[j] == Chunk(pairs[j], k + j)[0] {
        assert tail[j - 1] == pairs[j];
      }
    }
  }

  /** When every move of an alternating record has a non-empty notation,
      each pair gets its chunk, numbered k, k + 1, ...: "k. w b", and "k. w"
      for a final unanswered White move. */
  lemma AlternatingChunks(moves: seq<Entry>, k: nat)
    requires Alternating(moves) && forall i | 0 <= i < |moves| :: moves[i].0 != ""
    ensures |Chunks(Pairs(moves), k)| == (|moves| + 1) / 2
    ensures forall j | 0 <= j < |moves| / 2 ::
      Chunks(Pairs(moves), k)[j] ==
        NatToString(k + j) + ". " + moves[2 * j].0 + " " + moves[2 * j + 1].0
    ensures |moves| % 2 == 1 ==>
      Chunks(Pairs(moves), k)[|moves| / 2] == NatToString(k + |moves| / 2) + ". " + moves[|moves| - 1].0
  {
    var pairs := Pairs(moves);
    AlternatingPairs(moves);
    forall p | p in pairs ensures Present(p.0) {
      var j :| 0 <= j < |pairs| && pairs[j] == p;
      if j < |moves| / 2 {
        assert p.0 == Some(moves[2 * j].0);
      } else {
        assert p.0 == Some(moves[|moves| - 1].0);
      }
    }
    ChunksOfWhitePairs(pairs, k);
    forall j | 0 <= j < |moves| / 2 ensures Chunks(pairs, k)[j] ==
      NatToString(k + j) + ". " + moves[2 * j].0 + " " + moves[2 * j + 1].0
    {
      assert pairs[j] == (Some(moves[2 * j].0), Some(moves[2 * j + 1].0));
    }
  }

  /** The strings joined with `sep` between neighbours. */
  function Join(xs: seq<string>, sep: string): (r: string)
    ensures xs == [] ==> r == ""
    ensures |xs| == 1 ==> r == xs[0]
  {
    if xs == [] then "" else if |xs| == 1 then xs[0] else xs[0] + sep + Join(xs[1..], sep)
  }

  function TotalLength(xs: seq<string>): nat {
    if xs == [] then 0 else |xs[0]| + TotalLength(xs[1..])
  }

  /** Joining adds one separator between each two neighbours and nothing
      else. */
  lemma {:induction false} JoinLength(xs: seq<string>, sep: string)
    requires xs != []
    ensures |Join(xs, sep)| == TotalLength(xs) + (|xs| - 1) * |sep|
  {
    if |xs| > 1 {
      JoinLength(xs[1..], sep);
    }
  }

  /** The PGN-style move list of a record. */
  function Pgn(moves: seq<Entry>): string {
    Join(Chunks(Pairs(moves), 1), " ")
  }

  // ---------------------------------------------------------------------------
  // The history object

  class MoveHistory {
    var moves: seq<Entry>

    constructor()
      ensures moves == []
    {
      moves := [];
    }

    /** Appends one entry at the end. */
    method AddMove(notation: string, color: Color)
      modifies this
      ensures moves == old(moves) + [(notation, color)]
      ensures GetMoveCount() == old(GetMoveCount()) + 1
      ensures GetLastMove() == Some((notation, color))
    {
      moves := moves + [(notation, color)];
    }

    function GetMoveCount(): nat
      reads this
    {
      |moves|
    }

    /** The most recent entry, or None for an empty record. */
    function GetLastMove(): (r: Option<Entry>)
      reads this
      ensures r.None? <==> GetMoveCount() == 0
      ensures r.Some? ==> r.value == moves[|moves| - 1] && r.value in moves
    {
      if moves != [] then Some(moves[|moves| - 1]) else None
    }

    method Clear()
      modifies this
      ensures moves == [] && IsEmpty()
    {
      moves := [];
    }

    function IsEmpty(): (r: bool)
      reads this
      ensures r <==> GetMoveCount() == 0
      ensures r <==> GetLastMove().None?
    {
      |moves| == 0
    }

    /** The notations `color` played, in order. */
    function GetMovesForColor(color: Color): (r: seq<string>)
      reads this
      ensures forall m :: m in r <==> (m, color) in moves
      ensures |r| + |MovesForColor(moves, Opponent(color))| == |moves|
    {
      MovesForColorMembership(moves, color);
      MovesForColorSplit(moves);
      MovesForColor(moves, color)
    }

    /** Walks the record once, holding back the last White move until its
        answer arrives. */
    method GetMovePairs() returns (pairs: seq<Pair>)
      ensures pairs == Pairs(moves)
      ensures forall p | p in pairs :: p.0.Some? || p.1.Some?
      ensures Flatten(pairs) == Notations(moves)
    {
      pairs := [];
      var white: Option<string> := None;
      var black: Option<string> := None;
      for i := 0 to |moves|
        invariant black == None
        invariant pairs + PairsFrom(moves[i..], white) == Pairs(moves)
      {
        var (move, color) := moves[i];
        assert moves[i..][0] == moves[i] && moves[i..][1..] == moves[i + 1..];
        if color == White {
          assert PairsFrom(moves[i..], white) ==
            (if white.Some? then [(white, None)] else []) + PairsFrom(moves[i + 1..], Some(move));
          if white != None {
            // a White move with no answer yet is flushed on its own
            pairs := pairs + [(white, black)];
            black := None;
          }
          white := Some(move);
        } else {
          assert PairsFrom(moves[i..], white) == [(white, Some(move))] + PairsFrom(moves[i + 1..], None);
          black := Some(move);
          pairs := pairs + [(white, black)];
          white := None;
          black := None;
        }
      }
      if white != None {
        pairs := pairs + [(white, None)];
      }
      PairsPreserveNotations(moves);
    }

    /** The pair numbered `moveNumber`, counting from 1. */
    method GetMovePair(moveNumber: int) returns (r: Pair)
      ensures r == PairAt(Pairs(moves), moveNumber)
      ensures r != (None, None) <==> 1 <= moveNumber <= |Pairs(moves)|
    {
      var pairs := GetMovePairs();
      if 1 <= moveNumber <= |pairs| {
        r := pairs[moveNumber - 1];
      } else {
        r := (None, None);
      }
      PairAtFound(moves, moveNumber);
    }

    /** One numbered chunk per pair with a White move, joined by spaces. */
    method ExportPgn() returns (s: string)
      ensures s == Pgn(moves)
    {
      var pairs := GetMovePairs();
      var chunks: seq<string> := [];
      var moveNumber := 1;
      for i := 0 to |pairs|
        invariant moveNumber == i + 1
        invariant chunks == Chunks(pairs[..i], 1)
      {
        var (whiteMove, blackMove) := pairs[i];
        ChunksSnoc(pairs, i);
        if Present(whiteMove) && Present(blackMove) {
          chunks := chunks + [NatToString(moveNumber) + ". " + whiteMove.value + " " + blackMove.value];
        } else if Present(whiteMove) {
          chunks := chunks + [NatToString(moveNumber) + ". " + whiteMove.value];
        }
        moveNumber := moveNumber + 1;
      }
      assert pairs[..|pairs|] == pairs;
      s := Join(chunks, " ");
    }
  }
}
