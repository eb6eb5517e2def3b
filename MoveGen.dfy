/** Move generation of ChessState on the board value: checkMove,
    checkPawnMove, the sliding loops and moves(col, row).  A move list is the
    source's flat list of integers, (col, row) pairs one after the other. */
module MoveGen {
  import opened Board

  /** What checkMove and checkPawnMove do: the pair they append ([] or
      [col, row]) and the boolean they return ("stop here"). */
  datatype Probe = Probe(added: seq<int>, stop: bool)

  /** checkMove: off the board (a -1 sentinel) or a piece of the mover's own
      colour stops without adding; otherwise the square is added, and the
      walk stops when it held a piece (a capture). */
  function CheckMove(b: Rows, col: int, row: int, white: bool): Probe
    requires row < 8
  {
    if col < 0 || row < 0 then Probe([], true)
    else if GetPiece(b, col, row) > 0 && IsWhite(b, col, row) == white then Probe([], true)
    else Probe([col, row], GetPiece(b, col, row) > 0)
  }

  /** checkPawnMove: a diagonal needs an opposing piece, a forward step an
      empty square. */
  function CheckPawnMove(b: Rows, col: int, row: int, diagonal: bool, white: bool): Probe
    requires row < 8
  {
    if col < 0 || row < 0 then Probe([], true)
    else if diagonal && (GetPiece(b, col, row) == None || IsWhite(b, col, row) == white) then Probe([], true)
    else if !diagonal && GetPiece(b, col, row) > 0 then Probe([], true)
    else Probe([col, row], GetPiece(b, col, row) > 0)
  }

  /** One step of a loop variable: inc, dec, or unchanged. */
  function Step(p: int, d: int): int
  {
    if d > 0 then Inc(p) else if d < 0 then Dec(p) else p
  }

  predicate Direction(dc: int, dr: int)
  {
    -1 <= dc <= 1 && -1 <= dr <= 1 && (dc != 0 || dr != 0)
  }

  /** How many more steps a loop variable can take before it is -1. */
  function Span(p: int, d: int): nat
  {
    if p < 0 || d == 0 then 0
    else if d > 0 then (if p < 8 then 8 - p else 1)
    else p + 1
  }

  /** One `for(...; true; i = step(i), j = step(j)) if(checkMove(i, j)) break;`
      loop from its current square (col, row) on: the pairs it appends. */
  function Ray(b: Rows, col: int, row: int, dc: int, dr: int, white: bool): seq<int>
    requires row < 8 && Direction(dc, dr)
    decreases Span(col, dc) + Span(row, dr)
  {
    var p := CheckMove(b, col, row, white);
    if p.stop then p.added
    else p.added + Ray(b, Step(col, dc), Step(row, dr), dc, dr, white)
  }

  /** A sliding loop started one step away from the piece on (col, row). */
  function Slide(b: Rows, col: int, row: int, dc: int, dr: int, white: bool): seq<int>
    requires 0 <= row < 8 && Direction(dc, dr)
  {
    Ray(b, Step(col, dc), Step(row, dr), dc, dr, white)
  }

  /** Rook: right, left, up, down. */
  function RookMoves(b: Rows, col: int, row: int, white: bool): seq<int>
    requires 0 <= row < 8
  {
    Slide(b, col, row, 1, 0, white) + Slide(b, col, row, -1, 0, white)
    + Slide(b, col, row, 0, 1, white) + Slide(b, col, row, 0, -1, white)
  }

  /** Bishop: up-right, up-left, down-right, down-left. */
  function BishopMoves(b: Rows, col: int, row: int, white: bool): seq<int>
    requires 0 <= row < 8
  {
    Slide(b, col, row, 1, 1, white) + Slide(b, col, row, -1, 1, white)
    + Slide(b, col, row, 1, -1, white) + Slide(b, col, row, -1, -1, white)
  }

  /** Knight: the eight jumps counter-clockwise from (+2, +1). */
  function KnightMoves(b: Rows, col: int, row: int, white: bool): seq<int>
    requires 0 <= row < 8
  {
    CheckMove(b, Inc(Inc(col)), Inc(row), white).added
    + CheckMove(b, Inc(col), Inc(Inc(row)), white).added
    + CheckMove(b, Dec(col), Inc(Inc(row)), white).added
    + CheckMove(b, Dec(Dec(col)), Inc(row), white).added
    + CheckMove(b, Dec(Dec(col)), Dec(row), white).added
    + CheckMove(b, Dec(col), Dec(Dec(row)), white).added
    + CheckMove(b, Inc(col), Dec(Dec(row)), white).added
    + CheckMove(b, Inc(Inc(col)), Dec(row), white).added
  }

  /** King: the eight neighbours counter-clockwise from (+1, 0). */
  function KingMoves(b: Rows, col: int, row: int, white: bool): seq<int>
    requires 0 <= row < 8
  {
    CheckMove(b, Inc(col), row, white).added
    + CheckMove(b, Inc(col), Inc(row), white).added
    + CheckMove(b, col, Inc(row), white).added
    + CheckMove(b, Dec(col), Inc(row), white).added
    + CheckMove(b, Dec(col), row, white).added
    + CheckMove(b, Dec(col), Dec(row), white).added
    + CheckMove(b, col, Dec(row), white).added
    + CheckMove(b, Inc(col), Dec(row), white).added
  }

  /** Pawn: light moves up (inc), dark down (dec).  The two-step is tried only
      when the one-step call returned false (it added an empty square) and the
      pawn stands on its home row; then the two diagonals, right first. */
  function PawnMoves(b: Rows, col: int, row: int, white: bool): seq<int>
    requires 0 <= row < 8
  {
    var fwd := if white then Inc(row) else Dec(row);
    var one := CheckPawnMove(b, col, fwd, false, white);
    var two :=
      if !one.stop && row == (if white then 1 else 6)
      then CheckPawnMove(b, col, if white then Inc(Inc(row)) else Dec(Dec(row)), false, white).added
      else [];
    one.added + two
    + CheckPawnMove(b, Inc(col), fwd, true, white).added
    + CheckPawnMove(b, Dec(col), fwd, true, white).added
  }

  /** moves(col, row): the list for the piece on (col, row), its colour taken
      from the square; the queen is the rook's four loops then the bishop's.
      An empty square (or code 7) gives the empty list. */
  function Moves(b: Rows, col: int, row: int): seq<int>
    requires 0 <= row < 8
  {
    var p := GetPiece(b, col, row);
    var w := IsWhite(b, col, row);
    if p == Pawn then PawnMoves(b, col, row, w)
    else if p == Bishop then BishopMoves(b, col, row, w)
    else if p == Knight then KnightMoves(b, col, row, w)
    else if p == Rook then RookMoves(b, col, row, w)
    else if p == Queen then RookMoves(b, col, row, w) + BishopMoves(b, col, row, w)
    else if p == King then KingMoves(b, col, row, w)
    else []
  }

  // ---------------------------------------------------------------------
  // Reading a flat list as squares.

  type Square = (int, int)

  /** The k-th (col, row) pair of a flat list. */
  function PairAt(m: seq<int>, k: int): Square
    requires 0 <= k < |m| / 2
  {
    (m[2 * k], m[2 * k + 1])
  }

  /** (c, r) occurs as a pair of m: what isValidMove searches for. */
  predicate Listed(m: seq<int>, c: int, r: int)
  {
    exists k :: 0 <= k < |m| / 2 && PairAt(m, k) == (c, r)
  }

  predicate Empty(b: Rows, s: Square)
  {
    OnBoard(s.0, s.1) && !Occupied(b, s.0, s.1)
  }

  predicate Own(b: Rows, s: Square, white: bool)
  {
    OnBoard(s.0, s.1) && Occupied(b, s.0, s.1) && IsWhite(b, s.0, s.1) == white
  }

  predicate Opponent(b: Rows, s: Square, white: bool)
  {
    OnBoard(s.0, s.1) && Occupied(b, s.0, s.1) && IsWhite(b, s.0, s.1) != white
  }

  /** A square the side `white` may move to: on the board, not its own piece. */
  predicate Target(b: Rows, s: Square, white: bool)
  {
    OnBoard(s.0, s.1) && !Own(b, s, white)
  }

  /** Every pair of m is a square on the board not held by colour `white`. */
  predicate Sound(b: Rows, m: seq<int>, white: bool)
  {
    |m| % 2 == 0 && forall k :: 0 <= k < |m| / 2 ==> Target(b, PairAt(m, k), white)
  }

  lemma PairAtAppend(m1: seq<int>, m2: seq<int>, k: int)
    requires |m1| % 2 == 0 && 0 <= k < (|m1| + |m2|) / 2
    ensures k < |m1| / 2 ==> PairAt(m1 + m2, k) == PairAt(m1, k)
    ensures k >= |m1| / 2 ==> PairAt(m1 + m2, k) == PairAt(m2, k - |m1| / 2)
  {
  }

  lemma {:induction false} SoundAppend(b: Rows, m1: seq<int>, m2: seq<int>, white: bool)
    requires Sound(b, m1, white) && Sound(b, m2, white)
    ensures Sound(b, m1 + m2, white)
  {
    forall k | 0 <= k < |m1 + m2| / 2 ensures Target(b, PairAt(m1 + m2, k), white) {
      PairAtAppend(m1, m2, k);
    }
  }

  lemma ProbeSound(b: Rows, col: int, row: int, white: bool, diagonal: bool)
    requires col <= 7 && row < 8
    ensures Sound(b, CheckMove(b, col, row, white).added, white)
    ensures Sound(b, CheckPawnMove(b, col, row, diagonal, white).added, white)
  {
  }

  /** A sliding loop whose column starts at most at 7 adds only targets. */
  lemma {:induction false} RaySound(b: Rows, col: int, row: int, dc: int, dr: int, white: bool)
    requires col <= 7 && Direction(dc, dr) && row < 8
    ensures Sound(b, Ray(b, col, row, dc, dr, white), white)
    decreases Span(col, dc) + Span(row, dr)
  {
    var p := CheckMove(b, col, row, white);
    ProbeSound(b, col, row, white, false);
    if !p.stop {
      RaySound(b, Step(col, dc), Step(row, dr), dc, dr, white);
      SoundAppend(b, p.added, Ray(b, Step(col, dc), Step(row, dr), dc, dr, white), white);
    }
  }

  lemma SlideSound(b: Rows, col: int, row: int, dc: int, dr: int, white: bool)
    requires OnBoard(col, row) && Direction(dc, dr)
    ensures Sound(b, Slide(b, col, row, dc, dr, white), white)
  {
    RaySound(b, Step(col, dc), Step(row, dr), dc, dr, white);
  }

  /** Every pair moves(col, row) returns for a piece on the board is a square
      on the board ([0,7] x [0,7]) that does not hold a piece of the mover's
      colour. */
  lemma {:induction false} MovesSound(b: Rows, col: int, row: int)
    requires OnBoard(col, row)
    ensures Sound(b, Moves(b, col, row), IsWhite(b, col, row))
  {
    var p, w := GetPiece(b, col, row), IsWhite(b, col, row);
    if p == Pawn {
      var fwd := if w then Inc(row) else Dec(row);
      var two := if w then Inc(Inc(row)) else Dec(Dec(row));
      ProbeSound(b, col, fwd, w, false);
      ProbeSound(b, col, two, w, false);
      ProbeSound(b, Inc(col), fwd, w, true);
      ProbeSound(b, Dec(col), fwd, w, true);
      var m := PawnMoves(b, col, row, w);
      var one := CheckPawnMove(b, col, fwd, false, w);
      var second := if !one.stop && row == (if w then 1 else 6)
        then CheckPawnMove(b, col, two, false, w).added else [];
      SoundAppend(b, one.added, second, w);
      SoundAppend(b, one.added + second, CheckPawnMove(b, Inc(col), fwd, true, w).added, w);
      SoundAppend(b, one.added + second + CheckPawnMove(b, Inc(col), fwd, true, w).added,
        CheckPawnMove(b, Dec(col), fwd, true, w).added, w);
    } else if p == Bishop || p == Rook || p == Queen {
      RookSound(b, col, row, w);
      BishopSound(b, col, row, w);
      if p == Queen {
        SoundAppend(b, RookMoves(b, col, row, w), BishopMoves(b, col, row, w), w);
      }
    } else if p == Knight {
      KnightSound(b, col, row, w);
    } else if p == King {
      KingSound(b, col, row, w);
    }
  }

  /** Every loop and probe appends whole (col, row) pairs, whatever the
      column, so a move list has even length. */
  lemma {:induction false} RayEven(b: Rows, col: int, row: int, dc: int, dr: int, white: bool)
    requires row < 8 && Direction(dc, dr)
    ensures |Ray(b, col, row, dc, dr, white)| % 2 == 0
    decreases Span(col, dc) + Span(row, dr)
  {
    var p := CheckMove(b, col, row, white);
    ProbeEven(b, col, row, white, false);
    if !p.stop {
      var rest := Ray(b, Step(col, dc), Step(row, dr), dc, dr, white);
      RayEven(b, Step(col, dc), Step(row, dr), dc, dr, white);
      assert Ray(b, col, row, dc, dr, white) == p.added + rest;
      EvenCat(p.added, rest);
    } else {
      assert Ray(b, col, row, dc, dr, white) == p.added;
    }
  }

  lemma EvenCat(m1: seq<int>, m2: seq<int>)
    requires |m1| % 2 == 0 && |m2| % 2 == 0
    ensures |m1 + m2| % 2 == 0
  {
  }

  lemma ProbeEven(b: Rows, col: int, row: int, white: bool, diagonal: bool)
    requires row < 8
    ensures |CheckMove(b, col, row, white).added| % 2 == 0
    ensures |CheckPawnMove(b, col, row, diagonal, white).added| % 2 == 0
  {
  }

  lemma EvenCat4(m1: seq<int>, m2: seq<int>, m3: seq<int>, m4: seq<int>)
    requires |m1| % 2 == 0 && |m2| % 2 == 0 && |m3| % 2 == 0 && |m4| % 2 == 0
    ensures |m1 + m2 + m3 + m4| % 2 == 0
  {
    EvenCat(m1, m2);
    EvenCat(m1 + m2, m3);
    EvenCat(m1 + m2 + m3, m4);
  }

  lemma SlidesEven(b: Rows, col: int, row: int, w: bool)
    requires 0 <= row < 8
    ensures |RookMoves(b, col, row, w)| % 2 == 0
    ensures |BishopMoves(b, col, row, w)| % 2 == 0
  {
    RayEven(b, Step(col, 1), Step(row, 0), 1, 0, w);
    RayEven(b, Step(col, -1), Step(row, 0), -1, 0, w);
    RayEven(b, Step(col, 0), Step(row, 1), 0, 1, w);
    RayEven(b, Step(col, 0), Step(row, -1), 0, -1, w);
    EvenCat4(Slide(b, col, row, 1, 0, w), Slide(b, col, row, -1, 0, w),
      Slide(b, col, row, 0, 1, w), Slide(b, col, row, 0, -1, w));
    RayEven(b, Step(col, 1), Step(row, 1), 1, 1, w);
    RayEven(b, Step(col, -1), Step(row, 1), -1, 1, w);
    RayEven(b, Step(col, 1), Step(row, -1), 1, -1, w);
    RayEven(b, Step(col, -1), Step(row, -1), -1, -1, w);
    EvenCat4(Slide(b, col, row, 1, 1, w), Slide(b, col, row, -1, 1, w),
      Slide(b, col, row, 1, -1, w), Slide(b, col, row, -1, -1, w));
  }

  lemma LeapersEven(b: Rows, col: int, row: int, w: bool)
    requires 0 <= row < 8
    ensures |KnightMoves(b, col, row, w)| % 2 == 0
    ensures |KingMoves(b, col, row, w)| % 2 == 0
  {
    var k1, k2 := CheckMove(b, Inc(Inc(col)), Inc(row), w).added, CheckMove(b, Inc(col), Inc(Inc(row)), w).added;
    var k3, k4 := CheckMove(b, Dec(col), Inc(Inc(row)), w).added, CheckMove(b, Dec(Dec(col)), Inc(row), w).added;
    var k5, k6 := CheckMove(b, Dec(Dec(col)), Dec(row), w).added, CheckMove(b, Dec(col), Dec(Dec(row)), w).added;
    var k7, k8 := CheckMove(b, Inc(col), Dec(Dec(row)), w).added, CheckMove(b, Inc(Inc(col)), Dec(row), w).added;
    ProbeEven(b, Inc(Inc(col)), Inc(row), w, false);
    ProbeEven(b, Inc(col), Inc(Inc(row)), w, false);
    ProbeEven(b, Dec(col), Inc(Inc(row)), w, false);
    ProbeEven(b, Dec(Dec(col)), Inc(row), w, false);
    ProbeEven(b, Dec(Dec(col)), Dec(row), w, false);
    ProbeEven(b, Dec(col), Dec(Dec(row)), w, false);
    ProbeEven(b, Inc(col), Dec(Dec(row)), w, false);
    ProbeEven(b, Inc(Inc(col)), Dec(row), w, false);
    EvenCat4(k1, k2, k3, k4);
    EvenCat4(k5, k6, k7, k8);
    EvenCat4(k1 + k2 + k3 + k4, k5, k6, k7);
    EvenCat(k1 + k2 + k3 + k4 + k5 + k6 + k7, k8);
    var g1, g2 := CheckMove(b, Inc(col), row, w).added, CheckMove(b, Inc(col), Inc(row), w).added;
    var g3, g4 := CheckMove(b, col, Inc(row), w).added, CheckMove(b, Dec(col), Inc(row), w).added;
    var g5, g6 := CheckMove(b, Dec(col), row, w).added, CheckMove(b, Dec(col), Dec(row), w).added;
    var g7, g8 := CheckMove(b, col, Dec(row), w).added, CheckMove(b, Inc(col), Dec(row), w).added;
    ProbeEven(b, Inc(col), row, w, false);
    ProbeEven(b, Inc(col), Inc(row), w, false);
    ProbeEven(b, col, Inc(row), w, false);
    ProbeEven(b, Dec(col), Inc(row), w, false);
    ProbeEven(b, Dec(col), row, w, false);
    ProbeEven(b, Dec(col), Dec(row), w, false);
    ProbeEven(b, col, Dec(row), w, false);
    ProbeEven(b, Inc(col), Dec(row), w, false);
    EvenCat4(g1, g2, g3, g4);
    EvenCat4(g1 + g2 + g3 + g4, g5, g6, g7);
    EvenCat(g1 + g2 + g3 + g4 + g5 + g6 + g7, g8);
  }

  lemma PawnEven(b: Rows, col: int, row: int, w: bool)
    requires 0 <= row < 8
    ensures |PawnMoves(b, col, row, w)| % 2 == 0
  {
    var fwd := if w then Inc(row) else Dec(row);
    var twoRow := if w then Inc(Inc(row)) else Dec(Dec(row));
    var one := CheckPawnMove(b, col, fwd, false, w);
    var two := if !one.stop && row == (if w then 1 else 6) then CheckPawnMove(b, col, twoRow, false, w).added else [];
    ProbeEven(b, col, fwd, w, false);
    ProbeEven(b, col, twoRow, w, false);
    ProbeEven(b, Inc(col), fwd, w, true);
    ProbeEven(b, Dec(col), fwd, w, true);
    EvenCat4(one.added, two, CheckPawnMove(b, Inc(col), fwd, true, w).added, CheckPawnMove(b, Dec(col), fwd, true, w).added);
  }

  lemma MovesEven(b: Rows, col: int, row: int)
    requires 0 <= row < 8
    ensures |Moves(b, col, row)| % 2 == 0
  {
    var p, w := GetPiece(b, col, row), IsWhite(b, col, row);
    var m := Moves(b, col, row);
    if p == Pawn {
      PawnEven(b, col, row, w);
      assert m == PawnMoves(b, col, row, w);
    } else if p == Knight {
      LeapersEven(b, col, row, w);
      assert m == KnightMoves(b, col, row, w);
    } else if p == King {
      LeapersEven(b, col, row, w);
      assert m == KingMoves(b, col, row, w);
    } else if p == Queen {
      SlidesEven(b, col, row, w);
      EvenCat(RookMoves(b, col, row, w), BishopMoves(b, col, row, w));
      assert m == RookMoves(b, col, row, w) + BishopMoves(b, col, row, w);
    } else if p == Rook {
      SlidesEven(b, col, row, w);
      assert m == RookMoves(b, col, row, w);
    } else if p == Bishop {
      SlidesEven(b, col, row, w);
      assert m == BishopMoves(b, col, row, w);
    } else {
      assert m == [];
    }
  }

  // ---------------------------------------------------------------------
  // How many moves one square can generate.

  /** MAX_PIECE_MOVES: the most moves one piece can have (a queen in the
      middle of an empty board has 27). */
  const MaxPieceMoves := 27

  /** A probe adds at most one pair. */
  lemma ProbeCount(b: Rows, col: int, row: int, white: bool, diagonal: bool)
    requires row < 8
    ensures |CheckMove(b, col, row, white).added| <= 2
    ensures |CheckPawnMove(b, col, row, diagonal, white).added| <= 2
  {
  }

  /** A ray adds at most one pair per step its loop variables can still take
      before one of them falls off the board. */
  lemma {:induction false} RayCount(b: Rows, col: int, row: int, dc: int, dr: int, white: bool)
    requires -1 <= col < 8 && -1 <= row < 8 && Direction(dc, dr)
    ensures dc != 0 ==> |Ray(b, col, row, dc, dr, white)| <= 2 * Span(col, dc)
    ensures dr != 0 ==> |Ray(b, col, row, dc, dr, white)| <= 2 * Span(row, dr)
    decreases Span(col, dc) + Span(row, dr)
  {
    var p := CheckMove(b, col, row, white);
    if !p.stop {
      RayCount(b, Step(col, dc), Step(row, dr), dc, dr, white);
    }
  }

  /** A sliding loop from (col, row) covers at most the squares between the
      piece and the edge in its direction. */
  lemma SlideCount(b: Rows, col: int, row: int, dc: int, dr: int, white: bool)
    requires OnBoard(col, row) && Direction(dc, dr)
    ensures dc > 0 ==> |Slide(b, col, row, dc, dr, white)| <= 2 * (7 - col)
    ensures dc < 0 ==> |Slide(b, col, row, dc, dr, white)| <= 2 * col
    ensures dr > 0 ==> |Slide(b, col, row, dc, dr, white)| <= 2 * (7 - row)
    ensures dr < 0 ==> |Slide(b, col, row, dc, dr, white)| <= 2 * row
  {
    RayCount(b, Step(col, dc), Step(row, dr), dc, dr, white);
  }

  /** A rook has at most 14 moves: 7 along its row and 7 along its column. */
  lemma RookCount(b: Rows, col: int, row: int, w: bool)
    requires OnBoard(col, row)
    ensures |RookMoves(b, col, row, w)| <= 2 * 14
  {
    SlideCount(b, col, row, 1, 0, w);
    SlideCount(b, col, row, -1, 0, w);
    SlideCount(b, col, row, 0, 1, w);
    SlideCount(b, col, row, 0, -1, w);
  }

  /** A bishop has at most 13 moves: its two diagonals hold 15 - |col - row|
      and 15 - |col + row - 7| squares, and those two differences have
      different parity, so they are never both zero. */
  lemma BishopCount(b: Rows, col: int, row: int, w: bool)
    requires OnBoard(col, row)
    ensures |BishopMoves(b, col, row, w)| <= 2 * 13
  {
    SlideCount(b, col, row, 1, 1, w);
    SlideCount(b, col, row, -1, 1, w);
    SlideCount(b, col, row, 1, -1, w);
    SlideCount(b, col, row, -1, -1, w);
  }

  /** Eight probes add at most eight pairs. */
  lemma Count8(p1: seq<int>, p2: seq<int>, p3: seq<int>, p4: seq<int>,
               p5: seq<int>, p6: seq<int>, p7: seq<int>, p8: seq<int>)
    requires |p1| <= 2 && |p2| <= 2 && |p3| <= 2 && |p4| <= 2
    requires |p5| <= 2 && |p6| <= 2 && |p7| <= 2 && |p8| <= 2
    ensures |p1 + p2 + p3 + p4 + p5 + p6 + p7 + p8| <= 2 * 8
  {
  }

  /** A knight probes eight squares. */
  lemma KnightCount(b: Rows, col: int, row: int, w: bool)
    requires 0 <= row < 8
    ensures |KnightMoves(b, col, row, w)| <= 2 * 8
  {
    ProbeCount(b, Inc(Inc(col)), Inc(row), w, false);
    ProbeCount(b, Inc(col), Inc(Inc(row)), w, false);
    ProbeCount(b, Dec(col), Inc(Inc(row)), w, false);
    ProbeCount(b, Dec(Dec(col)), Inc(row), w, false);
    ProbeCount(b, Dec(Dec(col)), Dec(row), w, false);
    ProbeCount(b, Dec(col), Dec(Dec(row)), w, false);
    ProbeCount(b, Inc(col), Dec(Dec(row)), w, false);
    ProbeCount(b, Inc(Inc(col)), Dec(row), w, false);
    Count8(CheckMove(b, Inc(Inc(col)), Inc(row), w).added,
      CheckMove(b, Inc(col), Inc(Inc(row)), w).added,
      CheckMove(b, Dec(col), Inc(Inc(row)), w).added,
      CheckMove(b, Dec(Dec(col)), Inc(row), w).added,
      CheckMove(b, Dec(Dec(col)), Dec(row), w).added,
      CheckMove(b, Dec(col), Dec(Dec(row)), w).added,
      CheckMove(b, Inc(col), Dec(Dec(row)), w).added,
      CheckMove(b, Inc(Inc(col)), Dec(row), w).added);
  }

  /** A king probes its eight neighbours. */
  lemma KingCount(b: Rows, col: int, row: int, w: bool)
    requires 0 <= row < 8
    ensures |KingMoves(b, col, row, w)| <= 2 * 8
  {
    ProbeCount(b, Inc(col), row, w, false);
    ProbeCount(b, Inc(col), Inc(row), w, false);
    ProbeCount(b, col, Inc(row), w, false);
    ProbeCount(b, Dec(col), Inc(row), w, false);
    ProbeCount(b, Dec(col), row, w, false);
    ProbeCount(b, Dec(col), Dec(row), w, false);
    ProbeCount(b, col, Dec(row), w, false);
    ProbeCount(b, Inc(col), Dec(row), w, false);
    Count8(CheckMove(b, Inc(col), row, w).added,
      CheckMove(b, Inc(col), Inc(row), w).added,
      CheckMove(b, col, Inc(row), w).added,
      CheckMove(b, Dec(col), Inc(row), w).added,
      CheckMove(b, Dec(col), row, w).added,
      CheckMove(b, Dec(col), Dec(row), w).added,
      CheckMove(b, col, Dec(row), w).added,
      CheckMove(b, Inc(col), Dec(row), w).added);
  }

  /** A pawn probes at most four squares: the step, the double step and the
      two diagonals. */
  lemma PawnCount(b: Rows, col: int, row: int, w: bool)
    requires 0 <= row < 8
    ensures |PawnMoves(b, col, row, w)| <= 2 * 4
  {
    var fwd := if w then Inc(row) else Dec(row);
    var twoRow := if w then Inc(Inc(row)) else Dec(Dec(row));
    ProbeCount(b, col, fwd, w, false);
    ProbeCount(b, col, twoRow, w, false);
    ProbeCount(b, Inc(col), fwd, w, true);
    ProbeCount(b, Dec(col), fwd, w, true);
  }

  /** The design bound MAX_PIECE_MOVES: moves(col, row) of a square on the
      board lists at most 27 moves, the queen's rook and bishop loops
      together. */
  lemma MovesCount(b: Rows, col: int, row: int)
    requires OnBoard(col, row)
    ensures |Moves(b, col, row)| <= 2 * MaxPieceMoves
  {
    var p, w := GetPiece(b, col, row), IsWhite(b, col, row);
    var m := Moves(b, col, row);
    if p == Pawn {
      PawnCount(b, col, row, w);
      assert m == PawnMoves(b, col, row, w);
    } else if p == Knight {
      KnightCount(b, col, row, w);
      assert m == KnightMoves(b, col, row, w);
    } else if p == King {
      KingCount(b, col, row, w);
      assert m == KingMoves(b, col, row, w);
    } else if p == Queen {
      RookCount(b, col, row, w);
      BishopCount(b, col, row, w);
      assert m == RookMoves(b, col, row, w) + BishopMoves(b, col, row, w);
    } else if p == Rook {
      RookCount(b, col, row, w);
      assert m == RookMoves(b, col, row, w);
    } else if p == Bishop {
      BishopCount(b, col, row, w);
      assert m == BishopMoves(b, col, row, w);
    } else {
      assert m == [];
    }
  }

  lemma RookSound(b: Rows, col: int, row: int, w: bool)
    requires OnBoard(col, row)
    ensures Sound(b, RookMoves(b, col, row, w), w)
  {
    SlideSound(b, col, row, 1, 0, w);
    SlideSound(b, col, row, -1, 0, w);
    SlideSound(b, col, row, 0, 1, w);
    SlideSound(b, col, row, 0, -1, w);
    var s1, s2 := Slide(b, col, row, 1, 0, w), Slide(b, col, row, -1, 0, w);
    var s3, s4 := Slide(b, col, row, 0, 1, w), Slide(b, col, row, 0, -1, w);
    SoundAppend(b, s1, s2, w);
    SoundAppend(b, s1 + s2, s3, w);
    SoundAppend(b, s1 + s2 + s3, s4, w);
  }

  lemma BishopSound(b: Rows, col: int, row: int, w: bool)
    requires OnBoard(col, row)
    ensures Sound(b, BishopMoves(b, col, row, w), w)
  {
    SlideSound(b, col, row, 1, 1, w);
    SlideSound(b, col, row, -1, 1, w);
    SlideSound(b, col, row, 1, -1, w);
    SlideSound(b, col, row, -1, -1, w);
    var s1, s2 := Slide(b, col, row, 1, 1, w), Slide(b, col, row, -1, 1, w);
    var s3, s4 := Slide(b, col, row, 1, -1, w), Slide(b, col, row, -1, -1, w);
    SoundAppend(b, s1, s2, w);
    SoundAppend(b, s1 + s2, s3, w);
    SoundAppend(b, s1 + s2 + s3, s4, w);
  }

  /** The concatenation of eight single probes is sound when each is. */
  lemma SoundAppend8(b: Rows, w: bool, p1: seq<int>, p2: seq<int>, p3: seq<int>, p4: seq<int>,
                     p5: seq<int>, p6: seq<int>, p7: seq<int>, p8: seq<int>)
    requires Sound(b, p1, w) && Sound(b, p2, w) && Sound(b, p3, w) && Sound(b, p4, w)
    requires Sound(b, p5, w) && Sound(b, p6, w) && Sound(b, p7, w) && Sound(b, p8, w)
    ensures Sound(b, p1 + p2 + p3 + p4 + p5 + p6 + p7 + p8, w)
  {
    SoundAppend(b, p1, p2, w);
    SoundAppend(b, p1 + p2, p3, w);
    SoundAppend(b, p1 + p2 + p3, p4, w);
    SoundAppend(b, p1 + p2 + p3 + p4, p5, w);
    SoundAppend(b, p1 + p2 + p3 + p4 + p5, p6, w);
    SoundAppend(b, p1 + p2 + p3 + p4 + p5 + p6, p7, w);
    SoundAppend(b, p1 + p2 + p3 + p4 + p5 + p6 + p7, p8, w);
  }

  lemma KnightSound(b: Rows, col: int, row: int, w: bool)
    requires OnBoard(col, row)
    ensures Sound(b, KnightMoves(b, col, row, w), w)
  {
    ProbeSound(b, Inc(Inc(col)), Inc(row), w, false);
    ProbeSound(b, Inc(col), Inc(Inc(row)), w, false);
    ProbeSound(b, Dec(col), Inc(Inc(row)), w, false);
    ProbeSound(b, Dec(Dec(col)), Inc(row), w, false);
    ProbeSound(b, Dec(Dec(col)), Dec(row), w, false);
    ProbeSound(b, Dec(col), Dec(Dec(row)), w, false);
    ProbeSound(b, Inc(col), Dec(Dec(row)), w, false);
    ProbeSound(b, Inc(Inc(col)), Dec(row), w, false);
    SoundAppend8(b, w,
      CheckMove(b, Inc(Inc(col)), Inc(row), w).added, CheckMove(b, Inc(col), Inc(Inc(row)), w).added,
      CheckMove(b, Dec(col), Inc(Inc(row)), w).added, CheckMove(b, Dec(Dec(col)), Inc(row), w).added,
      CheckMove(b, Dec(Dec(col)), Dec(row), w).added, CheckMove(b, Dec(col), Dec(Dec(row)), w).added,
      CheckMove(b, Inc(col), Dec(Dec(row)), w).added, CheckMove(b, Inc(Inc(col)), Dec(row), w).added);
  }

  lemma KingSound(b: Rows, col: int, row: int, w: bool)
    requires OnBoard(col, row)
    ensures Sound(b, KingMoves(b, col, row, w), w)
  {
    ProbeSound(b, Inc(col), row, w, false);
    ProbeSound(b, Inc(col), Inc(row), w, false);
    ProbeSound(b, col, Inc(row), w, false);
    ProbeSound(b, Dec(col), Inc(row), w, false);
    ProbeSound(b, Dec(col), row, w, false);
    ProbeSound(b, Dec(col), Dec(row), w, false);
    ProbeSound(b, col, Dec(row), w, false);
    ProbeSound(b, Inc(col), Dec(row), w, false);
    SoundAppend8(b, w,
      CheckMove(b, Inc(col), row, w).added, CheckMove(b, Inc(col), Inc(row), w).added,
      CheckMove(b, col, Inc(row), w).added, CheckMove(b, Dec(col), Inc(row), w).added,
      CheckMove(b, Dec(col), row, w).added, CheckMove(b, Dec(col), Dec(row), w).added,
      CheckMove(b, col, Dec(row), w).added, CheckMove(b, Inc(col), Dec(row), w).added);
  }

  // ---------------------------------------------------------------------
  // The geometry of a sliding loop.

  /** The coordinate k steps from p in direction d. */
  function Offset(p: int, k: int, d: int): int
  {
    if d > 0 then p + k else if d < 0 then p - k else p
  }

  /** The square k steps from (c, r) along (dc, dr). */
  function Along(c: int, r: int, dc: int, dr: int, k: int): Square
  {
    (Offset(c, k, dc), Offset(r, k, dr))
  }

  /** The value a loop variable holds after k steps from p: the coordinate, or
      the sentinel -1 once that has left the board. */
  function Cursor(p: int, k: int, d: int): int
  {
    if 0 <= Offset(p, k, d) <= 7 then Offset(p, k, d) else -1
  }

  /** `ray` is exactly what a sliding loop appends when its first probe is m
      steps from (c, r): the squares m, m+1, ... along (dc, dr), all empty but
      the last, which is a target; and the walk ended because the last square
      held an opponent, or the next square is off the board or holds an own
      piece. */
  predicate RayShape(b: Rows, c: int, r: int, dc: int, dr: int, white: bool, m: int, ray: seq<int>)
  {
    |ray| % 2 == 0 && OnLine(c, r, dc, dr, m, ray) && ClearBefore(b, ray) && Ends(b, c, r, dc, dr, white, m, ray)
  }

  /** The pairs of ray are the squares m, m+1, ... along (dc, dr). */
  predicate OnLine(c: int, r: int, dc: int, dr: int, m: int, ray: seq<int>)
  {
    forall k :: 0 <= k < |ray| / 2 ==> PairAt(ray, k) == Along(c, r, dc, dr, m + k)
  }

  /** Every pair of ray but the last is an empty square. */
  predicate ClearBefore(b: Rows, ray: seq<int>)
  {
    forall k :: 0 <= k < |ray| / 2 - 1 ==> Empty(b, PairAt(ray, k))
  }

  /** The last pair is a target, and the walk could not go on after it. */
  predicate Ends(b: Rows, c: int, r: int, dc: int, dr: int, white: bool, m: int, ray: seq<int>)
  {
    var n := |ray| / 2;
    (n > 0 ==> Target(b, PairAt(ray, n - 1), white))
    && ((n > 0 && Opponent(b, PairAt(ray, n - 1), white))
        || !OnBoard(Along(c, r, dc, dr, m + n).0, Along(c, r, dc, dr, m + n).1)
        || Own(b, Along(c, r, dc, dr, m + n), white))
  }

  lemma CursorStep(p: int, k: nat, d: int)
    requires -1 <= d <= 1 && 0 <= p <= 7 && 0 <= Offset(p, k, d) <= 7
    ensures Step(Cursor(p, k, d), d) == Cursor(p, k + 1, d)
  {
  }

  /** A probe that stops the loop ends the ray there. */
  lemma RayStops(b: Rows, c: int, r: int, dc: int, dr: int, white: bool, m: nat)
    requires OnBoard(c, r) && Direction(dc, dr)
    requires CheckMove(b, Cursor(c, m, dc), Cursor(r, m, dr), white).stop
    ensures RayShape(b, c, r, dc, dr, white, m, CheckMove(b, Cursor(c, m, dc), Cursor(r, m, dr), white).added)
  {
    var s := Along(c, r, dc, dr, m);
    var added := CheckMove(b, Cursor(c, m, dc), Cursor(r, m, dr), white).added;
    if Cursor(c, m, dc) < 0 || Cursor(r, m, dr) < 0 {
      assert !OnBoard(s.0, s.1);
      assert added == [];
    } else {
      assert s == (Cursor(c, m, dc), Cursor(r, m, dr));
      if added == [] {
        assert Own(b, s, white);
      } else {
        assert PairAt(added, 0) == s;
        assert Opponent(b, s, white);
      }
    }
  }

  /** An empty square in front of a ray extends it. */
  lemma RayGrows(b: Rows, c: int, r: int, dc: int, dr: int, white: bool, m: nat, rest: seq<int>)
    requires OnBoard(c, r) && Direction(dc, dr)
    requires Empty(b, Along(c, r, dc, dr, m))
    requires RayShape(b, c, r, dc, dr, white, m + 1, rest)
    ensures RayShape(b, c, r, dc, dr, white, m, [Offset(c, m, dc), Offset(r, m, dr)] + rest)
  {
    var s := Along(c, r, dc, dr, m);
    PairsOfCons(s.0, s.1, rest);
    GrowsOnLine(c, r, dc, dr, m, rest);
    GrowsClear(b, s, rest);
    GrowsEnds(b, c, r, dc, dr, white, m, rest);
  }

  lemma PairsOfCons(x: int, y: int, rest: seq<int>)
    ensures PairAt([x, y] + rest, 0) == (x, y)
    ensures forall k :: 1 <= k < |[x, y] + rest| / 2 ==> PairAt([x, y] + rest, k) == PairAt(rest, k - 1)
  {
    forall k | 1 <= k < |[x, y] + rest| / 2 ensures PairAt([x, y] + rest, k) == PairAt(rest, k - 1) {
      PairAtAppend([x, y], rest, k);
    }
  }

  lemma GrowsOnLine(c: int, r: int, dc: int, dr: int, m: int, rest: seq<int>)
    requires OnLine(c, r, dc, dr, m + 1, rest)
    requires forall k :: 1 <= k < |[Offset(c, m, dc), Offset(r, m, dr)] + rest| / 2 ==>
      PairAt([Offset(c, m, dc), Offset(r, m, dr)] + rest, k) == PairAt(rest, k - 1)
    requires PairAt([Offset(c, m, dc), Offset(r, m, dr)] + rest, 0) == (Offset(c, m, dc), Offset(r, m, dr))
    ensures OnLine(c, r, dc, dr, m, [Offset(c, m, dc), Offset(r, m, dr)] + rest)
  {
    var ray := [Offset(c, m, dc), Offset(r, m, dr)] + rest;
    forall k | 0 <= k < |ray| / 2 ensures PairAt(ray, k) == Along(c, r, dc, dr, m + k) {
      if k > 0 {
        assert PairAt(rest, k - 1) == Along(c, r, dc, dr, m + 1 + (k - 1));
      }
    }
  }

  lemma GrowsClear(b: Rows, s: Square, rest: seq<int>)
    requires Empty(b, s) && ClearBefore(b, rest)
    requires forall k :: 1 <= k < |[s.0, s.1] + rest| / 2 ==> PairAt([s.0, s.1] + rest, k) == PairAt(rest, k - 1)
    requires PairAt([s.0, s.1] + rest, 0) == s
    ensures ClearBefore(b, [s.0, s.1] + rest)
  {
    var ray := [s.0, s.1] + rest;
    forall k | 0 <= k < |ray| / 2 - 1 ensures Empty(b, PairAt(ray, k)) {
      if k > 0 {
        assert PairAt(ray, k) == PairAt(rest, k - 1);
      }
    }
  }

  lemma GrowsEnds(b: Rows, c: int, r: int, dc: int, dr: int, white: bool, m: int, rest: seq<int>)
    requires |rest| % 2 == 0 && Empty(b, Along(c, r, dc, dr, m)) && Ends(b, c, r, dc, dr, white, m + 1, rest)
    requires forall k :: 1 <= k < |[Offset(c, m, dc), Offset(r, m, dr)] + rest| / 2 ==>
      PairAt([Offset(c, m, dc), Offset(r, m, dr)] + rest, k) == PairAt(rest, k - 1)
    requires PairAt([Offset(c, m, dc), Offset(r, m, dr)] + rest, 0) == (Offset(c, m, dc), Offset(r, m, dr))
    ensures Ends(b, c, r, dc, dr, white, m, [Offset(c, m, dc), Offset(r, m, dr)] + rest)
  {
    var ray := [Offset(c, m, dc), Offset(r, m, dr)] + rest;
    var n := |rest| / 2;
    assert |ray| / 2 == n + 1;
    var next := Along(c, r, dc, dr, m + (n + 1));
    assert next == Along(c, r, dc, dr, (m + 1) + n);
    var last := if n > 0 then PairAt(rest, n - 1) else Along(c, r, dc, dr, m);
    assert PairAt(ray, |ray| / 2 - 1) == last;
    assert Along(c, r, dc, dr, m + |ray| / 2) == next;
    assert Target(b, last, white);
    assert Opponent(b, last, white) || !OnBoard(next.0, next.1) || Own(b, next, white);
  }

  /** A probe that lets the loop go on added an empty square. */
  lemma ProbePasses(b: Rows, i: int, j: int, white: bool)
    requires i <= 7 && j < 8 && !CheckMove(b, i, j, white).stop
    ensures i >= 0 && j >= 0 && CheckMove(b, i, j, white).added == [i, j] && Empty(b, (i, j))
  {
  }

  /** A probe that does not stop the loop: its square is empty and the
      loop goes on from the next one. */
  lemma RayUnrolls(b: Rows, c: int, r: int, dc: int, dr: int, white: bool, m: nat)
    requires OnBoard(c, r) && Direction(dc, dr)
    requires !CheckMove(b, Cursor(c, m, dc), Cursor(r, m, dr), white).stop
    ensures m < 8 && Empty(b, Along(c, r, dc, dr, m))
    ensures Ray(b, Cursor(c, m, dc), Cursor(r, m, dr), dc, dr, white)
      == [Offset(c, m, dc), Offset(r, m, dr)] + Ray(b, Cursor(c, m + 1, dc), Cursor(r, m + 1, dr), dc, dr, white)
  {
    var i, j := Cursor(c, m, dc), Cursor(r, m, dr);
    ProbePasses(b, i, j, white);
    assert 0 <= Offset(c, m, dc) <= 7 && 0 <= Offset(r, m, dr) <= 7;
    CursorStep(c, m, dc);
    CursorStep(r, m, dr);
  }

  lemma {:induction false} RayFrom(b: Rows, c: int, r: int, dc: int, dr: int, white: bool, m: nat)
    requires OnBoard(c, r) && Direction(dc, dr) && m <= 8
    ensures RayShape(b, c, r, dc, dr, white, m,
                     Ray(b, Cursor(c, m, dc), Cursor(r, m, dr), dc, dr, white))
    decreases 8 - m
  {
    if CheckMove(b, Cursor(c, m, dc), Cursor(r, m, dr), white).stop {
      RayStops(b, c, r, dc, dr, white, m);
    } else {
      RayUnrolls(b, c, r, dc, dr, white, m);
      RayFrom(b, c, r, dc, dr, white, m + 1);
      RayGrows(b, c, r, dc, dr, white, m,
               Ray(b, Cursor(c, m + 1, dc), Cursor(r, m + 1, dr), dc, dr, white));
    }
  }

  /** Each sliding loop of moves() walks its ray square by square and stops
      at the first occupied square, which it includes only when it holds an
      opposing piece (or at the edge of the board). */
  lemma {:induction false} SlideShape(b: Rows, c: int, r: int, dc: int, dr: int, white: bool)
    requires OnBoard(c, r) && Direction(dc, dr)
    ensures RayShape(b, c, r, dc, dr, white, 1, Slide(b, c, r, dc, dr, white))
  {
    CursorStep(c, 0, dc);
    CursorStep(r, 0, dr);
    RayFrom(b, c, r, dc, dr, white, 1);
  }

  // ---------------------------------------------------------------------
  // Pawns, knights and kings written out by their offsets.

  /** The direction a pawn moves in: up for light, down for dark. */
  function Forward(white: bool): int { if white then 1 else -1 }

  /** The row a pawn starts on: 1 for light, 6 for dark. */
  function HomeRow(white: bool): int { if white then 1 else 6 }

  /** The pawn rules square by square: one step forward onto an empty square;
      two steps from the home row when both squares are empty; one step
      diagonally forward onto an opposing piece, right before left. */
  function PawnRule(b: Rows, c: int, r: int, white: bool): seq<int>
    requires OnBoard(c, r)
  {
    var f := Forward(white);
    (if Empty(b, (c, r + f)) then [c, r + f] else [])
    + (if r == HomeRow(white) && Empty(b, (c, r + f)) && Empty(b, (c, r + 2 * f))
       then [c, r + 2 * f] else [])
    + (if Opponent(b, (c + 1, r + f), white) then [c + 1, r + f] else [])
    + (if Opponent(b, (c - 1, r + f), white) then [c - 1, r + f] else [])
  }

  lemma PawnStepProbe(b: Rows, c: int, r: int, white: bool)
    requires OnBoard(c, r)
    ensures var p := CheckPawnMove(b, c, if white then Inc(r) else Dec(r), false, white);
      p.added == (if Empty(b, (c, r + Forward(white))) then [c, r + Forward(white)] else [])
      && (p.stop <==> !Empty(b, (c, r + Forward(white))))
  {
  }

  lemma PawnDoubleProbe(b: Rows, c: int, r: int, white: bool)
    requires OnBoard(c, r) && r == HomeRow(white)
    ensures CheckPawnMove(b, c, if white then Inc(Inc(r)) else Dec(Dec(r)), false, white).added
      == (if Empty(b, (c, r + 2 * Forward(white))) then [c, r + 2 * Forward(white)] else [])
  {
  }

  lemma PawnCaptureProbe(b: Rows, c: int, r: int, white: bool, dc: int, i: int)
    requires OnBoard(c, r) && (dc == 1 || dc == -1)
    requires i == (if 0 <= c + dc <= 7 then c + dc else -1)
    ensures CheckPawnMove(b, i, if white then Inc(r) else Dec(r), true, white).added
      == (if Opponent(b, (c + dc, r + Forward(white)), white) then [c + dc, r + Forward(white)] else [])
  {
  }

  /** The pawn code agrees with the rules. */
  lemma PawnMovesRule(b: Rows, c: int, r: int, white: bool)
    requires OnBoard(c, r)
    ensures PawnMoves(b, c, r, white) == PawnRule(b, c, r, white)
  {
    PawnStepProbe(b, c, r, white);
    if r == HomeRow(white) {
      PawnDoubleProbe(b, c, r, white);
    }
    PawnCaptureProbe(b, c, r, white, 1, Inc(c));
    PawnCaptureProbe(b, c, r, white, -1, Dec(c));
  }

  /** A single jump: the square (c + dc, r + dr) when it is a target. */
  function Leap(b: Rows, c: int, r: int, dc: int, dr: int, white: bool): seq<int>
  {
    if Target(b, (c + dc, r + dr), white) then [c + dc, r + dr] else []
  }

  /** The jumps by the first n offsets of a list, in order. */
  function Leaps(b: Rows, c: int, r: int, white: bool, offsets: seq<Square>, n: nat): seq<int>
    requires n <= |offsets|
  {
    if n == 0 then []
    else Leaps(b, c, r, white, offsets, n - 1) + Leap(b, c, r, offsets[n - 1].0, offsets[n - 1].1, white)
  }

  lemma LeapsOf8(b: Rows, c: int, r: int, white: bool, o: seq<Square>)
    requires |o| == 8
    ensures Leaps(b, c, r, white, o, 8) ==
      Leap(b, c, r, o[0].0, o[0].1, white) + Leap(b, c, r, o[1].0, o[1].1, white)
      + Leap(b, c, r, o[2].0, o[2].1, white) + Leap(b, c, r, o[3].0, o[3].1, white)
      + Leap(b, c, r, o[4].0, o[4].1, white) + Leap(b, c, r, o[5].0, o[5].1, white)
      + Leap(b, c, r, o[6].0, o[6].1, white) + Leap(b, c, r, o[7].0, o[7].1, white)
  {
    assert Leaps(b, c, r, white, o, 1) == Leap(b, c, r, o[0].0, o[0].1, white);
    assert Leaps(b, c, r, white, o, 2) == Leaps(b, c, r, white, o, 1) + Leap(b, c, r, o[1].0, o[1].1, white);
    assert Leaps(b, c, r, white, o, 3) == Leaps(b, c, r, white, o, 2) + Leap(b, c, r, o[2].0, o[2].1, white);
    assert Leaps(b, c, r, white, o, 4) == Leaps(b, c, r, white, o, 3) + Leap(b, c, r, o[3].0, o[3].1, white);
    assert Leaps(b, c, r, white, o, 5) == Leaps(b, c, r, white, o, 4) + Leap(b, c, r, o[4].0, o[4].1, white);
    assert Leaps(b, c, r, white, o, 6) == Leaps(b, c, r, white, o, 5) + Leap(b, c, r, o[5].0, o[5].1, white);
    assert Leaps(b, c, r, white, o, 7) == Leaps(b, c, r, white, o, 6) + Leap(b, c, r, o[6].0, o[6].1, white);
  }

  const KnightJumps: seq<Square> := [(2, 1), (1, 2), (-1, 2), (-2, 1), (-2, -1), (-1, -2), (1, -2), (2, -1)]
  const KingSteps: seq<Square> := [(1, 0), (1, 1), (0, 1), (-1, 1), (-1, 0), (-1, -1), (0, -1), (1, -1)]

  /** checkMove on a stepped coordinate is the jump by that offset. */
  lemma ProbeIsLeap(b: Rows, c: int, r: int, dc: int, dr: int, white: bool, i: int, j: int)
    requires OnBoard(c, r)
    requires i == (if 0 <= c + dc <= 7 then c + dc else -1)
    requires j == (if 0 <= r + dr <= 7 then r + dr else -1)
    ensures CheckMove(b, i, j, white).added == Leap(b, c, r, dc, dr, white)
  {
  }

  /** The knight code tries the jumps of KnightJumps, in that order. */
  lemma {:induction false} KnightMovesRule(b: Rows, c: int, r: int, white: bool)
    requires OnBoard(c, r)
    ensures KnightMoves(b, c, r, white) == Leaps(b, c, r, white, KnightJumps, 8)
  {
    LeapsOf8(b, c, r, white, KnightJumps);
    assert KnightJumps[0] == (2, 1) && KnightJumps[1] == (1, 2) && KnightJumps[2] == (-1, 2) && KnightJumps[3] == (-2, 1);
    assert KnightJumps[4] == (-2, -1) && KnightJumps[5] == (-1, -2) && KnightJumps[6] == (1, -2) && KnightJumps[7] == (2, -1);
    KnightProbes(b, c, r, white);
  }

  lemma KnightProbes(b: Rows, c: int, r: int, white: bool)
    requires OnBoard(c, r)
    ensures CheckMove(b, Inc(Inc(c)), Inc(r), white).added == Leap(b, c, r, 2, 1, white)
    ensures CheckMove(b, Inc(c), Inc(Inc(r)), white).added == Leap(b, c, r, 1, 2, white)
    ensures CheckMove(b, Dec(c), Inc(Inc(r)), white).added == Leap(b, c, r, -1, 2, white)
    ensures CheckMove(b, Dec(Dec(c)), Inc(r), white).added == Leap(b, c, r, -2, 1, white)
    ensures CheckMove(b, Dec(Dec(c)), Dec(r), white).added == Leap(b, c, r, -2, -1, white)
    ensures CheckMove(b, Dec(c), Dec(Dec(r)), white).added == Leap(b, c, r, -1, -2, white)
    ensures CheckMove(b, Inc(c), Dec(Dec(r)), white).added == Leap(b, c, r, 1, -2, white)
    ensures CheckMove(b, Inc(Inc(c)), Dec(r), white).added == Leap(b, c, r, 2, -1, white)
  {
    ProbeIsLeap(b, c, r, 2, 1, white, Inc(Inc(c)), Inc(r));
    ProbeIsLeap(b, c, r, 1, 2, white, Inc(c), Inc(Inc(r)));
    ProbeIsLeap(b, c, r, -1, 2, white, Dec(c), Inc(Inc(r)));
    ProbeIsLeap(b, c, r, -2, 1, white, Dec(Dec(c)), Inc(r));
    ProbeIsLeap(b, c, r, -2, -1, white, Dec(Dec(c)), Dec(r));
    ProbeIsLeap(b, c, r, -1, -2, white, Dec(c), Dec(Dec(r)));
    ProbeIsLeap(b, c, r, 1, -2, white, Inc(c), Dec(Dec(r)));
    ProbeIsLeap(b, c, r, 2, -1, white, Inc(Inc(c)), Dec(r));
  }

  /** The king code tries the steps of KingSteps, in that order. */
  lemma {:induction false} KingMovesRule(b: Rows, c: int, r: int, white: bool)
    requires OnBoard(c, r)
    ensures KingMoves(b, c, r, white) == Leaps(b, c, r, white, KingSteps, 8)
  {
    LeapsOf8(b, c, r, white, KingSteps);
    assert KingSteps[0] == (1, 0) && KingSteps[1] == (1, 1) && KingSteps[2] == (0, 1) && KingSteps[3] == (-1, 1);
    assert KingSteps[4] == (-1, 0) && KingSteps[5] == (-1, -1) && KingSteps[6] == (0, -1) && KingSteps[7] == (1, -1);
    KingProbes(b, c, r, white);
  }

  lemma KingProbes(b: Rows, c: int, r: int, white: bool)
    requires OnBoard(c, r)
    ensures CheckMove(b, Inc(c), r, white).added == Leap(b, c, r, 1, 0, white)
    ensures CheckMove(b, Inc(c), Inc(r), white).added == Leap(b, c, r, 1, 1, white)
    ensures CheckMove(b, c, Inc(r), white).added == Leap(b, c, r, 0, 1, white)
    ensures CheckMove(b, Dec(c), Inc(r), white).added == Leap(b, c, r, -1, 1, white)
    ensures CheckMove(b, Dec(c), r, white).added == Leap(b, c, r, -1, 0, white)
    ensures CheckMove(b, Dec(c), Dec(r), white).added == Leap(b, c, r, -1, -1, white)
    ensures CheckMove(b, c, Dec(r), white).added == Leap(b, c, r, 0, -1, white)
    ensures CheckMove(b, Inc(c), Dec(r), white).added == Leap(b, c, r, 1, -1, white)
  {
    ProbeIsLeap(b, c, r, 1, 0, white, Inc(c), r);
    ProbeIsLeap(b, c, r, 1, 1, white, Inc(c), Inc(r));
    ProbeIsLeap(b, c, r, 0, 1, white, c, Inc(r));
    ProbeIsLeap(b, c, r, -1, 1, white, Dec(c), Inc(r));
    ProbeIsLeap(b, c, r, -1, 0, white, Dec(c), r);
    ProbeIsLeap(b, c, r, -1, -1, white, Dec(c), Dec(r));
    ProbeIsLeap(b, c, r, 0, -1, white, c, Dec(r));
    ProbeIsLeap(b, c, r, 1, -1, white, Inc(c), Dec(r));
  }
}
