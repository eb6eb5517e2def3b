/** heuristic() and didWin() on the board value: the signed material sum,
    plus the jitter nextInt(3) - 1 that a seeded java.util.Random adds. */
module Eval {
  import opened Board
  import opened MoveGen
  import opened Rules

  /** Integer.MIN_VALUE and Integer.MAX_VALUE, the search's sentinels. */
  const MinValue: int := -0x8000_0000
  const MaxValue: int := 0x7fff_ffff

  /** The values of the switch in heuristic(). */
  function PieceValue(p: int): (v: int)
    requires IsPieceCode(p)
    ensures 0 <= v <= 500
    ensures v == 0 <==> p == None
  {
    if p == Pawn then 10
    else if p == Rook then 63
    else if p == Knight then 31
    else if p == Bishop then 36
    else if p == Queen then 88
    else if p == King then 500
    else 0
  }

  /** A value counted for light (white) and against dark. */
  function Signed(white: bool, v: int): int
  {
    if white then v else -v
  }

  /** A square's contribution: its value, counted for light and against dark. */
  function SquareValue(b: Rows, c: int, r: int): int
    requires WellFormed(b) && OnBoard(c, r)
  {
    Signed(IsWhite(b, c, r), PieceValue(GetPiece(b, c, r)))
  }

  /** The sum over the first n squares of row y (heuristic()'s inner loop). */
  function RowValue(b: Rows, y: int, n: nat): int
    requires WellFormed(b) && 0 <= y < 8 && n <= 8
  {
    if n == 0 then 0 else RowValue(b, y, n - 1) + SquareValue(b, n - 1, y)
  }

  /** The sum over the first m rows (heuristic()'s outer loop). */
  function RowsValue(b: Rows, m: nat): int
    requires WellFormed(b) && m <= 8
  {
    if m == 0 then 0 else RowsValue(b, m - 1) + RowValue(b, m - 1, 8)
  }

  /** The whole signed material sum (positive favours light). */
  function Material(b: Rows): int
    requires WellFormed(b)
  {
    RowsValue(b, 8)
  }

  /** A value of rand.nextInt(3). */
  type Roll = r: int | 0 <= r < 3

  /** heuristic(rand) when rand.nextInt(3) returns roll. */
  function Heuristic(b: Rows, roll: Roll): int
    requires WellFormed(b)
  {
    Material(b) + roll - 1
  }

  /** The jitter the program draws.  new Random(3).nextInt(3) and
      new Random(66).nextInt(3) are fixed by their seeds; getChildStates seeds
      its k-th child's generator with the k-th nextInt() of a fresh
      new Random(3), so the k-th child's roll is a fixed function of k. */
  datatype Jitter = Jitter(roll3: Roll, roll66: Roll, child: nat -> Roll)

  /** didWin: dark has won (seed 3) or light has won (seed 66). */
  predicate DidWin(b: Rows, j: Jitter)
    requires WellFormed(b)
  {
    Heuristic(b, j.roll3) <= -500 || Heuristic(b, j.roll66) >= 500
  }

  /** The heuristic field didWin leaves behind: `||` skips the second call
      when the first one already reports a win. */
  function DidWinField(b: Rows, j: Jitter): int
    requires WellFormed(b)
  {
    if Heuristic(b, j.roll3) <= -500 then Heuristic(b, j.roll3) else Heuristic(b, j.roll66)
  }

  // ---------------------------------------------------------------------

  /** The score stays within 500 per square counted, so heuristic() never
      overflows a Java int nor reaches the search's sentinels. */
  lemma {:induction false} RowBound(b: Rows, y: int, n: nat)
    requires WellFormed(b) && 0 <= y < 8 && n <= 8
    ensures -500 * n <= RowValue(b, y, n) <= 500 * n
  {
    if n > 0 {
      RowBound(b, y, n - 1);
    }
  }

  lemma {:induction false} MaterialBound(b: Rows, m: nat)
    requires WellFormed(b) && m <= 8
    ensures -4000 * m <= RowsValue(b, m) <= 4000 * m
  {
    if m > 0 {
      MaterialBound(b, m - 1);
      RowBound(b, m - 1, 8);
    }
  }

  lemma HeuristicRange(b: Rows, roll: Roll)
    requires WellFormed(b)
    ensures -32001 <= Heuristic(b, roll) <= 32001
    ensures MinValue < Heuristic(b, roll) < MaxValue
  {
    MaterialBound(b, 8);
  }

  /** How much square s gains in value from b to b'. */
  function Gain(b: Rows, b': Rows, s: Square): int
    requires WellFormed(b) && WellFormed(b') && OnBoard(s.0, s.1)
  {
    SquareValue(b', s.0, s.1) - SquareValue(b, s.0, s.1)
  }

  /** Boards whose squares have the same values except possibly s1 and s2. */
  ghost predicate Differ2(b: Rows, b': Rows, s1: Square, s2: Square)
  {
    WellFormed(b) && WellFormed(b') && OnBoard(s1.0, s1.1) && OnBoard(s2.0, s2.1) && s1 != s2
    && forall c, r :: OnBoard(c, r) && (c, r) != s1 && (c, r) != s2 ==>
      SquareValue(b', c, r) == SquareValue(b, c, r)
  }

  /** The part of the gains at s1 and s2 counted by the first n squares of row y. */
  function RowGain(b: Rows, b': Rows, s1: Square, s2: Square, y: int, n: int): int
    requires Differ2(b, b', s1, s2)
  {
    (if s1.1 == y && s1.0 < n then Gain(b, b', s1) else 0)
    + (if s2.1 == y && s2.0 < n then Gain(b, b', s2) else 0)
  }

  lemma {:induction false} RowDiff(b: Rows, b': Rows, s1: Square, s2: Square, y: int, n: nat)
    requires Differ2(b, b', s1, s2) && 0 <= y < 8 && n <= 8
    ensures RowValue(b', y, n) - RowValue(b, y, n) == RowGain(b, b', s1, s2, y, n)
  {
    if n > 0 {
      RowDiff(b, b', s1, s2, y, n - 1);
      RowGainStep(b, b', s1, s2, y, n);
      assert RowValue(b', y, n) == RowValue(b', y, n - 1) + SquareValue(b', n - 1, y);
      assert RowValue(b, y, n) == RowValue(b, y, n - 1) + SquareValue(b, n - 1, y);
    }
  }

  /** Square n - 1 of row y adds its own change to the row's gain. */
  lemma RowGainStep(b: Rows, b': Rows, s1: Square, s2: Square, y: int, n: int)
    requires Differ2(b, b', s1, s2) && 0 <= y < 8 && 1 <= n <= 8
    ensures RowGain(b, b', s1, s2, y, n) ==
      RowGain(b, b', s1, s2, y, n - 1) + SquareValue(b', n - 1, y) - SquareValue(b, n - 1, y)
  {
    var d := SquareValue(b', n - 1, y) - SquareValue(b, n - 1, y);
    var g1 := if s1.1 == y && s1.0 < n - 1 then Gain(b, b', s1) else 0;
    var g2 := if s2.1 == y && s2.0 < n - 1 then Gain(b, b', s2) else 0;
    assert RowGain(b, b', s1, s2, y, n - 1) == g1 + g2;
    if (n - 1, y) == s1 {
      assert g1 == 0 && Gain(b, b', s1) == d;
      assert RowGain(b, b', s1, s2, y, n) == d + g2;
    } else if (n - 1, y) == s2 {
      assert g2 == 0 && Gain(b, b', s2) == d;
      assert RowGain(b, b', s1, s2, y, n) == g1 + d;
    } else {
      assert d == 0;
      assert RowGain(b, b', s1, s2, y, n) == g1 + g2;
    }
  }

  /** Material changes only through the squares whose value changes. */
  lemma {:induction false} MaterialDiff(b: Rows, b': Rows, s1: Square, s2: Square, m: nat)
    requires Differ2(b, b', s1, s2) && m <= 8
    ensures RowsValue(b', m) - RowsValue(b, m) ==
      (if s1.1 < m then Gain(b, b', s1) else 0) + (if s2.1 < m then Gain(b, b', s2) else 0)
  {
    if m > 0 {
      MaterialDiff(b, b', s1, s2, m - 1);
      RowDiff(b, b', s1, s2, m - 1, 8);
    }
  }

  /** A move that takes no king changes the material balance, in the mover's
      favour, by the value of the piece it takes plus what a promotion adds
      (a queen for a pawn). */
  lemma {:induction false} MoveMaterial(b: Rows, xs: int, ys: int, xd: int, yd: int)
    requires WellFormed(b) && ApplyMove(b, xs, ys, xd, yd).Ok?
    requires !ApplyMove(b, xs, ys, xd, yd).value.kingTaken
    ensures WellFormed(ApplyMove(b, xs, ys, xd, yd).value.board)
    ensures Material(ApplyMove(b, xs, ys, xd, yd).value.board) == Material(b) +
      Signed(IsWhite(b, xs, ys),
        PieceValue(Promoted(GetPiece(b, xs, ys), yd)) - PieceValue(GetPiece(b, xs, ys)) + PieceValue(GetPiece(b, xd, yd)))
  {
    var after := ApplyMove(b, xs, ys, xd, yd).value.board;
    var w, p, t := IsWhite(b, xs, ys), GetPiece(b, xs, ys), GetPiece(b, xd, yd);
    MoveWellFormed(b, xs, ys, xd, yd);
    MovePlaces(b, xs, ys, xd, yd);
    MoveErrors(b, xs, ys, xd, yd);
    forall c, r | OnBoard(c, r) && (c, r) != (xs, ys) && (c, r) != (xd, yd)
      ensures SquareValue(after, c, r) == SquareValue(b, c, r)
    {
      MoveFrame(b, xs, ys, xd, yd, c, r);
    }
    MaterialDiff(b, after, (xs, ys), (xd, yd), 8);
    assert Gain(b, after, (xs, ys)) == -Signed(w, PieceValue(p));
    assert t != None ==> IsWhite(b, xd, yd) != w;
    assert SquareValue(b, xd, yd) == -Signed(w, PieceValue(t));
    assert Gain(b, after, (xd, yd)) == Signed(w, PieceValue(Promoted(p, yd))) + Signed(w, PieceValue(t));
  }
}
