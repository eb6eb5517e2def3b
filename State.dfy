/** The ChessState object: the eight packed rows in an array, the heuristic
    field, and the methods that read and change them, each proved against the
    board-value functions of Board, MoveGen, Rules and Eval. */
module State {
  import opened Board
  import opened MoveGen
  import opened Rules
  import opened Eval

  /** Squares 0 .. n-1 (row-major) hold the nibbles of the starting position. */
  ghost predicate Placed(b: Rows, n: int)
  {
    forall c, r :: OnBoard(c, r) && 8 * r + c < n ==> Nibble(b[r], c) == InitialCode(c, r)
  }

  /** One setPiece call of resetBoard writes the next square's nibble. */
  lemma PlaceNext(b: Rows, c: int, r: int, piece: int, white: bool)
    requires OnBoard(c, r) && IsCode(piece) && Placed(b, 8 * r + c)
    requires Code(piece, white) == InitialCode(c, r)
    ensures Placed(Board.SetPiece(b, c, r, piece, white), 8 * r + c + 1)
  {
    var b' := Board.SetPiece(b, c, r, piece, white);
    forall cc, rr | OnBoard(cc, rr) && 8 * rr + cc < 8 * r + c + 1
      ensures Nibble(b'[rr], cc) == InitialCode(cc, rr)
    {
      if rr == r {
        InsertNibble(b[r], c, Code(piece, white), cc);
        assert cc % 8 == cc && c % 8 == c;
      } else {
        assert b'[rr] == b[rr];
      }
    }
  }

  /** All 64 nibbles placed: the rows are the starting constant. */
  lemma PlacedAll(b: Rows)
    requires Placed(b, 64)
    ensures b == InitialRows
  {
    InitialRowsNibbles();
    forall r | 0 <= r < 8 ensures b[r] == InitialRows[r] {
      WordOfNibbles(b[r], InitialRows[r]);
    }
  }

  /** The eight explicit setPiece calls of a back rank, left to right. */
  function BackRankSet(b: Rows, row: int, white: bool): Rows
    requires 0 <= row < 8
  {
    var b1 := Board.SetPiece(b, 0, row, Rook, white);
    var b2 := Board.SetPiece(b1, 1, row, Knight, white);
    var b3 := Board.SetPiece(b2, 2, row, Bishop, white);
    var b4 := Board.SetPiece(b3, 3, row, Queen, white);
    var b5 := Board.SetPiece(b4, 4, row, King, white);
    var b6 := Board.SetPiece(b5, 5, row, Bishop, white);
    var b7 := Board.SetPiece(b6, 6, row, Knight, white);
    Board.SetPiece(b7, 7, row, Rook, white)
  }

  lemma PlaceBackRank(b: Rows, row: int, white: bool)
    requires (row == 0 && white) || (row == 7 && !white)
    requires Placed(b, 8 * row)
    ensures Placed(BackRankSet(b, row, white), 8 * row + 8)
  {
    var b1 := Board.SetPiece(b, 0, row, Rook, white);
    PlaceNext(b, 0, row, Rook, white);
    var b2 := Board.SetPiece(b1, 1, row, Knight, white);
    PlaceNext(b1, 1, row, Knight, white);
    var b3 := Board.SetPiece(b2, 2, row, Bishop, white);
    PlaceNext(b2, 2, row, Bishop, white);
    var b4 := Board.SetPiece(b3, 3, row, Queen, white);
    PlaceNext(b3, 3, row, Queen, white);
    var b5 := Board.SetPiece(b4, 4, row, King, white);
    PlaceNext(b4, 4, row, King, white);
    var b6 := Board.SetPiece(b5, 5, row, Bishop, white);
    PlaceNext(b5, 5, row, Bishop, white);
    var b7 := Board.SetPiece(b6, 6, row, Knight, white);
    PlaceNext(b6, 6, row, Knight, white);
    PlaceNext(b7, 7, row, Rook, white);
  }

  lemma InitialWellFormed()
    ensures WellFormed(InitialRows)
  {
    forall c, r | OnBoard(c, r) ensures IsPieceCode(GetPiece(InitialRows, c, r)) {
      InitialPosition(c, r);
    }
  }

  lemma MoveWellFormedIf(b: Rows, xs: int, ys: int, xd: int, yd: int)
    requires ApplyMove(b, xs, ys, xd, yd).Ok?
    ensures WellFormed(b) ==> WellFormed(ApplyMove(b, xs, ys, xd, yd).value.board)
  {
    if WellFormed(b) {
      MoveWellFormed(b, xs, ys, xd, yd);
    }
  }

  lemma Assoc<T>(a: seq<T>, b: seq<T>, c: seq<T>)
    ensures a + (b + c) == (a + b) + c
  {
  }

  /** One probe of a sliding loop: it either ends the ray or is followed by
      the rest of the ray. */
  lemma RayStep(b: Rows, col: int, row: int, dc: int, dr: int, white: bool)
    requires row < 8 && Direction(dc, dr)
    ensures var p := MoveGen.CheckMove(b, col, row, white);
      Ray(b, col, row, dc, dr, white) == if p.stop then p.added else p.added + Ray(b, Step(col, dc), Step(row, dr), dc, dr, white)
  {
  }

  lemma Append4<T>(m: seq<T>, s1: seq<T>, s2: seq<T>, s3: seq<T>, s4: seq<T>)
    ensures m + s1 + s2 + s3 + s4 == m + (s1 + s2 + s3 + s4)
  {
  }

  /** None of the first n pairs of m is (c, r): isValidMove's scan so far. */
  ghost predicate Unseen(m: seq<int>, n: int, c: int, r: int)
  {
    forall k :: 0 <= k < n && k < |m| / 2 ==> PairAt(m, k) != (c, r)
  }

  lemma UnseenStep(m: seq<int>, n: nat, c: int, r: int)
    requires Unseen(m, n, c, r) && 2 * n + 1 < |m|
    requires m[2 * n] != c || m[2 * n + 1] != r
    ensures Unseen(m, n + 1, c, r)
  {
  }

  lemma UnseenAll(m: seq<int>, n: nat, c: int, r: int)
    requires Unseen(m, n, c, r) && |m| == 2 * n
    ensures !Listed(m, c, r)
  {
  }

  lemma Append8<T>(m: seq<T>, s1: seq<T>, s2: seq<T>, s3: seq<T>, s4: seq<T>,
                   s5: seq<T>, s6: seq<T>, s7: seq<T>, s8: seq<T>)
    ensures m + s1 + s2 + s3 + s4 + s5 + s6 + s7 + s8
         == m + (s1 + s2 + s3 + s4 + s5 + s6 + s7 + s8)
  {
  }

  /** Square (x, y) is step 8 * y + x of the cascade. */
  lemma ClearAt(b: Rows, white: bool, x: int, y: int, i: int)
    requires OnBoard(x, y) && i == 8 * y + x
    ensures var s := Sweep(b, white, i);
      Sweep(b, white, i + 1) ==
        if GetPiece(s, x, y) != None && IsWhite(s, x, y) != white then SetPiece(s, x, y, None, true) else s
  {
    SquareIndex(i, x, y);
  }

  lemma PrependEmpty<T>(s: seq<T>)
    ensures [] + s == s
  {
  }

  class ChessState {
    var rows: array<bv32>
    var heuristic: int

    /** Eight rows, each square holding a piece code 0 .. 6. */
    ghost predicate Valid()
      reads this`rows, rows
    {
      rows.Length == 8 && WellFormed(rows[..])
    }

    function Position(): Rows
      reads this`rows, rows
      requires rows.Length == 8
    {
      rows[..]
    }

    /** ChessState(): a zeroed array, then resetBoard. */
    constructor ()
      ensures Valid() && Position() == InitialRows && heuristic == 0 && fresh(rows)
    {
      rows := new bv32[8](_ => 0);
      heuristic := 0;
      new;
      ResetBoard();
      InitialWellFormed();
    }

    /** ChessState(that): a copy of that's rows; the heuristic field starts at 0. */
    constructor Copy(that: ChessState)
      requires that.rows.Length == 8
      ensures rows.Length == 8 && Position() == that.Position() && heuristic == 0 && fresh(rows)
    {
      var a := new bv32[8](_ => 0);
      for i := 0 to 8
        invariant forall k :: 0 <= k < i ==> a[k] == that.rows[k]
      {
        a[i] := that.rows[i];
      }
      rows := a;
      heuristic := 0;
    }

    /** setPiece: clear the nibble of column col, then OR in the new code. */
    method SetPiece(col: int, row: int, piece: int, white: bool)
      requires rows.Length == 8 && 0 <= row < 8 && IsCode(piece)
      modifies rows
      ensures Position() == Board.SetPiece(old(Position()), col, row, piece, white)
    {
      InsertSteps(rows[row], col, Code(piece, white));
      rows[row] := Cleared(rows[row], col);
      rows[row] := Filled(rows[row], col, Code(piece, white));
    }

    /** resetBoard: the back ranks, the pawn ranks and the empty middle, in
        the order the source writes them (which is row-major throughout). */
    method ResetBoard()
      requires rows.Length == 8
      modifies rows
      ensures Position() == InitialRows
    {
      ghost var b := Position();
      SetPiece(0, 0, Rook, true);
      SetPiece(1, 0, Knight, true);
      SetPiece(2, 0, Bishop, true);
      SetPiece(3, 0, Queen, true);
      SetPiece(4, 0, King, true);
      SetPiece(5, 0, Bishop, true);
      SetPiece(6, 0, Knight, true);
      SetPiece(7, 0, Rook, true);
      PlaceBackRank(b, 0, true);
      for i := 0 to 8
        invariant Placed(Position(), 8 + i)
      {
        PlaceNext(Position(), i, 1, Pawn, true);
        SetPiece(i, 1, Pawn, true);
      }
      for j := 2 to 6
        invariant Placed(Position(), 8 * j)
      {
        for i := 0 to 8
          invariant Placed(Position(), 8 * j + i)
        {
          PlaceNext(Position(), i, j, None, false);
          SetPiece(i, j, None, false);
        }
      }
      for i := 0 to 8
        invariant Placed(Position(), 48 + i)
      {
        PlaceNext(Position(), i, 6, Pawn, false);
        SetPiece(i, 6, Pawn, false);
      }
      b := Position();
      SetPiece(0, 7, Rook, false);
      SetPiece(1, 7, Knight, false);
      SetPiece(2, 7, Bishop, false);
      SetPiece(3, 7, Queen, false);
      SetPiece(4, 7, King, false);
      SetPiece(5, 7, Bishop, false);
      SetPiece(6, 7, Knight, false);
      SetPiece(7, 7, Rook, false);
      PlaceBackRank(b, 7, false);
      PlacedAll(Position());
    }

    /** setHeuristic. */
    method SetHeuristic(h: int)
      modifies this`heuristic
      ensures heuristic == h
    {
      heuristic := h;
    }

    /** heuristic(rand), rand.nextInt(3) being `roll`: the row-major material
        sum plus roll - 1, stored in the field and returned.  On a valid board
        the "what?" default of the switch is never reached. */
    method Heuristic(roll: Roll) returns (h: int)
      requires Valid()
      modifies this`heuristic
      ensures h == heuristic == Eval.Heuristic(Position(), roll)
    {
      ghost var b := Position();
      var score := 0;
      for y := 0 to 8
        invariant score == RowsValue(b, y)
      {
        for x := 0 to 8
          invariant score == RowsValue(b, y) + RowValue(b, y, x)
        {
          var p := GetPiece(rows[..], x, y);
          var value := PieceValue(p);
          if IsWhite(rows[..], x, y) {
            score := score + value;
          } else {
            score := score - value;
          }
        }
      }
      heuristic := score + roll - 1;
      h := heuristic;
    }

    /** checkMove, with the ArrayList threaded through as a sequence. */
    method CheckMove(m: seq<int>, col: int, row: int, white: bool) returns (m': seq<int>, stop: bool)
      requires rows.Length == 8 && row < 8
      ensures m' == m + MoveGen.CheckMove(Position(), col, row, white).added
      ensures stop == MoveGen.CheckMove(Position(), col, row, white).stop
    {
      if col < 0 || row < 0 {
        return m, true;
      }
      var p := GetPiece(rows[..], col, row);
      if p > 0 && IsWhite(rows[..], col, row) == white {
        return m, true;
      }
      m' := m + [col, row];
      stop := p > 0;
    }

    /** checkPawnMove, likewise. */
    method CheckPawnMove(m: seq<int>, col: int, row: int, diagonal: bool, white: bool) returns (m': seq<int>, stop: bool)
      requires rows.Length == 8 && row < 8
      ensures m' == m + MoveGen.CheckPawnMove(Position(), col, row, diagonal, white).added
      ensures stop == MoveGen.CheckPawnMove(Position(), col, row, diagonal, white).stop
    {
      if col < 0 || row < 0 {
        return m, true;
      }
      var p := GetPiece(rows[..], col, row);
      if diagonal {
        if p == None || IsWhite(rows[..], col, row) == white {
          return m, true;
        }
      } else {
        if p > 0 {
          return m, true;
        }
      }
      m' := m + [col, row];
      stop := p > 0;
    }

    /** One `for(i = step(col), j = step(row); true; i = step(i), j = step(j))
        if(checkMove(pOutMoves, i, j, bWhite)) break;` loop of moves(). */
    method Slide(m: seq<int>, col: int, row: int, dc: int, dr: int, white: bool) returns (m': seq<int>)
      requires rows.Length == 8 && 0 <= row < 8 && Direction(dc, dr)
      ensures m' == m + MoveGen.Slide(Position(), col, row, dc, dr, white)
    {
      ghost var b := Position();
      ghost var all := m + MoveGen.Slide(b, col, row, dc, dr, white);
      var i, j := Step(col, dc), Step(row, dr);
      m' := m;
      while true
        invariant j < 8
        invariant m' + Ray(b, i, j, dc, dr, white) == all
        decreases Span(i, dc) + Span(j, dr)
      {
        var stop;
        ghost var before := m';
        ghost var probe := MoveGen.CheckMove(b, i, j, white);
        RayStep(b, i, j, dc, dr, white);
        m', stop := CheckMove(m', i, j, white);
        if stop {
          return;
        }
        ghost var rest := Ray(b, Step(i, dc), Step(j, dr), dc, dr, white);
        Assoc(before, probe.added, rest);
        i, j := Step(i, dc), Step(j, dr);
      }
    }

    /** moves(col, row): the switch on the piece, each case calling
        checkPawnMove / checkMove or running its sliding loops in the
        source's order. */
    method Moves(col: int, row: int) returns (m: seq<int>)
      requires rows.Length == 8 && 0 <= row < 8
      ensures m == MoveGen.Moves(Position(), col, row)
    {
      ghost var b := Position();
      m := [];
      var p := GetPiece(rows[..], col, row);
      var w := IsWhite(rows[..], col, row);
      if p == Pawn {
        m := PawnProbes(m, col, row, w);
        PrependEmpty(PawnMoves(b, col, row, w));
      } else if p == Bishop {
        m := BishopLoops(m, col, row, w);
        PrependEmpty(BishopMoves(b, col, row, w));
      } else if p == Knight {
        m := KnightJumps(m, col, row, w);
        PrependEmpty(KnightMoves(b, col, row, w));
      } else if p == Rook {
        m := RookLoops(m, col, row, w);
        PrependEmpty(RookMoves(b, col, row, w));
      } else if p == Queen {
        m := RookLoops(m, col, row, w);
        PrependEmpty(RookMoves(b, col, row, w));
        m := BishopLoops(m, col, row, w);
      } else if p == King {
        m := KingSteps(m, col, row, w);
        PrependEmpty(KingMoves(b, col, row, w));
      }
    }

    /** The pawn case of moves(): one step, the two-step from the home row
        when the first step was free, then the two captures. */
    method PawnProbes(m: seq<int>, col: int, row: int, w: bool) returns (m': seq<int>)
      requires rows.Length == 8 && 0 <= row < 8
      ensures m' == m + PawnMoves(Position(), col, row, w)
    {
      ghost var b := Position();
      var stop;
      var fwd := if w then Inc(row) else Dec(row);
      ghost var one := MoveGen.CheckPawnMove(b, col, fwd, false, w);
      ghost var two: seq<int> := [];
      m', stop := CheckPawnMove(m, col, fwd, false, w);
      if !stop && row == (if w then 1 else 6) {
        two := MoveGen.CheckPawnMove(b, col, if w then Inc(Inc(row)) else Dec(Dec(row)), false, w).added;
        m', stop := CheckPawnMove(m', col, if w then Inc(Inc(row)) else Dec(Dec(row)), false, w);
      }
      assert m' == m + one.added + two;
      ghost var s3 := MoveGen.CheckPawnMove(b, Inc(col), fwd, true, w).added;
      ghost var s4 := MoveGen.CheckPawnMove(b, Dec(col), fwd, true, w).added;
      m', stop := CheckPawnMove(m', Inc(col), fwd, true, w);
      m', stop := CheckPawnMove(m', Dec(col), fwd, true, w);
      Append4(m, one.added, two, s3, s4);
      assert PawnMoves(b, col, row, w) == one.added + two + s3 + s4;
    }

    /** The knight case of moves(): eight checkMove calls. */
    method KnightJumps(m: seq<int>, col: int, row: int, w: bool) returns (m': seq<int>)
      requires rows.Length == 8 && 0 <= row < 8
      ensures m' == m + KnightMoves(Position(), col, row, w)
    {
      ghost var b := Position();
      ghost var s1 := MoveGen.CheckMove(b, Inc(Inc(col)), Inc(row), w).added;
      ghost var s2 := MoveGen.CheckMove(b, Inc(col), Inc(Inc(row)), w).added;
      ghost var s3 := MoveGen.CheckMove(b, Dec(col), Inc(Inc(row)), w).added;
      ghost var s4 := MoveGen.CheckMove(b, Dec(Dec(col)), Inc(row), w).added;
      ghost var s5 := MoveGen.CheckMove(b, Dec(Dec(col)), Dec(row), w).added;
      ghost var s6 := MoveGen.CheckMove(b, Dec(col), Dec(Dec(row)), w).added;
      ghost var s7 := MoveGen.CheckMove(b, Inc(col), Dec(Dec(row)), w).added;
      ghost var s8 := MoveGen.CheckMove(b, Inc(Inc(col)), Dec(row), w).added;
      var stop;
      m', stop := CheckMove(m, Inc(Inc(col)), Inc(row), w);
      m', stop := CheckMove(m', Inc(col), Inc(Inc(row)), w);
      m', stop := CheckMove(m', Dec(col), Inc(Inc(row)), w);
      m', stop := CheckMove(m', Dec(Dec(col)), Inc(row), w);
      m', stop := CheckMove(m', Dec(Dec(col)), Dec(row), w);
      m', stop := CheckMove(m', Dec(col), Dec(Dec(row)), w);
      m', stop := CheckMove(m', Inc(col), Dec(Dec(row)), w);
      m', stop := CheckMove(m', Inc(Inc(col)), Dec(row), w);
      Append8(m, s1, s2, s3, s4, s5, s6, s7, s8);
      assert KnightMoves(b, col, row, w) == s1 + s2 + s3 + s4 + s5 + s6 + s7 + s8;
    }

    /** The king case of moves(): eight checkMove calls. */
    method KingSteps(m: seq<int>, col: int, row: int, w: bool) returns (m': seq<int>)
      requires rows.Length == 8 && 0 <= row < 8
      ensures m' == m + KingMoves(Position(), col, row, w)
    {
      ghost var b := Position();
      ghost var s1 := MoveGen.CheckMove(b, Inc(col), row, w).added;
      ghost var s2 := MoveGen.CheckMove(b, Inc(col), Inc(row), w).added;
      ghost var s3 := MoveGen.CheckMove(b, col, Inc(row), w).added;
      ghost var s4 := MoveGen.CheckMove(b, Dec(col), Inc(row), w).added;
      ghost var s5 := MoveGen.CheckMove(b, Dec(col), row, w).added;
      ghost var s6 := MoveGen.CheckMove(b, Dec(col), Dec(row), w).added;
      ghost var s7 := MoveGen.CheckMove(b, col, Dec(row), w).added;
      ghost var s8 := MoveGen.CheckMove(b, Inc(col), Dec(row), w).added;
      var stop;
      m', stop := CheckMove(m, Inc(col), row, w);
      m', stop := CheckMove(m', Inc(col), Inc(row), w);
      m', stop := CheckMove(m', col, Inc(row), w);
      m', stop := CheckMove(m', Dec(col), Inc(row), w);
      m', stop := CheckMove(m', Dec(col), row, w);
      m', stop := CheckMove(m', Dec(col), Dec(row), w);
      m', stop := CheckMove(m', col, Dec(row), w);
      m', stop := CheckMove(m', Inc(col), Dec(row), w);
      Append8(m, s1, s2, s3, s4, s5, s6, s7, s8);
      assert KingMoves(b, col, row, w) == s1 + s2 + s3 + s4 + s5 + s6 + s7 + s8;
    }

    /** The rook's four loops (also the first four of the queen's). */
    method RookLoops(m: seq<int>, col: int, row: int, w: bool) returns (m': seq<int>)
      requires rows.Length == 8 && 0 <= row < 8
      ensures m' == m + RookMoves(Position(), col, row, w)
    {
      ghost var b := Position();
      ghost var s1, s2 := MoveGen.Slide(b, col, row, 1, 0, w), MoveGen.Slide(b, col, row, -1, 0, w);
      ghost var s3, s4 := MoveGen.Slide(b, col, row, 0, 1, w), MoveGen.Slide(b, col, row, 0, -1, w);
      m' := Slide(m, col, row, 1, 0, w);
      m' := Slide(m', col, row, -1, 0, w);
      m' := Slide(m', col, row, 0, 1, w);
      m' := Slide(m', col, row, 0, -1, w);
      Append4(m, s1, s2, s3, s4);
      assert RookMoves(b, col, row, w) == s1 + s2 + s3 + s4;
    }

    /** The bishop's four loops (also the last four of the queen's). */
    method BishopLoops(m: seq<int>, col: int, row: int, w: bool) returns (m': seq<int>)
      requires rows.Length == 8 && 0 <= row < 8
      ensures m' == m + BishopMoves(Position(), col, row, w)
    {
      ghost var b := Position();
      ghost var s1, s2 := MoveGen.Slide(b, col, row, 1, 1, w), MoveGen.Slide(b, col, row, -1, 1, w);
      ghost var s3, s4 := MoveGen.Slide(b, col, row, 1, -1, w), MoveGen.Slide(b, col, row, -1, -1, w);
      m' := Slide(m, col, row, 1, 1, w);
      m' := Slide(m', col, row, -1, 1, w);
      m' := Slide(m', col, row, 1, -1, w);
      m' := Slide(m', col, row, -1, -1, w);
      Append4(m, s1, s2, s3, s4);
      assert BishopMoves(b, col, row, w) == s1 + s2 + s3 + s4;
    }

    /** isValidMove: scan the pairs of moves(xSrc, ySrc) for (xDest, yDest).
        The source column is not checked (see Rules.OffBoardColumnAccepted). */
    method IsValidMove(xs: int, ys: int, xd: int, yd: int) returns (r: bool)
      requires rows.Length == 8 && 0 <= ys < 8
      ensures r <==> ValidAsWritten(Position(), xs, ys, xd, yd)
    {
      var possible := Moves(xs, ys);
      MovesEven(Position(), xs, ys);
      ghost var half := |possible| / 2;
      assert |possible| == 2 * half;
      var i := 0;
      ghost var n := 0;
      while i < |possible|
        invariant 0 <= n <= half && i == 2 * n
        invariant Unseen(possible, n, xd, yd)
      {
        if possible[i] == xd && possible[i + 1] == yd {
          assert PairAt(possible, n) == (xd, yd);
          return true;
        }
        UnseenStep(possible, n, xd, yd);
        i, n := i + 2, n + 1;
      }
      UnseenAll(possible, n, xd, yd);
      return false;
    }

    /** move(xSrc, ySrc, xDest, yDest): the three exceptions become Err; a
        pawn reaching row 0 or 7 becomes a queen; taking a king runs the
        row-major cascade that removes every piece of the other colour. */
    method Move(xs: int, ys: int, xd: int, yd: int) returns (r: Result<bool>)
      requires rows.Length == 8
      modifies rows
      ensures match ApplyMove(old(Position()), xs, ys, xd, yd)
        case Err(e) => r == Err(e) && Position() == old(Position())
        case Ok(mv) => r == Ok(mv.kingTaken) && Position() == mv.board
      ensures old(Valid()) ==> Valid()
    {
      ghost var b := Position();
      if xs < 0 || xs >= 8 || ys < 0 || ys >= 8 {
        return Err(OutOfRange);
      }
      if xd < 0 || xd >= 8 || yd < 0 || yd >= 8 {
        return Err(OutOfRange);
      }
      var target := GetPiece(rows[..], xd, yd);
      var p := GetPiece(rows[..], xs, ys);
      if p == None {
        return Err(NoPieceAtSource);
      }
      if target != None && IsWhite(rows[..], xs, ys) == IsWhite(rows[..], xd, yd) {
        return Err(TakesOwnPiece);
      }
      if p == Pawn && (yd == 0 || yd == 7) {
        p := Queen;
      }
      var white := IsWhite(rows[..], xs, ys);
      SetPiece(xd, yd, p, white);
      SetPiece(xs, ys, None, true);
      ghost var placed := Position();
      if target == King {
        Cascade(white);
        MoveWellFormedIf(b, xs, ys, xd, yd);
        return Ok(true);
      }
      MoveWellFormedIf(b, xs, ys, xd, yd);
      return Ok(false);
    }

    /** The nested loops move() runs after taking a king: every piece of the
        other colour is removed, square by square in row-major order. */
    method Cascade(white: bool)
      requires rows.Length == 8
      modifies rows
      ensures Position() == Sweep(old(Position()), white, 64)
    {
      ghost var start := Position();
      ghost var i := 0;
      for y := 0 to 8
        invariant i == 8 * y && Position() == Sweep(start, white, i)
      {
        for x := 0 to 8
          invariant i == 8 * y + x && Position() == Sweep(start, white, i)
        {
          ClearSquare(start, white, x, y, i);
          i := i + 1;
        }
      }
    }

    /** One pass of the cascade's inner loop body, at square i = 8 * y + x. */
    method ClearSquare(ghost start: Rows, white: bool, x: int, y: int, ghost i: int)
      requires rows.Length == 8 && OnBoard(x, y) && i == 8 * y + x
      requires Position() == Sweep(start, white, i)
      modifies rows
      ensures Position() == Sweep(start, white, i + 1)
    {
      ClearAt(start, white, x, y, i);
      ghost var s := Position();
      if GetPiece(rows[..], x, y) != None {
        if IsWhite(rows[..], x, y) != white {
          SetPiece(x, y, None, true);
          assert Position() == Board.SetPiece(s, x, y, None, true);
        }
      }
    }
  }
}
