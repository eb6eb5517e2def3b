/** move() on the board value: its three runtime exceptions, promotion of a
    pawn reaching the last row, and the cascade that removes the loser's
    pieces when a king is taken. */
module Rules {
  import opened Board
  import opened MoveGen

  /** The three RuntimeExceptions move() throws. */
  datatype MoveError = OutOfRange | NoPieceAtSource | TakesOwnPiece

  datatype Result<T> = Ok(value: T) | Err(error: MoveError)

  /** The board after move() and what move() returns: true when it took a king. */
  datatype Moved = Moved(board: Rows, kingTaken: bool)

  /** A pawn that reaches row 0 or row 7 becomes a queen. */
  function Promoted(piece: int, yDest: int): int
  {
    if piece == Pawn && (yDest == 0 || yDest == 7) then Queen else piece
  }

  /** One step of the cascade: square i is emptied when it holds a piece not
      of colour `white`. */
  function Clear(b: Rows, white: bool, i: int): Rows
    requires 0 <= i < 64
  {
    var x, y := Col(i), Row(i);
    if GetPiece(b, x, y) != None && IsWhite(b, x, y) != white then SetPiece(b, x, y, None, true) else b
  }

  /** The cascade after a king is taken, over the first n squares in
      row-major order (y outer, x inner). */
  function Sweep(b: Rows, white: bool, n: nat): Rows
    requires n <= 64
  {
    if n == 0 then b else Clear(Sweep(b, white, n - 1), white, n - 1)
  }

  /** move(xSrc, ySrc, xDest, yDest): the checks in the source's order, then
      setPiece on the destination, then on the source, then the cascade. */
  function ApplyMove(b: Rows, xs: int, ys: int, xd: int, yd: int): Result<Moved>
  {
    if !OnBoard(xs, ys) || !OnBoard(xd, yd) then Err(OutOfRange)
    else if GetPiece(b, xs, ys) == None then Err(NoPieceAtSource)
    else if GetPiece(b, xd, yd) != None && IsWhite(b, xs, ys) == IsWhite(b, xd, yd) then Err(TakesOwnPiece)
    else
      var w := IsWhite(b, xs, ys);
      var placed := SetPiece(SetPiece(b, xd, yd, Promoted(GetPiece(b, xs, ys), yd), w), xs, ys, None, true);
      if GetPiece(b, xd, yd) == King then Ok(Moved(Sweep(placed, w, 64), true))
      else Ok(Moved(placed, false))
  }

  // ---------------------------------------------------------------------

  /** move() throws exactly when a coordinate is off the board, the source is
      empty, or the destination holds a piece of the mover's colour; the first
      of these that applies names the exception. */
  lemma MoveErrors(b: Rows, xs: int, ys: int, xd: int, yd: int)
    ensures ApplyMove(b, xs, ys, xd, yd) == Err(OutOfRange) <==> !OnBoard(xs, ys) || !OnBoard(xd, yd)
    ensures ApplyMove(b, xs, ys, xd, yd) == Err(NoPieceAtSource) <==>
      OnBoard(xs, ys) && OnBoard(xd, yd) && !Occupied(b, xs, ys)
    ensures ApplyMove(b, xs, ys, xd, yd) == Err(TakesOwnPiece) <==>
      OnBoard(xs, ys) && OnBoard(xd, yd) && Occupied(b, xs, ys) && Own(b, (xd, yd), IsWhite(b, xs, ys))
    ensures ApplyMove(b, xs, ys, xd, yd).Ok? <==>
      OnBoard(xs, ys) && Occupied(b, xs, ys) && Target(b, (xd, yd), IsWhite(b, xs, ys))
  {
  }

  /** One step of the cascade changes at most square i, and empties it
      exactly when it held a piece of the other colour. */
  lemma ClearEffect(b: Rows, white: bool, i: int, c: int, r: int)
    requires 0 <= i < 64 && OnBoard(c, r)
    ensures 8 * r + c == i && Occupied(b, c, r) && IsWhite(b, c, r) != white ==>
      GetPiece(Clear(b, white, i), c, r) == None
    ensures !(8 * r + c == i && Occupied(b, c, r) && IsWhite(b, c, r) != white) ==>
      GetPiece(Clear(b, white, i), c, r) == GetPiece(b, c, r)
      && IsWhite(Clear(b, white, i), c, r) == IsWhite(b, c, r)
  {
    var x, y := Col(i), Row(i);
    SquareIndex(i, c, r);
    if GetPiece(b, x, y) != None && IsWhite(b, x, y) != white {
      if c == x && r == y {
        SetPieceThenGet(b, x, y, None, true);
      } else {
        SetPieceFrame(b, x, y, None, true, c, r);
      }
    }
  }

  /** The cascade empties exactly the squares among the first n that held a
      piece of the other colour, and leaves every other square as it was. */
  lemma {:induction false} SweepEffect(b: Rows, white: bool, n: nat, c: int, r: int)
    requires n <= 64 && OnBoard(c, r)
    ensures 8 * r + c < n && Occupied(b, c, r) && IsWhite(b, c, r) != white ==>
      GetPiece(Sweep(b, white, n), c, r) == None
    ensures !(8 * r + c < n && Occupied(b, c, r) && IsWhite(b, c, r) != white) ==>
      GetPiece(Sweep(b, white, n), c, r) == GetPiece(b, c, r)
      && IsWhite(Sweep(b, white, n), c, r) == IsWhite(b, c, r)
  {
    if n > 0 {
      SweepEffect(b, white, n - 1, c, r);
      ClearEffect(Sweep(b, white, n - 1), white, n - 1, c, r);
    }
  }

  /** What a successful move() does to the two squares it names: the
      destination holds the mover's piece (a queen if it was a pawn reaching
      row 0 or 7) in the mover's colour and the source is empty; it returns
      true exactly when the destination held a king. */
  lemma {:induction false} MovePlaces(b: Rows, xs: int, ys: int, xd: int, yd: int)
    requires ApplyMove(b, xs, ys, xd, yd).Ok?
    ensures var m := ApplyMove(b, xs, ys, xd, yd).value;
      OnBoard(xs, ys) && OnBoard(xd, yd) && (xs, ys) != (xd, yd)
      && m.kingTaken == (GetPiece(b, xd, yd) == King)
      && GetPiece(m.board, xd, yd) ==
           (if GetPiece(b, xs, ys) == Pawn && (yd == 0 || yd == 7) then Queen else GetPiece(b, xs, ys))
      && IsWhite(m.board, xd, yd) == IsWhite(b, xs, ys)
      && GetPiece(m.board, xs, ys) == None
  {
    var w := IsWhite(b, xs, ys);
    var p := Promoted(GetPiece(b, xs, ys), yd);
    var placed := SetPiece(SetPiece(b, xd, yd, p, w), xs, ys, None, true);
    assert (xs, ys) != (xd, yd);
    PlacedEnds(b, xs, ys, xd, yd, p, w);
    if GetPiece(b, xd, yd) == King {
      SweepEffect(placed, w, 64, xd, yd);
      SweepEffect(placed, w, 64, xs, ys);
    }
  }

  /** The two setPiece calls of move(): the destination reads back the piece
      and colour written, the source reads back empty. */
  lemma PlacedEnds(b: Rows, xs: int, ys: int, xd: int, yd: int, p: int, w: bool)
    requires OnBoard(xs, ys) && OnBoard(xd, yd) && (xs, ys) != (xd, yd) && IsCode(p)
    ensures var placed := SetPiece(SetPiece(b, xd, yd, p, w), xs, ys, None, true);
      GetPiece(placed, xd, yd) == p && IsWhite(placed, xd, yd) == w && GetPiece(placed, xs, ys) == None
  {
    var b1 := SetPiece(b, xd, yd, p, w);
    SetPieceThenGet(b, xd, yd, p, w);
    SetPieceFrame(b1, xs, ys, None, true, xd, yd);
    SetPieceThenGet(b1, xs, ys, None, true);
  }

  /** The squares move() does not name keep their piece and colour through
      the two setPiece calls. */
  lemma PlacedFrame(b: Rows, xs: int, ys: int, xd: int, yd: int, p: int, w: bool, c: int, r: int)
    requires OnBoard(xs, ys) && OnBoard(xd, yd) && OnBoard(c, r) && IsCode(p)
    requires (c, r) != (xs, ys) && (c, r) != (xd, yd)
    ensures var placed := SetPiece(SetPiece(b, xd, yd, p, w), xs, ys, None, true);
      GetPiece(placed, c, r) == GetPiece(b, c, r) && IsWhite(placed, c, r) == IsWhite(b, c, r)
  {
    SetPieceFrame(b, xd, yd, p, w, c, r);
    SetPieceFrame(SetPiece(b, xd, yd, p, w), xs, ys, None, true, c, r);
  }

  /** A move that takes no king changes only its source and destination. */
  lemma {:induction false} MoveFrame(b: Rows, xs: int, ys: int, xd: int, yd: int, c: int, r: int)
    requires ApplyMove(b, xs, ys, xd, yd).Ok? && !ApplyMove(b, xs, ys, xd, yd).value.kingTaken
    requires OnBoard(c, r) && (c, r) != (xs, ys) && (c, r) != (xd, yd)
    ensures GetPiece(ApplyMove(b, xs, ys, xd, yd).value.board, c, r) == GetPiece(b, c, r)
    ensures IsWhite(ApplyMove(b, xs, ys, xd, yd).value.board, c, r) == IsWhite(b, c, r)
  {
    PlacedFrame(b, xs, ys, xd, yd, Promoted(GetPiece(b, xs, ys), yd), IsWhite(b, xs, ys), c, r);
  }

  /** Taking a king removes every piece of the loser's colour, and a square
      not named by the move holds a piece of the mover's colour afterwards
      exactly when it did before, that same piece. */
  lemma {:induction false} KingCapture(b: Rows, xs: int, ys: int, xd: int, yd: int, c: int, r: int)
    requires ApplyMove(b, xs, ys, xd, yd).Ok? && ApplyMove(b, xs, ys, xd, yd).value.kingTaken
    requires OnBoard(c, r)
    ensures var after := ApplyMove(b, xs, ys, xd, yd).value.board;
      !Opponent(after, (c, r), IsWhite(b, xs, ys))
    ensures var after := ApplyMove(b, xs, ys, xd, yd).value.board;
      (c, r) != (xs, ys) && (c, r) != (xd, yd) ==>
        (Own(after, (c, r), IsWhite(b, xs, ys)) <==> Own(b, (c, r), IsWhite(b, xs, ys)))
        && (Own(b, (c, r), IsWhite(b, xs, ys)) ==> GetPiece(after, c, r) == GetPiece(b, c, r))
  {
    var w := IsWhite(b, xs, ys);
    var p := Promoted(GetPiece(b, xs, ys), yd);
    var placed := SetPiece(SetPiece(b, xd, yd, p, w), xs, ys, None, true);
    var after := Sweep(placed, w, 64);
    assert ApplyMove(b, xs, ys, xd, yd).value.board == after;
    SweepEffect(placed, w, 64, c, r);
    if (c, r) != (xs, ys) && (c, r) != (xd, yd) {
      PlacedFrame(b, xs, ys, xd, yd, p, w, c, r);
      assert Own(b, (c, r), w) == Own(placed, (c, r), w);
    }
  }

  /** A successful move keeps every square's code one the program knows. */
  lemma {:induction false} MoveWellFormed(b: Rows, xs: int, ys: int, xd: int, yd: int)
    requires WellFormed(b) && ApplyMove(b, xs, ys, xd, yd).Ok?
    ensures WellFormed(ApplyMove(b, xs, ys, xd, yd).value.board)
  {
    var w := IsWhite(b, xs, ys);
    var p := Promoted(GetPiece(b, xs, ys), yd);
    var b1 := SetPiece(b, xd, yd, p, w);
    SetPieceWellFormed(b, xd, yd, p, w);
    SetPieceWellFormed(b1, xs, ys, None, true);
    if GetPiece(b, xd, yd) == King {
      SweepWellFormed(SetPiece(b1, xs, ys, None, true), w, 64);
    }
  }

  lemma {:induction false} SweepWellFormed(b: Rows, white: bool, n: nat)
    requires n <= 64 && WellFormed(b)
    ensures WellFormed(Sweep(b, white, n))
  {
    if n > 0 {
      var s := Sweep(b, white, n - 1);
      SweepWellFormed(b, white, n - 1);
      SquareIndex(n - 1, 0, 0);
      if GetPiece(s, Col(n - 1), Row(n - 1)) != None && IsWhite(s, Col(n - 1), Row(n - 1)) != white {
        SetPieceWellFormed(s, Col(n - 1), Row(n - 1), None, true);
      }
    }
  }

  // ---------------------------------------------------------------------
  // isValidMove and move agree for sources on the board.

  /** The check isValidMove makes: (xd, yd) occurs in moves(xs, ys). */
  predicate ValidAsWritten(b: Rows, xs: int, ys: int, xd: int, yd: int)
    requires 0 <= ys < 8
  {
    Listed(Moves(b, xs, ys), xd, yd)
  }

  /** isValidMove with the source column checked as move() checks it. */
  predicate IsLegalMove(b: Rows, xs: int, ys: int, xd: int, yd: int)
  {
    OnBoard(xs, ys) && Listed(Moves(b, xs, ys), xd, yd)
  }

  /** Every legal move is one move() carries out without an exception. */
  lemma {:induction false} LegalMoveApplies(b: Rows, xs: int, ys: int, xd: int, yd: int)
    requires IsLegalMove(b, xs, ys, xd, yd)
    ensures ApplyMove(b, xs, ys, xd, yd).Ok?
  {
    MovesSound(b, xs, ys);
    var k :| 0 <= k < |Moves(b, xs, ys)| / 2 && PairAt(Moves(b, xs, ys), k) == (xd, yd);
    assert Target(b, PairAt(Moves(b, xs, ys), k), IsWhite(b, xs, ys));
  }

  /** isValidMove does not check the source column: column 8 reads column 0
      (the shift distance 32 is taken mod 32), so on the starting board it
      accepts the pawn push "i2i3" from column 8, which move() then rejects
      as out of range. */
  lemma OffBoardColumnAccepted()
    ensures ValidAsWritten(InitialRows, 8, 1, 8, 2)
    ensures !IsLegalMove(InitialRows, 8, 1, 8, 2)
    ensures ApplyMove(InitialRows, 8, 1, 8, 2) == Err(OutOfRange)
  {
    var b := InitialRows;
    InitialPosition(0, 1);
    InitialPosition(0, 2);
    assert Shift(8) == Shift(0);
    assert GetPiece(b, 8, 1) == Pawn && IsWhite(b, 8, 1);
    assert GetPiece(b, 8, 2) == None;
    assert CheckPawnMove(b, 8, 2, false, true).added == [8, 2];
    assert PairAt(Moves(b, 8, 1), 0) == (8, 2);
  }
}
