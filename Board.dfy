/** The packed board of ChessState: eight 32-bit rows, one 4-bit nibble per
    square.  The low three bits of a nibble hold the piece code, bit 3 the
    colour (set for light, called "white" in the code).  Column `col` lives at
    bit 4*col of its row.  Coordinate stepping (inc/dec) lives here too. */
module Board {

  // Piece codes and masks
  const None := 0
  const Pawn := 1
  const Rook := 2
  const Knight := 3
  const Bishop := 4
  const Queen := 5
  const King := 6
  const PieceMask: bv32 := 7
  const WhiteMask: bv32 := 8
  const AllMask: bv32 := 15

  /** m_rows: always eight words, one per row. */
  type Rows = b: seq<bv32> | |b| == 8 witness [0, 0, 0, 0, 0, 0, 0, 0]

  predicate IsPieceCode(p: int) { None <= p <= King }

  /** Any value of the three piece bits (7 is no piece the program knows). */
  predicate IsCode(p: int) { 0 <= p < 8 }

  predicate OnBoard(col: int, row: int) { 0 <= col < 8 && 0 <= row < 8 }

  /** The shift distance `4 * col`.  A Java `int` shift only uses the low five
      bits of its distance, so a column outside [0,7] addresses column
      `col mod 8`; `%` in Dafny is that (Euclidean) modulus. */
  function Shift(col: int): bv32
  {
    var k := col % 8;
    if k == 0 then 0 else if k == 1 then 4 else if k == 2 then 8 else if k == 3 then 12
    else if k == 4 then 16 else if k == 5 then 20 else if k == 6 then 24 else 28
  }

  /** The whole nibble of column `col` in word `w`. */
  function Nibble(w: bv32, col: int): bv32 { (w >> Shift(col)) & AllMask }

  /** getPiece: the piece code of square (col, row), the low three bits of
      its nibble (JavaReads restates it with Java's shift-then-mask order). */
  function GetPiece(b: Rows, col: int, row: int): int
    requires 0 <= row < 8
  {
    CodeValue(Nibble(b[row], col) & PieceMask)
  }

  /** isWhite: the colour bit of square (col, row).  An empty square may carry
      either value of this bit (move() empties squares with white = true). */
  predicate IsWhite(b: Rows, col: int, row: int)
    requires 0 <= row < 8
  {
    Nibble(b[row], col) & WhiteMask != 0
  }

  predicate Occupied(b: Rows, col: int, row: int)
    requires 0 <= row < 8
  {
    GetPiece(b, col, row) != None
  }

  /** A three-bit code as an integer (tabulated, to keep bit-vector to integer
      conversions out of the proofs; CodeConversions relates the two). */
  function CodeValue(v: bv32): (n: int)
    requires v < 8
    ensures 0 <= n < 8
  {
    if v == 0 then 0 else if v == 1 then 1 else if v == 2 then 2 else if v == 3 then 3
    else if v == 4 then 4 else if v == 5 then 5 else if v == 6 then 6 else 7
  }

  /** A piece code as a word (tabulated likewise). */
  function PieceBits(piece: int): bv32
    requires IsCode(piece)
  {
    if piece == 0 then 0 else if piece == 1 then 1 else if piece == 2 then 2 else if piece == 3 then 3
    else if piece == 4 then 4 else if piece == 5 then 5 else if piece == 6 then 6 else 7
  }

  /** The nibble that setPiece writes: the piece code ORed with the colour bit. */
  function Code(piece: int, white: bool): (v: bv32)
    requires IsCode(piece)
    ensures v < 16
  {
    PieceBits(piece) | (if white then WhiteMask else 0)
  }

  /** The word `w` with the nibble of column `col` replaced by `v`: first
      cleared with the complement of AllMask << 4*col, then ORed with v << 4*col. */
  function Insert(w: bv32, col: int, v: bv32): bv32
    requires v < 16
  {
    (w & !(AllMask << Shift(col))) | (v << Shift(col))
  }

  /** setPiece's two compound assignments on the row word: `&=` with the
      complement of AllMask << 4*col, then `|=` with the code shifted there. */
  function Cleared(w: bv32, col: int): bv32
  {
    w & !(AllMask << Shift(col))
  }

  function Filled(w: bv32, col: int, v: bv32): bv32
    requires v < 16
  {
    w | (v << Shift(col))
  }

  lemma InsertSteps(w: bv32, col: int, v: bv32)
    requires v < 16
    ensures Filled(Cleared(w, col), col, v) == Insert(w, col, v)
  {
  }

  /** setPiece on the board value. */
  function SetPiece(b: Rows, col: int, row: int, piece: int, white: bool): Rows
    requires 0 <= row < 8 && IsCode(piece)
  {
    b[row := Insert(b[row], col, Code(piece, white))]
  }

  /** The row-major numbering of every 8x8 scan in the program (y outer,
      x inner): square i is column i % 8 of row i / 8. */
  function Col(i: int): int { i % 8 }
  function Row(i: int): int { i / 8 }

  lemma SquareIndex(i: int, c: int, r: int)
    requires 0 <= i < 64
    ensures OnBoard(Col(i), Row(i))
    ensures OnBoard(c, r) ==> ((8 * r + c == i) <==> (c == Col(i) && r == Row(i)))
    ensures OnBoard(c, r) ==> Col(8 * r + c) == c && Row(8 * r + c) == r
  {
  }

  /** Every square holds a piece code the program knows (never 7): the
      invariant under which heuristic() never reaches its "what?" throw. */
  ghost predicate WellFormed(b: Rows)
  {
    forall c, r :: OnBoard(c, r) ==> IsPieceCode(GetPiece(b, c, r))
  }

  // ---------------------------------------------------------------------
  // Bit-level facts.  The first four are stated for symbolic shift
  // distances that are nibble offsets, and kept small so that the solver
  // bit-blasts them one at a time; the rest only combine them.

  predicate NibbleOffset(s: bv32)
  {
    s == 0 || s == 4 || s == 8 || s == 12 || s == 16 || s == 20 || s == 24 || s == 28
  }

  lemma ClearedNibbleElsewhere(w: bv32, s: bv32, t: bv32)
    requires NibbleOffset(s) && NibbleOffset(t) && s != t
    ensures ((w & !(AllMask << s)) >> t) & AllMask == (w >> t) & AllMask
  {
  }

  lemma InsertedNibbleElsewhere(v: bv32, s: bv32, t: bv32)
    requires v < 16 && NibbleOffset(s) && NibbleOffset(t) && s != t
    ensures ((v << s) >> t) & AllMask == 0
  {
  }

  lemma InsertedNibbleHere(w: bv32, v: bv32, s: bv32)
    requires v < 16 && NibbleOffset(s)
    ensures (((w & !(AllMask << s)) | (v << s)) >> s) & AllMask == v
  {
  }

  lemma NibbleOfOr(a: bv32, c: bv32, t: bv32)
    requires NibbleOffset(t)
    ensures ((a | c) >> t) & AllMask == ((a >> t) & AllMask) | ((c >> t) & AllMask)
  {
  }

  lemma MasksOfNibble(w: bv32, t: bv32)
    requires NibbleOffset(t)
    ensures (w >> t) & PieceMask == ((w >> t) & AllMask) & PieceMask
    ensures (w >> t) & WhiteMask == ((w >> t) & AllMask) & WhiteMask
  {
  }

  lemma CodeParts(piece: int, white: bool)
    requires IsCode(piece)
    ensures CodeValue(Code(piece, white) & PieceMask) == piece
    ensures (Code(piece, white) & WhiteMask != 0) == white
  {
  }

  /** The tables agree with Java's conversions: the shift distance is
      4 * col reduced to five bits, and the codes are the integers they spell. */
  lemma CodeConversions(col: int, v: bv32, piece: int)
    requires v < 8 && IsCode(piece)
    ensures Shift(col) as int == 4 * (col % 8) == (4 * col) % 32
    ensures CodeValue(v) == v as int
    ensures PieceBits(piece) as int == piece
  {
  }

  lemma ShiftIsNibbleOffset(col: int)
    ensures NibbleOffset(Shift(col))
  {
  }

  /** Columns that differ mod 8 have different shift distances. */
  lemma ShiftInjective(col: int, c: int)
    requires c % 8 != col % 8
    ensures Shift(c) != Shift(col)
  {
  }

  /** Replacing one nibble of a word changes exactly that nibble. */
  lemma {:induction false} InsertNibble(w: bv32, col: int, v: bv32, c: int)
    requires v < 16
    ensures Nibble(Insert(w, col, v), c) == if c % 8 == col % 8 then v else Nibble(w, c)
  {
    var s, t := Shift(col), Shift(c);
    ShiftIsNibbleOffset(col);
    ShiftIsNibbleOffset(c);
    if c % 8 == col % 8 {
      assert s == t;
      InsertedNibbleHere(w, v, s);
    } else {
      ShiftInjective(col, c);
      NibbleOfOr(w & !(AllMask << s), v << s, t);
      ClearedNibbleElsewhere(w, s, t);
      InsertedNibbleElsewhere(v, s, t);
    }
  }

  /** getPiece and isWhite as Java writes them: shift the row right by
      4*col, then mask with 7 or 8. */
  lemma {:induction false} JavaReads(b: Rows, col: int, row: int)
    requires 0 <= row < 8
    ensures GetPiece(b, col, row) == CodeValue((b[row] >> Shift(col)) & PieceMask)
    ensures IsWhite(b, col, row) == ((b[row] >> Shift(col)) & WhiteMask != 0)
  {
    ShiftIsNibbleOffset(col);
    MasksOfNibble(b[row], Shift(col));
  }

  /** Round trip of setPiece: the square written reads back the piece and the
      colour that were written (for every code, None included, since setPiece
      ORs the colour bit in regardless), and every other nibble of the row and
      every other row is unchanged. */
  lemma {:induction false} SetPieceThenGet(b: Rows, col: int, row: int, piece: int, white: bool)
    requires 0 <= row < 8 && IsCode(piece)
    ensures GetPiece(SetPiece(b, col, row, piece, white), col, row) == piece
    ensures IsWhite(SetPiece(b, col, row, piece, white), col, row) == white
    ensures forall c :: c % 8 != col % 8 ==>
      Nibble(SetPiece(b, col, row, piece, white)[row], c) == Nibble(b[row], c)
    ensures forall r :: 0 <= r < 8 && r != row ==> SetPiece(b, col, row, piece, white)[r] == b[r]
  {
    var b' := SetPiece(b, col, row, piece, white);
    InsertNibble(b[row], col, Code(piece, white), col);
    CodeParts(piece, white);
    forall c | c % 8 != col % 8
      ensures Nibble(b'[row], c) == Nibble(b[row], c)
    {
      InsertNibble(b[row], col, Code(piece, white), c);
    }
  }

  /** The same frame, square by square: after setPiece(col, row, ...), every
      square other than (col mod 8, row) keeps its piece and colour. */
  lemma {:induction false} SetPieceFrame(b: Rows, col: int, row: int, piece: int, white: bool, c: int, r: int)
    requires 0 <= row < 8 && 0 <= r < 8 && IsCode(piece)
    requires r != row || c % 8 != col % 8
    ensures GetPiece(SetPiece(b, col, row, piece, white), c, r) == GetPiece(b, c, r)
    ensures IsWhite(SetPiece(b, col, row, piece, white), c, r) == IsWhite(b, c, r)
  {
    if r == row {
      InsertNibble(b[row], col, Code(piece, white), c);
    }
  }

  /** setPiece with a known piece code keeps the board well formed. */
  lemma {:induction false} SetPieceWellFormed(b: Rows, col: int, row: int, piece: int, white: bool)
    requires 0 <= row < 8 && IsPieceCode(piece) && WellFormed(b)
    ensures WellFormed(SetPiece(b, col, row, piece, white))
  {
    var b' := SetPiece(b, col, row, piece, white);
    forall c, r | OnBoard(c, r) ensures IsPieceCode(GetPiece(b', c, r)) {
      if r == row && c % 8 == col % 8 {
        SetPieceThenGet(b, col, row, piece, white);
        assert Shift(c) == Shift(col);
      } else {
        SetPieceFrame(b, col, row, piece, white, c, r);
      }
    }
  }

  /** A word is determined by its eight nibbles. */
  lemma WordOfNibbles(w: bv32, w': bv32)
    requires forall c :: 0 <= c < 8 ==> Nibble(w, c) == Nibble(w', c)
    ensures w == w'
  {
    assert Nibble(w, 0) == Nibble(w', 0) && Nibble(w, 1) == Nibble(w', 1);
    assert Nibble(w, 2) == Nibble(w', 2) && Nibble(w, 3) == Nibble(w', 3);
    assert Nibble(w, 4) == Nibble(w', 4) && Nibble(w, 5) == Nibble(w', 5);
    assert Nibble(w, 6) == Nibble(w', 6) && Nibble(w, 7) == Nibble(w', 7);
  }

  // ---------------------------------------------------------------------
  // Coordinate stepping: -1 is the off-board sentinel.

  /** inc: one column or row up, or -1 when that leaves the board. */
  function Inc(pos: int): (r: int)
    ensures r == -1 || 0 <= r <= 7
    ensures r != -1 <==> 0 <= pos < 7
    ensures r != -1 ==> r == pos + 1
  {
    if pos < 0 || pos >= 7 then -1 else pos + 1
  }

  /** dec: one column or row down, or -1 below 0.  It has no upper check, so
      it stays within [-1,7] only for positions up to 8. */
  function Dec(pos: int): (r: int)
    ensures r != -1 <==> pos >= 1
    ensures r != -1 ==> r == pos - 1
    ensures pos <= 8 ==> -1 <= r <= 7
  {
    if pos < 1 then -1 else pos - 1
  }

  // ---------------------------------------------------------------------
  // The starting position written by resetBoard.

  /** The back rank, left to right: rook, knight, bishop, queen, king,
      bishop, knight, rook. */
  function BackRank(col: int): (p: int)
    requires 0 <= col < 8
    ensures IsPieceCode(p) && p != None && p != Pawn
  {
    if col == 0 || col == 7 then Rook
    else if col == 1 || col == 6 then Knight
    else if col == 2 || col == 5 then Bishop
    else if col == 3 then Queen
    else King
  }

  /** The nibble resetBoard leaves on each square: light back rank on row 0,
      light pawns on row 1, empty (colour bit 0) rows 2 to 5, dark pawns on
      row 6, dark back rank on row 7. */
  function InitialCode(col: int, row: int): bv32
    requires OnBoard(col, row)
  {
    if row == 0 then Code(BackRank(col), true)
    else if row == 1 then Code(Pawn, true)
    else if row == 6 then Code(Pawn, false)
    else if row == 7 then Code(BackRank(col), false)
    else Code(None, false)
  }

  const InitialRows: Rows :=
    [0xABCEDCBA, 0x99999999, 0, 0, 0, 0, 0x11111111, 0x23465432]

  /** The packed constant holds the starting position nibble by nibble. */
  lemma InitialRowsNibbles()
    ensures forall c, r :: OnBoard(c, r) ==> Nibble(InitialRows[r], c) == InitialCode(c, r)
  {
    forall c, r | OnBoard(c, r) ensures Nibble(InitialRows[r], c) == InitialCode(c, r) {
      assert c == 0 || c == 1 || c == 2 || c == 3 || c == 4 || c == 5 || c == 6 || c == 7;
    }
  }

  /** Starting position: both back ranks in order, both pawn ranks full, the
      four middle rows empty; light on rows 0 and 1, dark on rows 6 and 7. */
  lemma {:induction false} InitialPosition(c: int, r: int)
    requires OnBoard(c, r)
    ensures GetPiece(InitialRows, c, r) ==
      if r == 0 || r == 7 then BackRank(c) else if r == 1 || r == 6 then Pawn else None
    ensures Occupied(InitialRows, c, r) ==> IsWhite(InitialRows, c, r) == (r <= 1)
  {
    InitialRowsNibbles();
    CodeParts(if r == 0 || r == 7 then BackRank(c) else if r == 1 || r == 6 then Pawn else None, r <= 1);
  }
}
