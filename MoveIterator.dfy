/** ChessMoveIterator: a cursor over the squares of one colour in row-major
    order (y outer, x inner) that hands out the pairs of each square's
    moves() list from the end.  The order it yields in is the function
    YieldFrom; the class is proved against it.

    OwnLists is a table chosen with `:|` subject to ListsFor, which fixes
    its value on every row 0 .. 7, the only rows the iterator reads: there
    it is SquareList, the list of moves() for a square of the colour. */
module MoveIterator {
  import opened Board
  import opened MoveGen
  import opened Rules
  import opened State

  /** The ChessMove record: a source and a destination square. */
  datatype ChessMove = ChessMove(xSource: int, ySource: int, xDest: int, yDest: int)

  /** Row-major position of a move's source square. */
  function SourceIndex(mv: ChessMove): int
  {
    8 * mv.ySource + mv.xSource
  }

  /** What repeated next() calls yield from one square's list: the last pair
      first, each call removing it. */
  function Pops(x: int, y: int, m: seq<int>): (r: seq<ChessMove>)
    ensures |r| == |m| / 2
    decreases |m|
  {
    if |m| < 2 then [] else [ChessMove(x, y, m[|m| - 2], m[|m| - 1])] + Pops(x, y, m[..|m| - 2])
  }

  /** The list each square contributes, as a function of its column and row. */
  type Lists = (int, int) -> seq<int>

  /** The list advance() takes on square (c, r) for colour w: moves(c, r)
      on a square of that colour, nothing (null) elsewhere. */
  function SquareList(b: Rows, w: bool, c: int, r: int): seq<int>
    requires 0 <= r < 8
  {
    if Own(b, (c, r), w) then Moves(b, c, r) else []
  }

  /** l gives every square of the board its SquareList.  The quantifier is
      instantiated only where a proof mentions SquareList, so the move
      generator is unfolded only where it is needed. */
  ghost predicate ListsFor(l: Lists, b: Rows, w: bool)
  {
    forall c, r {:trigger SquareList(b, w, c, r)} :: 0 <= r < 8 ==> l(c, r) == SquareList(b, w, c, r)
  }

  /** The lists the iterator reads for colour w, square by square. */
  ghost function OwnLists(b: Rows, w: bool): (l: Lists)
    ensures ListsFor(l, b, w)
  {
    var some: Lists := (c, r) => if 0 <= r < 8 then SquareList(b, w, c, r) else [];
    assert ListsFor(some, b, w);
    var l :| ListsFor(l, b, w);
    l
  }

  ghost predicate EvenLists(l: Lists)
  {
    forall c, r :: 0 <= r < 8 ==> |l(c, r)| % 2 == 0
  }

  /** Everything yielded from square (x, y) on, in row-major order; column 8
      stands for the start of the next row. */
  function YieldFrom(l: Lists, x: int, y: int): seq<ChessMove>
    requires 0 <= x <= 8 && 0 <= y
    decreases 8 - y, 8 - x
  {
    if y >= 8 then []
    else if x == 8 then YieldFrom(l, 0, y + 1)
    else Pops(x, y, l(x, y)) + YieldFrom(l, x + 1, y)
  }

  /** A square the iterator passes over: fewer than one pair in its list. */
  predicate Barren(l: Lists, x: int, y: int)
  {
    |l(x, y)| < 2
  }

  /** The walk from cursor (x1, y1) reaches (x2, y2) passing only barren
      squares: what advance() does when it steps over squares. */
  ghost predicate Skips(l: Lists, x1: int, y1: int, x2: int, y2: int)
    requires 0 <= x1 <= 8 && 0 <= y1
    decreases 8 - y1, 8 - x1
  {
    if x1 == x2 && y1 == y2 then true
    else if y1 >= 8 then false
    else if x1 == 8 then Skips(l, 0, y1 + 1, x2, y2)
    else Barren(l, x1, y1) && Skips(l, x1 + 1, y1, x2, y2)
  }

  /** A cursor position: column 0 .. 8 of row 0 .. 7, or (0, 8) at the end. */
  predicate Cursor(x: int, y: int)
  {
    0 <= x <= 8 && 0 <= y <= 8 && (y == 8 ==> x == 0)
  }

  // ---------------------------------------------------------------------

  lemma OwnListsEven(b: Rows, w: bool)
    ensures EvenLists(OwnLists(b, w))
  {
    forall c, r | 0 <= r < 8 ensures |OwnLists(b, w)(c, r)| % 2 == 0 {
      assert OwnLists(b, w)(c, r) == SquareList(b, w, c, r);
      if Own(b, (c, r), w) {
        MovesEven(b, c, r);
      }
    }
  }

  /** Row-major indices of squares are distinct. */
  lemma IndexUnique(c: int, r: int, x: int, y: int)
    requires 0 <= c < 8 && 0 <= x < 8 && 8 * r + c == 8 * y + x
    ensures c == x && r == y
  {
  }

  lemma DropFirst<T>(h: T, a: seq<T>, c: seq<T>)
    ensures ([h] + a + c)[1..] == a + c
  {
  }

  lemma TakeAll<T>(s: seq<T>)
    ensures s[..|s|] == s
  {
  }

  lemma TakeTake<T>(s: seq<T>, i: int, j: int)
    requires 0 <= i <= j <= |s|
    ensures s[..j][..i] == s[..i]
  {
  }

  lemma PopsShort(x: int, y: int, m: seq<int>)
    requires |m| < 2
    ensures Pops(x, y, m) == []
  {
  }

  /** Barren squares yield nothing, so the walk skips them. */
  lemma {:induction false} SkipsYield(l: Lists, x1: int, y1: int, x2: int, y2: int)
    requires 0 <= x1 <= 8 && 0 <= y1 && 0 <= x2 <= 8 && 0 <= y2 && Skips(l, x1, y1, x2, y2)
    ensures YieldFrom(l, x1, y1) == YieldFrom(l, x2, y2)
    decreases 8 - y1, 8 - x1
  {
    if (x1 != x2 || y1 != y2) && x1 < 8 {
      PopsShort(x1, y1, l(x1, y1));
      SkipsYield(l, x1 + 1, y1, x2, y2);
    } else if x1 != x2 || y1 != y2 {
      SkipsYield(l, 0, y1 + 1, x2, y2);
    }
  }

  /** The square after (x, y) in row-major order, as a cursor. */
  function Succ(x: int, y: int): (int, int)
  {
    if x + 1 == 8 then (0, y + 1) else (x + 1, y)
  }

  /** A walk that reaches a barren square goes on past it. */
  lemma {:induction false} SkipsExtend(l: Lists, x1: int, y1: int, x: int, y: int)
    requires 0 <= x1 <= 8 && 0 <= y1 && 0 <= x < 8 && 0 <= y < 8
    requires Skips(l, x1, y1, x, y) && Barren(l, x, y)
    ensures Skips(l, x1, y1, Succ(x, y).0, Succ(x, y).1)
    decreases 8 - y1, 8 - x1
  {
    var (x', y') := Succ(x, y);
    if x1 == x && y1 == y {
      if x + 1 == 8 {
        assert Skips(l, 0, y + 1, x', y');
        assert Skips(l, 8, y, x', y');
      } else {
        assert Skips(l, x + 1, y, x', y');
      }
    } else if x1 == x' && y1 == y' {
    } else if x1 == 8 {
      SkipsExtend(l, 0, y1 + 1, x, y);
    } else {
      SkipsExtend(l, x1 + 1, y1, x, y);
    }
  }

  /** Within one square the pairs come out last first: the k-th move yielded
      is the (n-1-k)-th pair of the list. */
  lemma {:induction false} PopsReversed(x: int, y: int, m: seq<int>, k: int)
    requires |m| % 2 == 0 && 0 <= k < |m| / 2
    ensures Pops(x, y, m)[k] == ChessMove(x, y, PairAt(m, |m| / 2 - 1 - k).0, PairAt(m, |m| / 2 - 1 - k).1)
    decreases |m|
  {
    if k > 0 {
      var m' := m[..|m| - 2];
      PopsReversed(x, y, m', k - 1);
      assert PairAt(m', |m'| / 2 - 1 - (k - 1)) == PairAt(m, |m| / 2 - 1 - k);
    }
  }

  /** The moves one square yields are exactly its pairs. */
  lemma {:induction false} PopsMember(x: int, y: int, m: seq<int>, mv: ChessMove)
    requires |m| % 2 == 0
    ensures mv in Pops(x, y, m) <==> mv.xSource == x && mv.ySource == y && Listed(m, mv.xDest, mv.yDest)
    decreases |m|
  {
    if |m| >= 2 {
      var m' := m[..|m| - 2];
      PopsMember(x, y, m', mv);
      var last := |m| / 2 - 1;
      assert PairAt(m, last) == (m[|m| - 2], m[|m| - 1]);
      if Listed(m, mv.xDest, mv.yDest) {
        var k :| 0 <= k < |m| / 2 && PairAt(m, k) == (mv.xDest, mv.yDest);
        if k < last {
          assert PairAt(m', k) == PairAt(m, k);
        }
      }
      if Listed(m', mv.xDest, mv.yDest) {
        var k :| 0 <= k < |m'| / 2 && PairAt(m', k) == (mv.xDest, mv.yDest);
        assert PairAt(m, k) == PairAt(m', k);
      }
    }
  }

  /** A move is yielded from (x, y) on exactly when its source is a square at
      or after (x, y) and its destination is a pair of that square's list. */
  lemma {:induction false} YieldMember(l: Lists, x: int, y: int, mv: ChessMove)
    requires EvenLists(l) && 0 <= x <= 8 && 0 <= y <= 8
    ensures mv in YieldFrom(l, x, y) <==> YieldsAt(l, x, y, mv)
    decreases 8 - y, 8 - x
  {
    if y < 8 && x < 8 {
      YieldMember(l, x + 1, y, mv);
      YieldStep(l, x, y, mv);
    } else if y < 8 {
      YieldMember(l, 0, y + 1, mv);
      YieldWrap(l, y, mv);
    } else {
      YieldEnd(l, x, y, mv);
    }
  }

  /** Past the last row nothing is yielded. */
  lemma YieldEnd(l: Lists, x: int, y: int, mv: ChessMove)
    requires 0 <= x <= 8 && y >= 8
    ensures mv in YieldFrom(l, x, y) <==> YieldsAt(l, x, y, mv)
  {
  }

  /** Column 8 of row y is the start of row y + 1. */
  lemma YieldWrap(l: Lists, y: int, mv: ChessMove)
    requires 0 <= y < 8
    requires mv in YieldFrom(l, 0, y + 1) <==> YieldsAt(l, 0, y + 1, mv)
    ensures mv in YieldFrom(l, 8, y) <==> YieldsAt(l, 8, y, mv)
  {
    assert YieldFrom(l, 8, y) == YieldFrom(l, 0, y + 1);
  }

  /** The move's source is a square at or after (x, y) and its destination a
      pair of that square's list. */
  ghost predicate YieldsAt(l: Lists, x: int, y: int, mv: ChessMove)
  {
    OnBoard(mv.xSource, mv.ySource) && 8 * y + x <= SourceIndex(mv)
    && Listed(l(mv.xSource, mv.ySource), mv.xDest, mv.yDest)
  }

  /** The square (x, y) adds its own pairs to what the later squares yield. */
  lemma YieldStep(l: Lists, x: int, y: int, mv: ChessMove)
    requires EvenLists(l) && 0 <= x < 8 && 0 <= y < 8
    requires mv in YieldFrom(l, x + 1, y) <==> YieldsAt(l, x + 1, y, mv)
    ensures mv in YieldFrom(l, x, y) <==> YieldsAt(l, x, y, mv)
  {
    assert YieldFrom(l, x, y) == Pops(x, y, l(x, y)) + YieldFrom(l, x + 1, y);
    PopsMember(x, y, l(x, y), mv);
    if SourceIndex(mv) == 8 * y + x && 0 <= mv.xSource < 8 {
      IndexUnique(mv.xSource, mv.ySource, x, y);
    }
  }

  /** The iterator yields exactly the moves of the pieces of colour w: a
      source of that colour and a destination its moves() list holds. */
  lemma YieldComplete(b: Rows, w: bool, mv: ChessMove)
    ensures mv in YieldFrom(OwnLists(b, w), 0, 0) <==>
      OnBoard(mv.xSource, mv.ySource) && Own(b, (mv.xSource, mv.ySource), w)
      && Listed(Moves(b, mv.xSource, mv.ySource), mv.xDest, mv.yDest)
  {
    OwnListsEven(b, w);
    YieldMember(OwnLists(b, w), 0, 0, mv);
    if OnBoard(mv.xSource, mv.ySource) {
      assert OwnLists(b, w)(mv.xSource, mv.ySource) == SquareList(b, w, mv.xSource, mv.ySource);
    }
  }

  /** Sources never go backwards in row-major order. */
  ghost predicate RowMajor(s: seq<ChessMove>)
  {
    forall k, k' :: 0 <= k < k' < |s| ==> SourceIndex(s[k]) <= SourceIndex(s[k'])
  }

  lemma {:induction false} PopsSource(x: int, y: int, m: seq<int>)
    ensures forall mv :: mv in Pops(x, y, m) ==> mv.xSource == x && mv.ySource == y
    decreases |m|
  {
    if |m| >= 2 {
      PopsSource(x, y, m[..|m| - 2]);
    }
  }

  /** The iterator visits sources in row-major order (y outer, x inner). */
  lemma {:induction false} YieldOrdered(l: Lists, x: int, y: int)
    requires EvenLists(l) && 0 <= x <= 8 && 0 <= y <= 8
    ensures RowMajor(YieldFrom(l, x, y))
    decreases 8 - y, 8 - x
  {
    if y < 8 && x < 8 {
      YieldOrdered(l, x + 1, y);
      OrderedStep(l, x, y);
    } else if y < 8 {
      YieldOrdered(l, 0, y + 1);
      assert YieldFrom(l, 8, y) == YieldFrom(l, 0, y + 1);
    }
  }

  /** Square (x, y)'s moves come before those of the squares after it. */
  lemma OrderedStep(l: Lists, x: int, y: int)
    requires EvenLists(l) && 0 <= x < 8 && 0 <= y < 8 && RowMajor(YieldFrom(l, x + 1, y))
    ensures RowMajor(YieldFrom(l, x, y))
  {
    var head, rest := Pops(x, y, l(x, y)), YieldFrom(l, x + 1, y);
    PopsSource(x, y, l(x, y));
    RestLater(l, x, y);
    OrderedConcat(head, rest, 8 * y + x);
    assert YieldFrom(l, x, y) == head + rest;
  }

  /** The squares after (x, y) yield moves from later sources only. */
  lemma RestLater(l: Lists, x: int, y: int)
    requires EvenLists(l) && 0 <= x < 8 && 0 <= y < 8
    ensures forall mv :: mv in YieldFrom(l, x + 1, y) ==> 8 * y + x < SourceIndex(mv)
  {
    forall mv | mv in YieldFrom(l, x + 1, y) ensures 8 * y + x < SourceIndex(mv) {
      LaterSource(l, x, y, mv);
    }
  }

  lemma LaterSource(l: Lists, x: int, y: int, mv: ChessMove)
    requires EvenLists(l) && 0 <= x < 8 && 0 <= y < 8 && mv in YieldFrom(l, x + 1, y)
    ensures 8 * y + x < SourceIndex(mv)
  {
    YieldMember(l, x + 1, y, mv);
  }

  /** One square's moves followed by moves from later squares stay ordered. */
  lemma OrderedConcat(head: seq<ChessMove>, rest: seq<ChessMove>, i: int)
    requires forall mv :: mv in head ==> SourceIndex(mv) == i
    requires forall mv :: mv in rest ==> i < SourceIndex(mv)
    requires RowMajor(rest)
    ensures RowMajor(head + rest)
  {
    var s := head + rest;
    forall k, k' | 0 <= k < k' < |s| ensures SourceIndex(s[k]) <= SourceIndex(s[k']) {
      if k' < |head| {
        assert s[k] in head && s[k'] in head;
      } else if k < |head| {
        assert s[k] in head && s[k'] == rest[k' - |head|];
      } else {
        assert s[k] == rest[k - |head|] && s[k'] == rest[k' - |head|];
      }
    }
  }

  /** Every move the iterator yields is one move() carries out. */
  lemma YieldLegal(b: Rows, w: bool, mv: ChessMove)
    requires mv in YieldFrom(OwnLists(b, w), 0, 0)
    ensures IsLegalMove(b, mv.xSource, mv.ySource, mv.xDest, mv.yDest)
    ensures ApplyMove(b, mv.xSource, mv.ySource, mv.xDest, mv.yDest).Ok?
  {
    YieldComplete(b, w, mv);
    LegalMoveApplies(b, mv.xSource, mv.ySource, mv.xDest, mv.yDest);
  }

  /** What an iterator at square (x, y) with list m still yields: the rest of
      m, then every later square; nothing once it is past the last row. */
  ghost function Rest(l: Lists, x: int, y: int, m: seq<int>): seq<ChessMove>
    requires -1 <= x < 8 && 0 <= y <= 8
  {
    if y == 8 then [] else Pops(x, y, m) + YieldFrom(l, x + 1, y)
  }

  /** The iterator's state between calls, and before advance() as well: the
      list at (x, y) is what remains of that square's list after the pairs
      handed out; past the last row the cursor is (0, 8) with no list. */
  ghost predicate Holds(l: Lists, x: int, y: int, m: seq<int>)
  {
    -1 <= x < 8 && 0 <= y <= 8 && |m| % 2 == 0
    && (y == 8 ==> x == 0 && m == [])
    && (y < 8 && m != [] ==> 0 <= x && |m| <= |l(x, y)| && m == l(x, y)[..|m|])
  }

  /** The first step of the walk from (x, y) lands on Succ(x, y). */
  lemma SkipsFirst(l: Lists, x: int, y: int)
    requires -1 <= x < 8 && 0 <= y < 8
    ensures Skips(l, x + 1, y, Succ(x, y).0, Succ(x, y).1)
  {
    if x + 1 == 8 {
      assert Skips(l, 0, y + 1, 0, y + 1);
    }
  }

  /** Dropping the last pair of the current list drops the first move to come. */
  lemma DropPair(l: Lists, x: int, y: int, m: seq<int>)
    requires -1 <= x < 8 && 0 <= y < 8 && |m| >= 2
    ensures Rest(l, x, y, m[..|m| - 2]) == Rest(l, x, y, m)[1..]
  {
    var tail := YieldFrom(l, x + 1, y);
    var p := Pops(x, y, m);
    assert p == [p[0]] + Pops(x, y, m[..|m| - 2]);
    DropFirst(p[0], Pops(x, y, m[..|m| - 2]), tail);
  }

  /** A cursor whose list is spent yields what the square it walks to yields. */
  lemma SkipRest(l: Lists, x: int, y: int, m: seq<int>, cx: int, cy: int, cm: seq<int>)
    requires -1 <= x < 8 && 0 <= y < 8 && |m| < 2
    requires 0 <= cx < 8 && 0 <= cy <= 8 && (cy == 8 ==> cx == 0 && cm == [])
    requires Skips(l, x + 1, y, cx, cy) && (cy < 8 ==> cm == l(cx, cy))
    ensures Rest(l, cx, cy, cm) == Rest(l, x, y, m)
  {
    var tail := YieldFrom(l, x + 1, y);
    PopsShort(x, y, m);
    PrependEmpty(tail);
    assert Rest(l, x, y, m) == tail;
    SkipsYield(l, x + 1, y, cx, cy);
    RestAt(l, cx, cy, cm);
  }

  /** A cursor holding its square's whole list yields what that square yields. */
  lemma RestAt(l: Lists, cx: int, cy: int, cm: seq<int>)
    requires 0 <= cx < 8 && 0 <= cy <= 8 && (cy == 8 ==> cx == 0 && cm == [])
    requires cy < 8 ==> cm == l(cx, cy)
    ensures Rest(l, cx, cy, cm) == YieldFrom(l, cx, cy)
  {
    if cy < 8 {
      assert YieldFrom(l, cx, cy) == Pops(cx, cy, cm) + YieldFrom(l, cx + 1, cy);
    }
  }

  /** What advance()'s loop keeps: before the first step the cursor is where
      it started; after it, the walk from the square after the start has
      reached (cx, cy) over barren squares, and cm is that square's list. */
  ghost predicate Walked(l: Lists, x0: int, y0: int, m1: seq<int>, cx: int, cy: int, cm: seq<int>, moved: bool)
  {
    -1 <= x0 < 8 && 0 <= y0 < 8
    && -1 <= cx < 8 && 0 <= cy <= 8 && (cy == 8 ==> cx == 0 && cm == []) && |cm| % 2 == 0
    && (!moved ==> cx == x0 && cy == y0 && cm == m1)
    && (moved ==> 0 <= cx && 8 * y0 + x0 < 8 * cy + cx && Skips(l, x0 + 1, y0, cx, cy)
                  && (cy < 8 ==> cm == l(cx, cy)))
  }

  /** One pass of advance()'s loop body keeps Walked. */
  lemma WalkStep(l: Lists, x0: int, y0: int, m1: seq<int>, cx: int, cy: int, cm: seq<int>, moved: bool,
                 nx: int, ny: int, nm: seq<int>)
    requires Walked(l, x0, y0, m1, cx, cy, cm, moved) && cy < 8 && |cm| < 2
    requires (nx, ny) == Succ(cx, cy)
    requires ny < 8 ==> nm == l(nx, ny) && |nm| % 2 == 0
    requires ny == 8 ==> nm == cm
    ensures Walked(l, x0, y0, m1, nx, ny, nm, true)
  {
    if moved {
      SkipsExtend(l, x0 + 1, y0, cx, cy);
    } else {
      SkipsFirst(l, x0, y0);
    }
  }

  /** Where advance()'s loop stops, started at (x0, y0) with list m1: on a
      square whose list holds a pair, or at the end; a list that already
      holds a pair keeps the cursor where it is, and otherwise the walk
      passed only barren squares. */
  ghost predicate Sought(l: Lists, x0: int, y0: int, m1: seq<int>, cx: int, cy: int, cm: seq<int>)
  {
    -1 <= x0 < 8 && 0 <= y0 < 8
    && -1 <= cx < 8 && 0 <= cy <= 8 && (cy == 8 ==> cx == 0 && cm == []) && (cy < 8 ==> |cm| >= 2)
    && |cm| % 2 == 0
    && (|m1| >= 2 ==> cx == x0 && cy == y0 && cm == m1)
    && (|m1| < 2 ==>
          0 <= cx && 8 * y0 + x0 < 8 * cy + cx && Skips(l, x0 + 1, y0, cx, cy) && (cy < 8 ==> cm == l(cx, cy)))
  }

  /** The loop's exit condition with Walked gives Sought. */
  lemma WalkDone(l: Lists, x0: int, y0: int, m1: seq<int>, cx: int, cy: int, cm: seq<int>, moved: bool)
    requires Walked(l, x0, y0, m1, cx, cy, cm, moved) && (|m1| >= 2 ==> !moved)
    requires !(cy < 8 && |cm| < 2) && |m1| % 2 == 0
    ensures Sought(l, x0, y0, m1, cx, cy, cm)
  {
  }

  /** The list advance() starts its loop with: the current one less its last
      pair, when it has one. */
  function Trim(m: seq<int>): (t: seq<int>)
    ensures |m| >= 2 ==> t == m[..|m| - 2]
    ensures |m| < 2 ==> t == m
  {
    if |m| >= 2 then m[..|m| - 2] else m
  }

  /** The constructor's cursor sits before the first square with no list,
      so after its advance() everything is still to come. */
  lemma StartRest(l: Lists, cx: int, cy: int, cm: seq<int>)
    requires Advanced(l, -1, 0, [], cx, cy, cm)
    ensures Rest(l, cx, cy, cm) == YieldFrom(l, 0, 0)
  {
    PrependEmpty(YieldFrom(l, 0, 0));
  }

  /** What one advance() does, from cursor (x, y) with list m to (cx, cy)
      with list cm: between calls again, the move handed out (if any) is
      gone from what remains, a list with a second pair keeps its square,
      and otherwise the cursor moves forward over barren squares to the
      next square whose list holds a pair. */
  ghost predicate Advanced(l: Lists, x: int, y: int, m: seq<int>, cx: int, cy: int, cm: seq<int>)
  {
    Holds(l, x, y, m) && y < 8
    && Holds(l, cx, cy, cm) && (cy < 8 ==> |cm| >= 2)
    && Rest(l, cx, cy, cm) == (if m == [] then Rest(l, x, y, m) else Rest(l, x, y, m)[1..])
    && (|m| >= 4 ==> cx == x && cy == y && cm == m[..|m| - 2])
    && (|m| < 4 ==> 0 <= cx && 8 * y + x < 8 * cy + cx && Skips(l, x + 1, y, cx, cy) && (cy < 8 ==> cm == l(cx, cy)))
  }

  /** advance() keeps Holds and removes exactly the move handed out: the pair
      dropped from the current list; the squares it skips contribute nothing. */
  lemma AdvanceRest(l: Lists, x: int, y: int, m: seq<int>, cx: int, cy: int, cm: seq<int>)
    requires Holds(l, x, y, m) && y < 8
    requires Sought(l, x, y, Trim(m), cx, cy, cm)
    ensures Advanced(l, x, y, m, cx, cy, cm)
  {
    if |m| >= 4 {
      TakeTake(l(x, y), |cm|, |m|);
      DropPair(l, x, y, m);
    } else {
      if cy < 8 {
        TakeAll(cm);
      }
      if m == [] {
        SkipRest(l, x, y, m, cx, cy, cm);
      } else {
        SkipRest(l, x, y, m[..|m| - 2], cx, cy, cm);
        DropPair(l, x, y, m);
      }
    }
  }

  /** next() hands out the first move to come, the last pair of the list,
      and the advance() after it leaves the rest. */
  lemma Handed(l: Lists, x: int, y: int, m: seq<int>, cx: int, cy: int, cm: seq<int>)
    requires Advanced(l, x, y, m, cx, cy, cm) && |m| >= 2
    ensures Rest(l, x, y, m) != [] && Rest(l, x, y, m)[0] == ChessMove(x, y, m[|m| - 2], m[|m| - 1])
    ensures Rest(l, cx, cy, cm) == Rest(l, x, y, m)[1..]
  {
    assert Pops(x, y, m)[0] == ChessMove(x, y, m[|m| - 2], m[|m| - 1]);
  }

  // ---------------------------------------------------------------------

  /** The iterator object.  `moves` is the list of square (x, y) with the
      pairs already handed out removed; Java's null list is the empty
      sequence (both make hasNext false). */
  class ChessMoveIterator {
    var x: int
    var y: int
    var moves: seq<int>
    var state: ChessState
    var white: bool

    /** What holds between calls, and before advance() as well: the list is
        what remains of the current square's list after the pairs handed out. */
    ghost predicate Inv()
      reads this, state, state.rows
    {
      state.rows.Length == 8 && Holds(OwnLists(state.Position(), white), x, y, moves)
    }

    /** Between calls: the cursor rests on a square with a pair left, or at
        the end. */
    ghost predicate Valid()
      reads this, state, state.rows
    {
      Inv() && (y < 8 ==> |moves| >= 2)
    }

    /** The moves still to come, in the order next() returns them. */
    ghost function Remaining(): seq<ChessMove>
      reads this, state, state.rows
      requires Inv()
    {
      Rest(OwnLists(state.Position(), white), x, y, moves)
    }

    /** new ChessMoveIterator(curState, whiteMoves), as state.iterator(white)
        builds it. */
    constructor (curState: ChessState, whiteMoves: bool)
      requires curState.rows.Length == 8
      ensures state == curState && white == whiteMoves && Valid()
      ensures Remaining() == YieldFrom(OwnLists(curState.Position(), whiteMoves), 0, 0)
      ensures 0 <= x && Skips(OwnLists(curState.Position(), whiteMoves), 0, 0, x, y)
      ensures y < 8 ==> moves == OwnLists(curState.Position(), whiteMoves)(x, y)
    {
      x := -1;
      y := 0;
      moves := [];
      state := curState;
      white := whiteMoves;
      new;
      Advance();
      StartRest(OwnLists(state.Position(), white), x, y, moves);
    }

    /** advance(): drop the pair just handed out, then walk on to the next
        square of the colour whose list still holds a pair. */
    method Advance()
      requires Inv() && y < 8
      modifies this`x, this`y, this`moves
      ensures Valid()
      ensures Advanced(OwnLists(state.Position(), white), old(x), old(y), old(moves), x, y, moves)
    {
      var cm := moves;
      if |cm| >= 2 {
        cm := cm[..|cm| - 2];
      }
      var cx, cy;
      cx, cy, cm := Seek(x, y, cm);
      x, y, moves := cx, cy, cm;
      AdvanceRest(OwnLists(state.Position(), white), old(x), old(y), old(moves), x, y, moves);
    }

    /** advance()'s while loop: from square (x0, y0) with list m1, step
        through the squares in row-major order, reading each one's list,
        until one holds a pair or the rows run out. */
    method Seek(x0: int, y0: int, m1: seq<int>) returns (cx: int, cy: int, cm: seq<int>)
      requires state.rows.Length == 8 && -1 <= x0 < 8 && 0 <= y0 < 8 && |m1| % 2 == 0
      ensures Sought(OwnLists(state.Position(), white), x0, y0, m1, cx, cy, cm)
    {
      ghost var l := OwnLists(state.Position(), white);
      cx, cy, cm := x0, y0, m1;
      ghost var moved := false;
      while cy < 8 && |cm| < 2
        invariant Walked(l, x0, y0, m1, cx, cy, cm, moved)
        invariant |m1| >= 2 ==> !moved
        decreases 64 - (8 * cy + cx)
      {
        ghost var px, py, pm := cx, cy, cm;
        cx := cx + 1;
        if cx >= 8 {
          cx := 0;
          cy := cy + 1;
        }
        if cy < 8 {
          cm := ListAt(cx, cy);
        }
        WalkStep(l, x0, y0, m1, px, py, pm, moved, cx, cy, cm);
        moved := true;
      }
      WalkDone(l, x0, y0, m1, cx, cy, cm, moved);
    }

    /** The list advance() reads on arriving at square (c, r): moves(c, r)
        when the square holds a piece of the iterator's colour, else null. */
    method ListAt(c: int, r: int) returns (m: seq<int>)
      requires state.rows.Length == 8 && OnBoard(c, r)
      ensures m == OwnLists(state.Position(), white)(c, r) && |m| % 2 == 0
    {
      if GetPiece(state.Position(), c, r) != None && IsWhite(state.Position(), c, r) == white {
        m := state.Moves(c, r);
        MovesEven(state.Position(), c, r);
      } else {
        m := [];
      }
      assert m == SquareList(state.Position(), white, c, r);
    }

    /** hasNext(): a pair is left exactly when moves remain. */
    method HasNext() returns (r: bool)
      requires Valid()
      ensures r <==> Remaining() != []
      ensures r <==> y < 8
    {
      return |moves| >= 2;
    }

    /** next(): hand out the last pair of the current square's list, then
        advance. */
    method Next() returns (mv: ChessMove)
      requires Valid() && y < 8
      modifies this`x, this`y, this`moves
      ensures mv == old(Remaining())[0] && Valid() && Remaining() == old(Remaining())[1..]
      ensures mv == ChessMove(old(x), old(y), old(moves)[|old(moves)| - 2], old(moves)[|old(moves)| - 1])
      ensures |old(moves)| >= 4 ==> x == old(x) && y == old(y) && moves == old(moves)[..|old(moves)| - 2]
      ensures |old(moves)| < 4 ==>
        8 * old(y) + old(x) < 8 * y + x && (x, y) != (old(x), old(y))
        && Skips(OwnLists(state.Position(), white), old(x) + 1, old(y), x, y)
        && (y < 8 ==> moves == OwnLists(state.Position(), white)(x, y))
    {
      ghost var x0, y0, m0 := x, y, moves;
      mv := ChessMove(x, y, moves[|moves| - 2], moves[|moves| - 1]);
      Advance();
      Handed(OwnLists(state.Position(), white), x0, y0, m0, x, y, moves);
    }
  }
}
