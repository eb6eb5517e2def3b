/** What the search explores, as values: the children getChildStates builds,
    in its order, and the value and candidate pool alphaBetaPruning produces,
    next to plain minimax over the same tree.

    Lookup tables.  SquareTris, Children, Todos, Plays, Leaves, Nodes and
    Cuts are functions chosen with `:|` subject to a predicate (TrisFor,
    ChildrenFor, TodoFor, PlaysFor, LeavesFor, NodesFor, CutsFor) that fixes
    every value on the arguments the model applies them to: each entry
    equals the definition it stands for (Tri, ChildList, TriRest, Moved,
    LeafOf, Search, Scan), and the ...Is lemmas (ChildMovesAre, TodoIs,
    PlayApplies, LeafIs, NodeIs) state that equality.  So no contract below
    speaks of an arbitrary value; the tables only keep each definition from
    being unfolded in proofs that do not need it. */
module Search {
  import opened Board
  import opened MoveGen
  import opened Rules
  import opened Eval
  import opened MoveIterator
  import State

  // ---------------------------------------------------------------------
  // getChildStates' children.
  //
  // getChildStates reads the iterator's current list in full, one child per
  // pair, and then calls next(), which pops only the last pair.  So the
  // iterator stays on a square while its list holds a pair, and a square
  // whose list holds k pairs gives k + (k - 1) + ... + 1 children: every
  // prefix of the list, longest first.

  /** The moves the inner for loop reads from list m of square (x, y): every
      pair, first to last. */
  function AllPairs(x: int, y: int, m: seq<int>): (r: seq<ChessMove>)
    ensures |r| == |m| / 2
    decreases |m|
  {
    if |m| < 2 then [] else AllPairs(x, y, m[..|m| - 2]) + [ChessMove(x, y, m[|m| - 2], m[|m| - 1])]
  }

  /** The children one square gives while the iterator stays on it: all of
      the list, then all of the list less its last pair, and so on. */
  function Tri(x: int, y: int, m: seq<int>): seq<ChessMove>
    decreases |m|
  {
    if |m| < 2 then [] else AllPairs(x, y, m) + Tri(x, y, m[..|m| - 2])
  }

  /** The children each square gives, square by square. */
  type Tris = (int, int) -> seq<ChessMove>

  /** t gives every square the children of its list in l.  The quantifier
      is instantiated only where a proof mentions Tri, so a proof about the
      walk over the squares does not unfold each square's children. */
  ghost predicate TrisFor(t: Tris, l: Lists)
  {
    forall c, r {:trigger Tri(c, r, l(c, r))} :: t(c, r) == Tri(c, r, l(c, r))
  }

  ghost function SquareTris(l: Lists): (t: Tris)
    ensures TrisFor(t, l)
  {
    var some: Tris := (c, r) => Tri(c, r, l(c, r));
    assert TrisFor(some, l);
    var t :| TrisFor(t, l);
    t
  }

  /** The children from square (x, y) on, in the iterator's row-major order. */
  function TriFrom(t: Tris, x: int, y: int): seq<ChessMove>
    requires 0 <= x <= 8 && 0 <= y
    decreases 8 - y, 8 - x
  {
    if y >= 8 then []
    else if x == 8 then TriFrom(t, 0, y + 1)
    else t(x, y) + TriFrom(t, x + 1, y)
  }

  /** The moves getChildStates(b, w) makes, one per child, in order. */
  ghost function ChildList(b: Rows, w: bool): seq<ChessMove>
  {
    TriFrom(SquareTris(OwnLists(b, w)), 0, 0)
  }

  /** f gives ChildList for colour w; the walk is unfolded only where
      ChildList is mentioned, which keeps it out of the search proofs. */
  ghost predicate ChildrenFor(w: bool, f: Rows -> seq<ChessMove>)
  {
    forall b {:trigger ChildList(b, w)} :: f(b) == ChildList(b, w)
  }

  ghost function Children(w: bool): Rows -> seq<ChessMove>
  {
    assert ChildrenFor(w, (b: Rows) => ChildList(b, w));
    var f :| ChildrenFor(w, f); f
  }

  /** The moves of the children a node searches. */
  ghost function ChildMoves(b: Rows, w: bool): seq<ChessMove>
  {
    Children(w)(b)
  }

  lemma ChildMovesAre(b: Rows, w: bool)
    ensures ChildMoves(b, w) == TriFrom(SquareTris(OwnLists(b, w)), 0, 0)
  {
    assert ChildMoves(b, w) == ChildList(b, w);
  }

  /** What getChildStates still makes from an iterator at (x, y) with list m. */
  function TriRest(t: Tris, x: int, y: int, m: seq<int>): seq<ChessMove>
    requires -1 <= x < 8 && 0 <= y <= 8
  {
    if y == 8 then [] else Tri(x, y, m) + TriFrom(t, x + 1, y)
  }

  /** f gives TriRest for the table t; TriRest is unfolded only where it is
      mentioned, which keeps getChildStates' loop free of it. */
  ghost predicate TodoFor(t: Tris, f: (int, int, seq<int>) -> seq<ChessMove>)
  {
    forall x, y, m {:trigger TriRest(t, x, y, m)} :: -1 <= x < 8 && 0 <= y <= 8 ==> f(x, y, m) == TriRest(t, x, y, m)
  }

  ghost function Todos(t: Tris): (int, int, seq<int>) -> seq<ChessMove>
  {
    var some := (x: int, y: int, m: seq<int>) => if -1 <= x < 8 && 0 <= y <= 8 then TriRest(t, x, y, m) else [];
    assert TodoFor(t, some);
    var f :| TodoFor(t, f); f
  }

  /** The children getChildStates still makes from an iterator at (x, y)
      holding list m. */
  ghost function Todo(t: Tris, x: int, y: int, m: seq<int>): seq<ChessMove>
  {
    Todos(t)(x, y, m)
  }

  lemma TodoIs(t: Tris, x: int, y: int, m: seq<int>)
    requires -1 <= x < 8 && 0 <= y <= 8
    ensures Todo(t, x, y, m) == TriRest(t, x, y, m)
  {
  }

  /** A child's board: the move applied to a copy of the parent (a move
      move() refuses leaves the copy as it was). */
  function Moved(b: Rows, mv: ChessMove): (r: Rows)
    ensures WellFormed(b) ==> WellFormed(r)
    ensures ApplyMove(b, mv.xSource, mv.ySource, mv.xDest, mv.yDest).Ok? ==>
      r == ApplyMove(b, mv.xSource, mv.ySource, mv.xDest, mv.yDest).value.board
    ensures !ApplyMove(b, mv.xSource, mv.ySource, mv.xDest, mv.yDest).Ok? ==> r == b
  {
    var res := ApplyMove(b, mv.xSource, mv.ySource, mv.xDest, mv.yDest);
    if res.Ok? then
      State.MoveWellFormedIf(b, mv.xSource, mv.ySource, mv.xDest, mv.yDest);
      res.value.board
    else b
  }

  /** f gives the board after each move from b; the search only needs the
      second conjunct, and the first comes into play only where Moved is
      mentioned, which keeps move()'s bit operations out of the search proofs. */
  ghost predicate PlaysFor(b: Rows, f: ChessMove -> Rows)
  {
    (forall mv {:trigger Moved(b, mv)} :: f(mv) == Moved(b, mv))
    && (forall mv {:trigger f(mv)} :: WellFormed(b) ==> WellFormed(f(mv)))
  }

  ghost function Plays(b: Rows): ChessMove -> Rows
  {
    assert PlaysFor(b, mv => Moved(b, mv));
    var f :| PlaysFor(b, f); f
  }

  /** The board a child of b made by mv holds. */
  ghost function Play(b: Rows, mv: ChessMove): Rows
  {
    Plays(b)(mv)
  }

  /** copy.move(mv) on a copy of b: the board after the move, or b unchanged
      when move throws. */
  lemma PlayApplies(b: Rows, mv: ChessMove)
    ensures WellFormed(b) ==> WellFormed(Play(b, mv))
    ensures ApplyMove(b, mv.xSource, mv.ySource, mv.xDest, mv.yDest).Ok? ==>
      Play(b, mv) == ApplyMove(b, mv.xSource, mv.ySource, mv.xDest, mv.yDest).value.board
    ensures !ApplyMove(b, mv.xSource, mv.ySource, mv.xDest, mv.yDest).Ok? ==> Play(b, mv) == b
  {
    assert Play(b, mv) == Moved(b, mv);
  }

  // ---------------------------------------------------------------------

  /** The k-th move of the for loop is the k-th pair of the list. */
  lemma {:induction false} AllPairsAt(x: int, y: int, m: seq<int>, k: int)
    requires |m| % 2 == 0 && 0 <= k < |m| / 2
    ensures AllPairs(x, y, m)[k] == ChessMove(x, y, PairAt(m, k).0, PairAt(m, k).1)
    decreases |m|
  {
    var m' := m[..|m| - 2];
    if k < |m| / 2 - 1 {
      AllPairsAt(x, y, m', k);
      assert PairAt(m', k) == PairAt(m, k);
    }
  }

  /** The for loop over the first n + 1 pairs adds the (n + 1)-th pair. */
  lemma AllPairsStep(x: int, y: int, m: seq<int>, i: int)
    requires 0 <= i && i + 2 <= |m|
    ensures AllPairs(x, y, m[..i + 2]) == AllPairs(x, y, m[..i]) + [ChessMove(x, y, m[i], m[i + 1])]
  {
    TakeTake(m, i, i + 2);
  }

  /** A square whose list holds k pairs gives k (k + 1) / 2 children. */
  lemma {:induction false} TriCount(x: int, y: int, m: seq<int>)
    requires |m| % 2 == 0
    ensures 2 * |Tri(x, y, m)| == (|m| / 2) * (|m| / 2 + 1)
    decreases |m|
  {
    if |m| >= 2 {
      TriCount(x, y, m[..|m| - 2]);
      var k := |m| / 2;
      assert |m[..|m| - 2]| / 2 == k - 1;
      assert (k - 1) * k + 2 * k == k * (k + 1);
    }
  }

  /** The pairs of every prefix of m are pairs of m. */
  lemma {:induction false} AllPairsMember(x: int, y: int, m: seq<int>, mv: ChessMove)
    requires |m| % 2 == 0
    ensures mv in AllPairs(x, y, m) <==> mv.xSource == x && mv.ySource == y && Listed(m, mv.xDest, mv.yDest)
  {
    if mv in AllPairs(x, y, m) {
      var k :| 0 <= k < |AllPairs(x, y, m)| && AllPairs(x, y, m)[k] == mv;
      AllPairsAt(x, y, m, k);
    }
    if mv.xSource == x && mv.ySource == y && Listed(m, mv.xDest, mv.yDest) {
      var k :| 0 <= k < |m| / 2 && PairAt(m, k) == (mv.xDest, mv.yDest);
      AllPairsAt(x, y, m, k);
    }
  }

  /** The repeated for loops on one square make only moves of that square's
      list, and all of them. */
  lemma {:induction false} TriMember(x: int, y: int, m: seq<int>, mv: ChessMove)
    requires |m| % 2 == 0
    ensures mv in Tri(x, y, m) <==> mv.xSource == x && mv.ySource == y && Listed(m, mv.xDest, mv.yDest)
    decreases |m|
  {
    if |m| >= 2 {
      var m' := m[..|m| - 2];
      TriMember(x, y, m', mv);
      AllPairsMember(x, y, m, mv);
      if Listed(m', mv.xDest, mv.yDest) {
        var k :| 0 <= k < |m'| / 2 && PairAt(m', k) == (mv.xDest, mv.yDest);
        assert PairAt(m, k) == PairAt(m', k);
      }
    }
  }

  /** Each square's children are the pairs of its list. */
  ghost predicate SquareMembers(t: Tris, l: Lists, mv: ChessMove)
  {
    forall c, r :: OnBoard(c, r) ==>
      (mv in t(c, r) <==> mv.xSource == c && mv.ySource == r && Listed(l(c, r), mv.xDest, mv.yDest))
  }

  /** getChildStates makes exactly the moves the iterator yields (each
      possibly several times). */
  lemma {:induction false} TriFromMember(t: Tris, l: Lists, x: int, y: int, mv: ChessMove)
    requires 0 <= x <= 8 && 0 <= y <= 8 && SquareMembers(t, l, mv)
    ensures mv in TriFrom(t, x, y) <==> YieldsAt(l, x, y, mv)
    decreases 8 - y, 8 - x
  {
    if y < 8 && x < 8 {
      TriFromMember(t, l, x + 1, y, mv);
      TriFromStep(t, l, x, y, mv);
    } else if y < 8 {
      TriFromMember(t, l, 0, y + 1, mv);
      TriWrap(t, l, y, mv);
    } else {
      TriFromEnd(t, l, x, y, mv);
    }
  }

  /** Past the last row getChildStates makes nothing. */
  lemma TriFromEnd(t: Tris, l: Lists, x: int, y: int, mv: ChessMove)
    requires 0 <= x <= 8 && y >= 8
    ensures mv in TriFrom(t, x, y) <==> YieldsAt(l, x, y, mv)
  {
  }

  lemma TriWrap(t: Tris, l: Lists, y: int, mv: ChessMove)
    requires 0 <= y < 8
    requires mv in TriFrom(t, 0, y + 1) <==> YieldsAt(l, 0, y + 1, mv)
    ensures mv in TriFrom(t, 8, y) <==> YieldsAt(l, 8, y, mv)
  {
    assert TriFrom(t, 8, y) == TriFrom(t, 0, y + 1);
  }

  lemma TriFromStep(t: Tris, l: Lists, x: int, y: int, mv: ChessMove)
    requires 0 <= x < 8 && 0 <= y < 8 && SquareMembers(t, l, mv)
    requires mv in TriFrom(t, x + 1, y) <==> YieldsAt(l, x + 1, y, mv)
    ensures mv in TriFrom(t, x, y) <==> YieldsAt(l, x, y, mv)
  {
    assert TriFrom(t, x, y) == t(x, y) + TriFrom(t, x + 1, y);
    assert mv in t(x, y) <==> mv.xSource == x && mv.ySource == y && Listed(l(x, y), mv.xDest, mv.yDest);
    if SourceIndex(mv) == 8 * y + x && 0 <= mv.xSource < 8 {
      IndexUnique(mv.xSource, mv.ySource, x, y);
    }
  }

  /** The children are the positions after exactly the moves of the pieces of
      the side to move: a source of that colour and a destination its moves()
      list holds. */
  lemma ChildComplete(b: Rows, w: bool, mv: ChessMove)
    ensures mv in ChildMoves(b, w) <==>
      OnBoard(mv.xSource, mv.ySource) && Own(b, (mv.xSource, mv.ySource), w)
      && Listed(Moves(b, mv.xSource, mv.ySource), mv.xDest, mv.yDest)
  {
    var l := OwnLists(b, w);
    var t := SquareTris(l);
    ChildMovesAre(b, w);
    OwnListsEven(b, w);
    forall c, r | OnBoard(c, r)
      ensures mv in t(c, r) <==> mv.xSource == c && mv.ySource == r && Listed(l(c, r), mv.xDest, mv.yDest)
    {
      assert t(c, r) == Tri(c, r, l(c, r));
      TriMember(c, r, l(c, r), mv);
    }
    TriFromMember(t, l, 0, 0, mv);
    if OnBoard(mv.xSource, mv.ySource) {
      assert l(mv.xSource, mv.ySource) == SquareList(b, w, mv.xSource, mv.ySource);
    }
  }

  /** Every child is reached by a move move() carries out, and the isValidMove
      filter of getChildStates never drops one. */
  lemma ChildLegal(b: Rows, w: bool, mv: ChessMove)
    requires mv in ChildMoves(b, w)
    ensures IsLegalMove(b, mv.xSource, mv.ySource, mv.xDest, mv.yDest)
    ensures ValidAsWritten(b, mv.xSource, mv.ySource, mv.xDest, mv.yDest)
    ensures ApplyMove(b, mv.xSource, mv.ySource, mv.xDest, mv.yDest).Ok?
      && Play(b, mv) == ApplyMove(b, mv.xSource, mv.ySource, mv.xDest, mv.yDest).value.board
  {
    ChildComplete(b, w, mv);
    LegalMoveApplies(b, mv.xSource, mv.ySource, mv.xDest, mv.yDest);
    PlayApplies(b, mv);
  }

  /** isValidMove accepts every pair of the list the iterator holds, so the
      `continue` in getChildStates is never taken. */
  lemma PairValid(b: Rows, w: bool, x: int, y: int, m: seq<int>, i: int, n: nat)
    requires OnBoard(x, y) && |m| <= |OwnLists(b, w)(x, y)| && m == OwnLists(b, w)(x, y)[..|m|]
    requires i == 2 * n && i + 1 < |m|
    ensures ValidAsWritten(b, x, y, m[i], m[i + 1])
  {
    var full := OwnLists(b, w)(x, y);
    assert full == SquareList(b, w, x, y);
    assert full == Moves(b, x, y);
    assert PairAt(full, n) == (m[i], m[i + 1]);
    PairListed(full, n);
  }

  lemma PairListed(m: seq<int>, n: nat)
    requires n < |m| / 2
    ensures Listed(m, PairAt(m, n).0, PairAt(m, n).1)
  {
  }

  lemma TriShort(x: int, y: int, m: seq<int>)
    requires |m| < 2
    ensures Tri(x, y, m) == []
  {
  }

  /** Barren squares give no children. */
  lemma {:induction false} SkipsTri(t: Tris, l: Lists, x1: int, y1: int, x2: int, y2: int)
    requires TrisFor(t, l)
    requires 0 <= x1 <= 8 && 0 <= y1 && 0 <= x2 <= 8 && 0 <= y2 && Skips(l, x1, y1, x2, y2)
    ensures TriFrom(t, x1, y1) == TriFrom(t, x2, y2)
    decreases 8 - y1, 8 - x1
  {
    if x1 == x2 && y1 == y2 {
    } else if x1 == 8 {
      SkipsTri(t, l, 0, y1 + 1, x2, y2);
    } else {
      TriShort(x1, y1, l(x1, y1));
      State.PrependEmpty(TriFrom(t, x1 + 1, y1));
      SkipsTri(t, l, x1 + 1, y1, x2, y2);
    }
  }

  /** One pass of getChildStates' while loop: the for loop makes every pair of
      the current list, and next() leaves the iterator where the rest starts. */
  lemma TriAdvance(t: Tris, l: Lists, x: int, y: int, m: seq<int>, cx: int, cy: int, cm: seq<int>)
    requires TrisFor(t, l) && -1 <= x < 8 && 0 <= y < 8 && |m| >= 2
    requires 0 <= cy <= 8 && (cy == 8 ==> cx == 0 && cm == [])
    requires |m| >= 4 ==> cx == x && cy == y && cm == m[..|m| - 2]
    requires |m| < 4 ==> 0 <= cx < 8 && Skips(l, x + 1, y, cx, cy) && (cy < 8 ==> cm == l(cx, cy))
    ensures TriRest(t, x, y, m) == AllPairs(x, y, m) + TriRest(t, cx, cy, cm)
  {
    if |m| >= 4 {
      TriStay(t, x, y, m);
    } else {
      TriShort(x, y, m[..|m| - 2]);
      AppendEmpty(AllPairs(x, y, m));
      SkipsTri(t, l, x + 1, y, cx, cy);
      TriEntry(t, l, cx, cy, cm);
    }
  }

  /** next() on a list with a second pair stays on the square. */
  lemma TriStay(t: Tris, x: int, y: int, m: seq<int>)
    requires -1 <= x < 8 && 0 <= y < 8 && |m| >= 4
    ensures TriRest(t, x, y, m) == AllPairs(x, y, m) + TriRest(t, x, y, m[..|m| - 2])
  {
    State.Assoc(AllPairs(x, y, m), Tri(x, y, m[..|m| - 2]), TriFrom(t, x + 1, y));
  }

  /** Arriving on square (cx, cy) with its list, or at the end. */
  lemma TriEntry(t: Tris, l: Lists, cx: int, cy: int, cm: seq<int>)
    requires TrisFor(t, l)
    requires 0 <= cx < 8 && 0 <= cy <= 8 && (cy == 8 ==> cx == 0 && cm == []) && (cy < 8 ==> cm == l(cx, cy))
    ensures TriFrom(t, cx, cy) == TriRest(t, cx, cy, cm)
  {
    if cy < 8 {
      assert t(cx, cy) == Tri(cx, cy, l(cx, cy));
    }
  }

  lemma AppendEmpty<T>(s: seq<T>)
    ensures s + [] == s
  {
  }

  /** The new iterator's first advance() leaves it where every child is still
      to come. */
  lemma TriStart(t: Tris, l: Lists, cx: int, cy: int, cm: seq<int>)
    requires TrisFor(t, l) && 0 <= cx < 8 && 0 <= cy <= 8 && (cy == 8 ==> cx == 0 && cm == [])
    requires Skips(l, 0, 0, cx, cy) && (cy < 8 ==> cm == l(cx, cy))
    ensures TriRest(t, cx, cy, cm) == TriFrom(t, 0, 0)
  {
    SkipsTri(t, l, 0, 0, cx, cy);
    TriEntry(t, l, cx, cy, cm);
  }

  // ---------------------------------------------------------------------
  // alphaBetaPruning, and plain minimax over the same tree.

  /** A state in possibleMoves: its board and its heuristic field. */
  datatype Candidate = Candidate(board: Rows, heuristic: int)

  /** What one alphaBetaPruning call produces: the value it returns, the value
      it leaves in the node's heuristic field, and the candidates it appends
      to possibleMoves, in order. */
  datatype Outcome = Outcome(value: int, field: int, pool: seq<Candidate>)

  /** Where the loop over the children ends: bestValue and the candidates. */
  datatype Scanned = Scanned(best: int, pool: seq<Candidate>)

  /** Math.max and Math.min. */
  function Max(a: int, b: int): int
  {
    if a >= b then a else b
  }

  function Min(a: int, b: int): int
  {
    if a <= b then a else b
  }

  /** bestValue before the first child: Integer.MIN_VALUE when maximising,
      Integer.MAX_VALUE when minimising. */
  function Worst(max: bool): int
  {
    if max then MinValue else MaxValue
  }

  /** bestValue after a child returns v: replaced only by a strictly better v. */
  function Better(max: bool, best: int, v: int): int
  {
    if max then (if v > best then v else best) else (if v < best then v else best)
  }

  /** What a node learns from its own board: heuristic(new Random(3)),
      whether didWin reports a win, and the field didWin leaves. */
  datatype Leaf = Leaf(score: int, won: bool, field: int)

  function LeafOf(b: Rows, j: Jitter): (r: Leaf)
    requires WellFormed(b)
    ensures r.score == Heuristic(b, j.roll3) && r.won == DidWin(b, j) && r.field == DidWinField(b, j)
    ensures MinValue < r.score < MaxValue
  {
    HeuristicRange(b, j.roll3);
    Leaf(Heuristic(b, j.roll3), DidWin(b, j), DidWinField(b, j))
  }

  /** f gives each well-formed board's Leaf.  As with PlaysFor, the first
      conjunct only comes into play where LeafOf is mentioned, so the search
      proofs never unfold heuristic(). */
  ghost predicate LeavesFor(j: Jitter, f: Rows -> Leaf)
  {
    (forall b {:trigger LeafOf(b, j)} :: WellFormed(b) ==> f(b) == LeafOf(b, j))
    && (forall b {:trigger f(b)} :: MinValue < f(b).score < MaxValue)
  }

  ghost function Leaves(j: Jitter): Rows -> Leaf
  {
    var w := (b: Rows) => if WellFormed(b) then LeafOf(b, j) else Leaf(0, false, 0);
    assert LeavesFor(j, w);
    var f :| LeavesFor(j, f); f
  }

  lemma LeafIs(b: Rows, j: Jitter)
    requires WellFormed(b)
    ensures Leaves(j)(b) == LeafOf(b, j)
  {
  }

  /** alphaBetaPruning(b, depth, alpha, beta, max, white) with initialDepth
      target + 1.  A node at depth 0, or one didWin reports, returns
      heuristic(new Random(3)); any other node scans the children
      getChildStates makes for its colour.  A node at depth target is added
      to possibleMoves: on the first branch always, and on the minimising
      branch after its loop (the maximising branch never adds it). */
  ghost function Search(b: Rows, depth: nat, alpha: int, beta: int, max: bool, white: bool, target: int, j: Jitter): Outcome
    requires WellFormed(b)
    decreases depth, 1, 0
  {
    var leaf := Leaves(j)(b);
    if depth == 0 || leaf.won then
      Outcome(leaf.score, leaf.score, if depth == target then [Candidate(b, leaf.score)] else [])
    else
      var s := Scan(b, ChildMoves(b, white), 0, depth - 1, alpha, beta, max, !white, target, j, Worst(max));
      // didWin left the second heuristic in the field; setHeuristic writes
      // every improvement of bestValue, so the field is bestValue once it moved.
      var field := if s.best == Worst(max) then leaf.field else s.best;
      Outcome(s.best, field, if !max && depth == target then s.pool + [Candidate(b, field)] else s.pool)
  }

  /** The loop over the children ms[i..] of board b, searched at depth d for
      colour white, with the window and bestValue it has reached: each child
      narrows alpha (maximising) or beta (minimising), and the loop stops as
      soon as alpha >= beta. */
  ghost function Scan(b: Rows, ms: seq<ChessMove>, i: nat, d: nat, alpha: int, beta: int, max: bool, white: bool,
                      target: int, j: Jitter, best: int): Scanned
    requires WellFormed(b) && i <= |ms|
    decreases d + 1, 0, |ms| - i
  {
    if i == |ms| then Scanned(best, [])
    else
      var c := Search(Play(b, ms[i]), d, alpha, beta, !max, white, target, j);
      var best' := Better(max, best, c.value);
      var alpha' := if max then Max(alpha, best') else alpha;
      var beta' := if max then beta else Min(beta, best');
      if alpha' >= beta' then Scanned(best', c.pool)
      else
        var rest := Scan(b, ms, i + 1, d, alpha', beta', max, white, target, j, best');
        Scanned(rest.best, c.pool + rest.pool)
  }

  /** Search and Scan looked up in tables: the same values, whose
      definitions unfold only where a lemma below names them. */
  ghost predicate NodesFor(target: int, j: Jitter, f: (Rows, nat, int, int, bool, bool) -> Outcome)
  {
    forall b, d: nat, alpha, beta, max, white {:trigger Search(b, d, alpha, beta, max, white, target, j)} ::
      WellFormed(b) ==> f(b, d, alpha, beta, max, white) == Search(b, d, alpha, beta, max, white, target, j)
  }

  ghost function Nodes(target: int, j: Jitter): (Rows, nat, int, int, bool, bool) -> Outcome
  {
    var w := (b: Rows, d: nat, alpha: int, beta: int, max: bool, white: bool) =>
      if WellFormed(b) then Search(b, d, alpha, beta, max, white, target, j) else Outcome(0, 0, []);
    assert NodesFor(target, j, w);
    var f :| NodesFor(target, j, f); f
  }

  ghost function Node(b: Rows, depth: nat, alpha: int, beta: int, max: bool, white: bool, target: int, j: Jitter): Outcome
  {
    Nodes(target, j)(b, depth, alpha, beta, max, white)
  }

  ghost predicate CutsFor(target: int, j: Jitter, f: (Rows, seq<ChessMove>, nat, nat, int, int, bool, bool, int) -> Scanned)
  {
    forall b, ms, i: nat, d: nat, alpha, beta, max, white, best {:trigger Scan(b, ms, i, d, alpha, beta, max, white, target, j, best)} ::
      WellFormed(b) && i <= |ms| ==> f(b, ms, i, d, alpha, beta, max, white, best) == Scan(b, ms, i, d, alpha, beta, max, white, target, j, best)
  }

  ghost function Cuts(target: int, j: Jitter): (Rows, seq<ChessMove>, nat, nat, int, int, bool, bool, int) -> Scanned
  {
    var w := (b: Rows, ms: seq<ChessMove>, i: nat, d: nat, alpha: int, beta: int, max: bool, white: bool, best: int) =>
      if WellFormed(b) && i <= |ms| then Scan(b, ms, i, d, alpha, beta, max, white, target, j, best) else Scanned(0, []);
    assert CutsFor(target, j, w);
    var f :| CutsFor(target, j, f); f
  }

  ghost function Cut(b: Rows, ms: seq<ChessMove>, i: nat, d: nat, alpha: int, beta: int, max: bool, white: bool,
                       target: int, j: Jitter, best: int): Scanned
  {
    Cuts(target, j)(b, ms, i, d, alpha, beta, max, white, best)
  }

  lemma NodeIs(b: Rows, depth: nat, alpha: int, beta: int, max: bool, white: bool, target: int, j: Jitter)
    requires WellFormed(b)
    ensures Node(b, depth, alpha, beta, max, white, target, j) == Search(b, depth, alpha, beta, max, white, target, j)
  {
  }

  /** A leaf, or a node didWin reports, is scored by its own heuristic. */
  lemma NodeLeaf(b: Rows, depth: nat, alpha: int, beta: int, max: bool, white: bool, target: int, j: Jitter)
    requires WellFormed(b) && (depth == 0 || Leaves(j)(b).won)
    ensures Node(b, depth, alpha, beta, max, white, target, j) ==
      Outcome(Leaves(j)(b).score, Leaves(j)(b).score, if depth == target then [Candidate(b, Leaves(j)(b).score)] else [])
  {
    assert Node(b, depth, alpha, beta, max, white, target, j) == Search(b, depth, alpha, beta, max, white, target, j);
  }

  /** Any other node takes the scan of its children. */
  lemma NodeInner(b: Rows, depth: nat, alpha: int, beta: int, max: bool, white: bool, target: int, j: Jitter)
    requires WellFormed(b) && depth != 0 && !Leaves(j)(b).won
    ensures var s := Cut(b, ChildMoves(b, white), 0, depth - 1, alpha, beta, max, !white, target, j, Worst(max));
      var o := Node(b, depth, alpha, beta, max, white, target, j);
      o.value == s.best
      && o.field == (if s.best == Worst(max) then Leaves(j)(b).field else s.best)
      && o.pool == if !max && depth == target then s.pool + [Candidate(b, o.field)] else s.pool
  {
    var ms := ChildMoves(b, white);
    assert Node(b, depth, alpha, beta, max, white, target, j) == Search(b, depth, alpha, beta, max, white, target, j);
    assert Cut(b, ms, 0, depth - 1, alpha, beta, max, !white, target, j, Worst(max))
        == Scan(b, ms, 0, depth - 1, alpha, beta, max, !white, target, j, Worst(max));
  }

  lemma CutEnd(b: Rows, ms: seq<ChessMove>, d: nat, alpha: int, beta: int, max: bool, white: bool, target: int, j: Jitter, best: int)
    requires WellFormed(b)
    ensures Cut(b, ms, |ms|, d, alpha, beta, max, white, target, j, best) == Scanned(best, [])
  {
    assert Cut(b, ms, |ms|, d, alpha, beta, max, white, target, j, best) == Scan(b, ms, |ms|, d, alpha, beta, max, white, target, j, best);
  }

  /** One step of the children loop: child i is searched with the window
      reached so far, and the loop either stops or goes on with the window
      that child narrowed. */
  lemma CutNext(b: Rows, ms: seq<ChessMove>, i: nat, d: nat, alpha: int, beta: int, max: bool, white: bool,
                  target: int, j: Jitter, best: int)
    requires WellFormed(b) && i < |ms|
    ensures var c := Node(Play(b, ms[i]), d, alpha, beta, !max, white, target, j);
      var best' := Better(max, best, c.value);
      var alpha' := if max then Max(alpha, best') else alpha;
      var beta' := if max then beta else Min(beta, best');
      var rest := Cut(b, ms, i + 1, d, alpha', beta', max, white, target, j, best');
      Cut(b, ms, i, d, alpha, beta, max, white, target, j, best) ==
        if alpha' >= beta' then Scanned(best', c.pool) else Scanned(rest.best, c.pool + rest.pool)
  {
    var child := Play(b, ms[i]);
    PlayApplies(b, ms[i]);
    assert Node(child, d, alpha, beta, !max, white, target, j) == Search(child, d, alpha, beta, !max, white, target, j);
    var c := Search(child, d, alpha, beta, !max, white, target, j);
    var best' := Better(max, best, c.value);
    var alpha' := if max then Max(alpha, best') else alpha;
    var beta' := if max then beta else Min(beta, best');
    assert Cut(b, ms, i + 1, d, alpha', beta', max, white, target, j, best')
        == Scan(b, ms, i + 1, d, alpha', beta', max, white, target, j, best');
    assert Cut(b, ms, i, d, alpha, beta, max, white, target, j, best)
        == Scan(b, ms, i, d, alpha, beta, max, white, target, j, best);
  }

  /** The children loop part-way, at child i with the window and bestValue
      it has reached: the candidates collected so far followed by those the
      rest of the loop collects are the whole loop's, and the rest ends on
      the whole loop's bestValue. */
  ghost predicate Partway(b: Rows, ms: seq<ChessMove>, i: nat, d: nat, alpha: int, beta: int, max: bool, white: bool,
                          target: int, j: Jitter, best: int, pool: seq<Candidate>, s: Scanned)
    requires WellFormed(b) && i <= |ms|
  {
    pool + Cut(b, ms, i, d, alpha, beta, max, white, target, j, best).pool == s.pool
    && Cut(b, ms, i, d, alpha, beta, max, white, target, j, best).best == s.best
  }

  lemma PartwayStart(b: Rows, ms: seq<ChessMove>, d: nat, alpha: int, beta: int, max: bool, white: bool, target: int, j: Jitter)
    requires WellFormed(b)
    ensures Partway(b, ms, 0, d, alpha, beta, max, white, target, j, Worst(max), [],
                    Cut(b, ms, 0, d, alpha, beta, max, white, target, j, Worst(max)))
  {
    State.PrependEmpty(Cut(b, ms, 0, d, alpha, beta, max, white, target, j, Worst(max)).pool);
  }

  /** Child i narrows the window; the loop either stops there, having
      collected everything, or goes on part-way at child i + 1. */
  lemma PartwayStep(b: Rows, ms: seq<ChessMove>, i: nat, d: nat, alpha: int, beta: int, max: bool, white: bool,
                    target: int, j: Jitter, best: int, pool: seq<Candidate>, s: Scanned)
    requires WellFormed(b) && i < |ms| && Partway(b, ms, i, d, alpha, beta, max, white, target, j, best, pool, s)
    ensures var c := Node(Play(b, ms[i]), d, alpha, beta, !max, white, target, j);
      var best' := Better(max, best, c.value);
      var alpha' := if max then Max(alpha, best') else alpha;
      var beta' := if max then beta else Min(beta, best');
      (alpha' >= beta' ==> pool + c.pool == s.pool && best' == s.best)
      && (alpha' < beta' ==> Partway(b, ms, i + 1, d, alpha', beta', max, white, target, j, best', pool + c.pool, s))
  {
    CutNext(b, ms, i, d, alpha, beta, max, white, target, j, best);
    var c := Node(Play(b, ms[i]), d, alpha, beta, !max, white, target, j);
    var best' := Better(max, best, c.value);
    var alpha' := if max then Max(alpha, best') else alpha;
    var beta' := if max then beta else Min(beta, best');
    if alpha' < beta' {
      State.Assoc(pool, c.pool, Cut(b, ms, i + 1, d, alpha', beta', max, white, target, j, best').pool);
    }
  }

  /** The loop that ran through all children has collected everything. */
  lemma PartwayEnd(b: Rows, ms: seq<ChessMove>, d: nat, alpha: int, beta: int, max: bool, white: bool,
                   target: int, j: Jitter, best: int, pool: seq<Candidate>, s: Scanned)
    requires WellFormed(b) && Partway(b, ms, |ms|, d, alpha, beta, max, white, target, j, best, pool, s)
    ensures pool == s.pool && best == s.best
  {
    CutEnd(b, ms, d, alpha, beta, max, white, target, j, best);
    AppendEmpty(pool);
  }

  /** Minimax over the same tree, with the same leaves and the same start
      values, looking at every child. */
  ghost function Minimax(b: Rows, depth: nat, max: bool, white: bool, j: Jitter): int
    requires WellFormed(b)
    decreases depth, 1, 0
  {
    var leaf := Leaves(j)(b);
    if depth == 0 || leaf.won then leaf.score
    else MinimaxScan(b, ChildMoves(b, white), 0, depth - 1, max, !white, j, Worst(max))
  }

  ghost function MinimaxScan(b: Rows, ms: seq<ChessMove>, i: nat, d: nat, max: bool, white: bool, j: Jitter, acc: int): int
    requires WellFormed(b) && i <= |ms|
    decreases d + 1, 0, |ms| - i
  {
    if i == |ms| then acc
    else MinimaxScan(b, ms, i + 1, d, max, white, j, Better(max, acc, Minimax(Play(b, ms[i]), d, !max, white, j)))
  }

  /** What a fail-soft alpha-beta value v says about the minimax value m
      for the window (alpha, beta): an upper bound when it fails low, a lower
      bound when it fails high, the value itself in between. */
  predicate Bound(v: int, m: int, alpha: int, beta: int)
  {
    (v <= alpha ==> m <= v) && (v >= beta ==> m >= v) && (alpha < v < beta ==> m == v)
  }

  // ---------------------------------------------------------------------

  /** A node with no children returns the start value of bestValue. */
  lemma NoChildren(b: Rows, depth: nat, alpha: int, beta: int, max: bool, white: bool, target: int, j: Jitter)
    requires WellFormed(b) && depth > 0 && !DidWin(b, j) && ChildMoves(b, white) == []
    ensures Search(b, depth, alpha, beta, max, white, target, j).field == DidWinField(b, j)
    ensures Search(b, depth, alpha, beta, max, white, target, j).value == Worst(max)
  {
    LeafIs(b, j);
  }

  /** Later children never undo what earlier ones gave minimax. */
  lemma {:induction false} MinimaxScanMono(b: Rows, ms: seq<ChessMove>, i: nat, d: nat, max: bool, white: bool, j: Jitter, acc: int)
    requires WellFormed(b) && i <= |ms|
    ensures max ==> MinimaxScan(b, ms, i, d, max, white, j, acc) >= acc
    ensures !max ==> MinimaxScan(b, ms, i, d, max, white, j, acc) <= acc
    decreases |ms| - i
  {
    if i < |ms| {
      MinimaxScanMono(b, ms, i + 1, d, max, white, j, Better(max, acc, Minimax(Play(b, ms[i]), d, !max, white, j)));
    }
  }

  /** Minimax values are Java ints. */
  lemma {:induction false} MinimaxRange(b: Rows, depth: nat, max: bool, white: bool, j: Jitter)
    requires WellFormed(b)
    ensures MinValue <= Minimax(b, depth, max, white, j) <= MaxValue
    decreases depth, 1, 0
  {
    if depth == 0 || Leaves(j)(b).won {
    } else {
      MinimaxScanRange(b, ChildMoves(b, white), 0, depth - 1, max, !white, j, Worst(max));
    }
  }

  lemma {:induction false} MinimaxScanRange(b: Rows, ms: seq<ChessMove>, i: nat, d: nat, max: bool, white: bool, j: Jitter, acc: int)
    requires WellFormed(b) && i <= |ms| && MinValue <= acc <= MaxValue
    ensures MinValue <= MinimaxScan(b, ms, i, d, max, white, j, acc) <= MaxValue
    decreases d + 1, 0, |ms| - i
  {
    if i < |ms| {
      MinimaxRange(Play(b, ms[i]), d, !max, white, j);
      MinimaxScanRange(b, ms, i + 1, d, max, white, j, Better(max, acc, Minimax(Play(b, ms[i]), d, !max, white, j)));
    }
  }

  /** The alpha-beta theorem for the fail-soft search alphaBetaPruning runs:
      for any window of Java ints with alpha < beta, the value it returns
      bounds the minimax value as Bound says. */
  lemma {:induction false} SearchBound(b: Rows, depth: nat, alpha: int, beta: int, max: bool, white: bool, target: int, j: Jitter)
    requires WellFormed(b) && MinValue <= alpha < beta <= MaxValue
    ensures Bound(Search(b, depth, alpha, beta, max, white, target, j).value, Minimax(b, depth, max, white, j), alpha, beta)
    decreases depth, 1, 0
  {
    if depth == 0 || Leaves(j)(b).won {
    } else if max {
      ScanBoundMax(b, ChildMoves(b, white), 0, depth - 1, alpha, alpha, beta, !white, target, j, MinValue, MinValue);
    } else {
      ScanBoundMin(b, ChildMoves(b, white), 0, depth - 1, alpha, beta, beta, !white, target, j, MaxValue, MaxValue);
    }
  }

  /** A maximising node's loop, started with window (alpha0, beta): alpha is
      alpha0 raised to bestValue, and bestValue agrees with the minimax
      accumulator above alpha0 and bounds it from above below. */
  lemma {:induction false} ScanBoundMax(b: Rows, ms: seq<ChessMove>, i: nat, d: nat, alpha0: int, alpha: int, beta: int,
                                        white: bool, target: int, j: Jitter, best: int, acc: int)
    requires WellFormed(b) && i <= |ms|
    requires MinValue <= alpha0 < beta <= MaxValue && alpha == Max(alpha0, best) && alpha < beta
    requires (best <= alpha0 ==> acc <= best) && (alpha0 < best ==> acc == best)
    ensures Bound(Scan(b, ms, i, d, alpha, beta, true, white, target, j, best).best,
                  MinimaxScan(b, ms, i, d, true, white, j, acc), alpha0, beta)
    decreases d + 1, 0, |ms| - i
  {
    if i < |ms| {
      var child := Play(b, ms[i]);
      var v := Search(child, d, alpha, beta, false, white, target, j).value;
      var m := Minimax(child, d, false, white, j);
      SearchBound(child, d, alpha, beta, false, white, target, j);
      var best', acc' := Better(true, best, v), Better(true, acc, m);
      if Max(alpha, best') >= beta {
        MinimaxScanMono(b, ms, i + 1, d, true, white, j, acc');
      } else {
        ScanBoundMax(b, ms, i + 1, d, alpha0, Max(alpha, best'), beta, white, target, j, best', acc');
      }
    }
  }

  /** The minimising node's loop, the mirror image with beta0 lowered. */
  lemma {:induction false} ScanBoundMin(b: Rows, ms: seq<ChessMove>, i: nat, d: nat, alpha: int, beta0: int, beta: int,
                                        white: bool, target: int, j: Jitter, best: int, acc: int)
    requires WellFormed(b) && i <= |ms|
    requires MinValue <= alpha < beta0 <= MaxValue && beta == Min(beta0, best) && alpha < beta
    requires (best >= beta0 ==> acc >= best) && (best < beta0 ==> acc == best)
    ensures Bound(Scan(b, ms, i, d, alpha, beta, false, white, target, j, best).best,
                  MinimaxScan(b, ms, i, d, false, white, j, acc), alpha, beta0)
    decreases d + 1, 0, |ms| - i
  {
    if i < |ms| {
      var child := Play(b, ms[i]);
      var v := Search(child, d, alpha, beta, true, white, target, j).value;
      var m := Minimax(child, d, true, white, j);
      SearchBound(child, d, alpha, beta, true, white, target, j);
      var best', acc' := Better(false, best, v), Better(false, acc, m);
      if alpha >= Min(beta, best') {
        MinimaxScanMono(b, ms, i + 1, d, false, white, j, acc');
      } else {
        ScanBoundMin(b, ms, i + 1, d, alpha, beta0, Min(beta, best'), white, target, j, best', acc');
      }
    }
  }

  /** With the window makeComputerMove opens, (Integer.MIN_VALUE,
      Integer.MAX_VALUE), alphaBetaPruning returns the minimax value: the
      cut-offs never change the result. */
  lemma FullWindow(b: Rows, depth: nat, max: bool, white: bool, target: int, j: Jitter)
    requires WellFormed(b)
    ensures Search(b, depth, MinValue, MaxValue, max, white, target, j).value == Minimax(b, depth, max, white, j)
  {
    SearchBound(b, depth, MinValue, MaxValue, max, white, target, j);
    MinimaxRange(b, depth, max, white, j);
  }

  // ---------------------------------------------------------------------
  // possibleMoves and the computer's choice.

  /** Below the collecting depth nothing is added to possibleMoves. */
  lemma {:induction false} SearchNoPool(b: Rows, depth: nat, alpha: int, beta: int, max: bool, white: bool, target: int, j: Jitter)
    requires WellFormed(b) && depth < target
    ensures Search(b, depth, alpha, beta, max, white, target, j).pool == []
    decreases depth, 1, 0
  {
    if depth > 0 && !Leaves(j)(b).won {
      ScanNoPool(b, ChildMoves(b, white), 0, depth - 1, alpha, beta, max, !white, target, j, Worst(max));
    }
  }

  lemma {:induction false} ScanNoPool(b: Rows, ms: seq<ChessMove>, i: nat, d: nat, alpha: int, beta: int, max: bool,
                                      white: bool, target: int, j: Jitter, best: int)
    requires WellFormed(b) && i <= |ms| && d < target
    ensures Scan(b, ms, i, d, alpha, beta, max, white, target, j, best).pool == []
    decreases d + 1, 0, |ms| - i
  {
    if i < |ms| {
      var c := Search(Play(b, ms[i]), d, alpha, beta, !max, white, target, j);
      SearchNoPool(Play(b, ms[i]), d, alpha, beta, !max, white, target, j);
      var best' := Better(max, best, c.value);
      var alpha' := if max then Max(alpha, best') else alpha;
      var beta' := if max then beta else Min(beta, best');
      if alpha' < beta' {
        ScanNoPool(b, ms, i + 1, d, alpha', beta', max, white, target, j, best');
      }
    }
  }

  /** A minimising node at the collecting depth adds itself once, with the
      value its heuristic field ends with. */
  lemma TargetPool(b: Rows, depth: nat, alpha: int, beta: int, white: bool, target: int, j: Jitter)
    requires WellFormed(b) && depth == target
    ensures Search(b, depth, alpha, beta, false, white, target, j).pool ==
      [Candidate(b, Search(b, depth, alpha, beta, false, white, target, j).field)]
  {
    if depth > 0 && !Leaves(j)(b).won {
      ScanNoPool(b, ChildMoves(b, white), 0, depth - 1, alpha, beta, false, !white, target, j, MaxValue);
    }
  }

  /** A node's heuristic field ends with its return value, except on a
      node whose loop never moved bestValue, which keeps didWin's value. */
  lemma FieldValue(b: Rows, depth: nat, alpha: int, beta: int, max: bool, white: bool, target: int, j: Jitter)
    requires WellFormed(b)
    ensures var o := Search(b, depth, alpha, beta, max, white, target, j);
      o.field == o.value || (o.value == Worst(max) && o.field == DidWinField(b, j))
  {
    LeafIs(b, j);
  }

  /** The candidates p hold the boards of the children made by ms[i..],
      in order. */
  ghost predicate BoardsFrom(b: Rows, ms: seq<ChessMove>, i: nat, p: seq<Candidate>)
    decreases |p|
  {
    i + |p| <= |ms| && (p != [] ==> p[0].board == Play(b, ms[i]) && BoardsFrom(b, ms, i + 1, p[1..]))
  }

  lemma {:induction false} BoardsAt(b: Rows, ms: seq<ChessMove>, i: nat, p: seq<Candidate>, k: nat)
    requires BoardsFrom(b, ms, i, p) && k < |p|
    ensures i + k < |ms| && p[k].board == Play(b, ms[i + k])
    decreases k
  {
    if k > 0 {
      BoardsAt(b, ms, i + 1, p[1..], k - 1);
    }
  }

  /** The loop of a maximising node just above the collecting depth d:
      possibleMoves receives one candidate per child it examines, in order,
      and it always examines the first. */
  lemma {:induction false} ScanPool(b: Rows, ms: seq<ChessMove>, i: nat, d: nat, alpha: int, beta: int,
                                    white: bool, j: Jitter, best: int)
    requires WellFormed(b) && i <= |ms|
    ensures var p := Scan(b, ms, i, d, alpha, beta, true, white, d, j, best).pool;
      BoardsFrom(b, ms, i, p) && (i < |ms| ==> p != [])
    decreases |ms| - i
  {
    if i < |ms| {
      var child := Play(b, ms[i]);
      var c := Search(child, d, alpha, beta, false, white, d, j);
      PlayApplies(b, ms[i]);
      TargetPool(child, d, alpha, beta, white, d, j);
      var best' := Better(true, best, c.value);
      var alpha' := Max(alpha, best');
      var p := Scan(b, ms, i, d, alpha, beta, true, white, d, j, best).pool;
      if alpha' < beta {
        ScanPool(b, ms, i + 1, d, alpha', beta, white, j, best');
        var rest := Scan(b, ms, i + 1, d, alpha', beta, true, white, d, j, best').pool;
        assert p == [Candidate(child, c.field)] + rest;
        assert p[1..] == rest;
      } else {
        assert p == [Candidate(child, c.field)];
        assert p[1..] == [];
      }
    }
  }

  /** makeComputerMove(b, depth, white) with initialDepth == depth, as every
      game mode sets it: possibleMoves ends with one candidate per root child
      examined, in the order getChildStates made them, and it is empty only
      when the root is a win or has no children. */
  lemma RootPool(b: Rows, depth: nat, white: bool, j: Jitter)
    requires WellFormed(b) && depth >= 1
    ensures var pool := Node(b, depth, MinValue, MaxValue, true, white, depth - 1, j).pool;
      var ms := ChildMoves(b, white);
      BoardsFrom(b, ms, 0, pool) && (DidWin(b, j) ==> pool == []) && (!DidWin(b, j) && ms != [] ==> pool != [])
  {
    NodeIs(b, depth, MinValue, MaxValue, true, white, depth - 1, j);
    LeafIs(b, j);
    if !Leaves(j)(b).won {
      ScanPool(b, ChildMoves(b, white), 0, depth - 1, MinValue, MaxValue, !white, j, MinValue);
    }
  }

  /** h is better than h' for the side to move: light maximises, dark
      minimises. */
  predicate Beats(white: bool, h: int, h': int)
  {
    if white then h > h' else h < h'
  }

  /** Among the first n candidates, pool[k] is the one
      getBestPossibleMoveWhite/Black keeps: it beats the sentinel and every
      earlier candidate, and none of the n beats it. */
  predicate Picked(pool: seq<Candidate>, n: int, white: bool, k: int)
    requires 0 <= k < n <= |pool|
  {
    Beats(white, pool[k].heuristic, Worst(white))
    && (forall i :: 0 <= i < k ==> Beats(white, pool[k].heuristic, pool[i].heuristic))
    && (forall i :: 0 <= i < n ==> !Beats(white, pool[i].heuristic, pool[k].heuristic))
  }

  /** The choice among the first n candidates: the first one with the best
      heuristic, or the copy of the current position when none beats the
      sentinel. */
  predicate BestAmong(pool: seq<Candidate>, n: int, default: Candidate, white: bool, r: Candidate)
    requires 0 <= n <= |pool|
  {
    (r == default && forall i :: 0 <= i < n ==> !Beats(white, pool[i].heuristic, Worst(white)))
    || exists k :: 0 <= k < n && r == pool[k] && Picked(pool, n, white, k)
  }

  predicate BestPick(pool: seq<Candidate>, default: Candidate, white: bool, r: Candidate)
  {
    BestAmong(pool, |pool|, default, white, r)
  }

  /** The state of the pick loop after n candidates: k is the index kept so
      far (-1 for none), r the candidate kept and h its heuristic. */
  predicate PickSoFar(pool: seq<Candidate>, n: int, default: Candidate, white: bool, r: Candidate, k: int, h: int)
  {
    0 <= n <= |pool|
    && ((k == -1 && r == default && h == Worst(white)
         && forall i :: 0 <= i < n ==> !Beats(white, pool[i].heuristic, Worst(white)))
        || (0 <= k < n && r == pool[k] && h == pool[k].heuristic && Picked(pool, n, white, k)))
  }

  /** One step of the pick loop: candidate n replaces the kept one exactly
      when it beats it. */
  lemma PickStep(pool: seq<Candidate>, n: int, default: Candidate, white: bool, r: Candidate, k: int, h: int)
    requires PickSoFar(pool, n, default, white, r, k, h) && n < |pool|
    ensures Beats(white, pool[n].heuristic, h) ==> PickSoFar(pool, n + 1, default, white, pool[n], n, pool[n].heuristic)
    ensures !Beats(white, pool[n].heuristic, h) ==> PickSoFar(pool, n + 1, default, white, r, k, h)
  {
  }

  lemma PickDone(pool: seq<Candidate>, default: Candidate, white: bool, r: Candidate, k: int, h: int)
    requires PickSoFar(pool, |pool|, default, white, r, k, h)
    ensures BestPick(pool, default, white, r)
  {
  }

  /** The choice is determined: the strict comparison keeps the first of
      equally good candidates. */
  lemma BestPickUnique(pool: seq<Candidate>, default: Candidate, white: bool, r1: Candidate, r2: Candidate)
    requires BestPick(pool, default, white, r1) && BestPick(pool, default, white, r2)
    ensures r1 == r2
  {
  }

  /** The computer's move is a legal move of its own colour (or no move, when
      no candidate beats the sentinel). */
  lemma ComputerMoveLegal(b: Rows, depth: nat, white: bool, j: Jitter, r: Candidate)
    requires WellFormed(b) && depth >= 1
    requires BestPick(Node(b, depth, MinValue, MaxValue, true, white, depth - 1, j).pool, Candidate(b, 0), white, r)
    ensures r.board == b || exists mv: ChessMove ::
      OnBoard(mv.xSource, mv.ySource) && Own(b, (mv.xSource, mv.ySource), white)
      && IsLegalMove(b, mv.xSource, mv.ySource, mv.xDest, mv.yDest)
      && ApplyMove(b, mv.xSource, mv.ySource, mv.xDest, mv.yDest).Ok?
      && r.board == ApplyMove(b, mv.xSource, mv.ySource, mv.xDest, mv.yDest).value.board
  {
    var pool := Node(b, depth, MinValue, MaxValue, true, white, depth - 1, j).pool;
    if r.board != b {
      var k :| 0 <= k < |pool| && r == pool[k] && Picked(pool, |pool|, white, k);
      RootPool(b, depth, white, j);
      BoardsAt(b, ChildMoves(b, white), 0, pool, k);
      var mv := ChildMoves(b, white)[k];
      ChildLegal(b, white, mv);
      ChildComplete(b, white, mv);
    }
  }
}
