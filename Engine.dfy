/** The search driver: didWin, getChildStates, alphaBetaPruning,
    getBestPossibleMoveWhite/Black and makeComputerMove.  The static fields
    initialDepth and possibleMoves become fields of one Searcher object, and
    the seeded generators become its Jitter. */
module Engine {
  import opened Board
  import opened MoveGen
  import opened Rules
  import opened Eval
  import opened MoveIterator
  import opened Search
  import State

  /** Child c of board b, made by mv, the k-th child of its getChildStates
      call: a valid copy of b with mv applied, its field set by
      heuristic(new Random(r.nextInt())). */
  ghost predicate Child(j: Jitter, b: Rows, c: State.ChessState, mv: ChessMove, k: nat)
    reads c, c.rows
  {
    c.Valid() && c.Position() == Play(b, mv) && c.heuristic == Eval.Heuristic(c.Position(), j.child(k))
  }

  /** The children cs were made by the moves ms, in order. */
  ghost predicate Made(j: Jitter, b: Rows, cs: seq<State.ChessState>, ms: seq<ChessMove>)
    reads set k | 0 <= k < |cs| :: cs[k], set k | 0 <= k < |cs| :: cs[k].rows
  {
    |cs| == |ms| && forall k :: 0 <= k < |cs| ==> Child(j, b, cs[k], ms[k], k)
  }

  lemma MadeAppend(j: Jitter, b: Rows, cs: seq<State.ChessState>, ms: seq<ChessMove>, c: State.ChessState, mv: ChessMove)
    requires Made(j, b, cs, ms) && Child(j, b, c, mv, |cs|)
    ensures Made(j, b, cs + [c], ms + [mv])
  {
    forall k | 0 <= k < |cs| + 1
      ensures Child(j, b, (cs + [c])[k], (ms + [mv])[k], k)
    {
      if k < |cs| {
        assert (cs + [c])[k] == cs[k] && (ms + [mv])[k] == ms[k];
      }
    }
  }

  class Searcher {
    /** The depth makeComputerMove was asked for, set by the game modes. */
    var initialDepth: int
    /** The candidates alphaBetaPruning collects at depth initialDepth - 1. */
    var possibleMoves: seq<Candidate>
    /** What new Random(3), new Random(66) and the children's generators draw. */
    const jitter: Jitter

    constructor (depth: int, j: Jitter)
      ensures initialDepth == depth && possibleMoves == [] && jitter == j
    {
      initialDepth := depth;
      possibleMoves := [];
      jitter := j;
    }

    /** didWin(s): dark has won when heuristic(new Random(3)) is at most
        -500, light when heuristic(new Random(66)) is at least 500; the
        second call is made only when the first reports no win. */
    method DidWin(s: State.ChessState) returns (r: bool)
      requires s.Valid()
      modifies s`heuristic
      ensures r == Eval.DidWin(s.Position(), jitter) && s.heuristic == DidWinField(s.Position(), jitter)
    {
      var h := s.Heuristic(jitter.roll3);
      if h <= -500 {
        return true;
      }
      h := s.Heuristic(jitter.roll66);
      return h >= 500;
    }

    /** didWin as alphaBetaPruning calls it, stated on the leaf table. */
    method Judge(s: State.ChessState) returns (r: bool)
      requires s.Valid()
      modifies s`heuristic
      ensures r == Leaves(jitter)(s.Position()).won && s.heuristic == Leaves(jitter)(s.Position()).field
    {
      r := DidWin(s);
      LeafIs(s.Position(), jitter);
    }

    /** heuristic(new Random(3)) as alphaBetaPruning calls it, stated on the
        leaf table. */
    method Score(s: State.ChessState) returns (h: int)
      requires s.Valid()
      modifies s`heuristic
      ensures h == s.heuristic == Leaves(jitter)(s.Position()).score
    {
      h := s.Heuristic(jitter.roll3);
      LeafIs(s.Position(), jitter);
    }

    /** One child of getChildStates: a copy of the parent, the move made on
        it, and its heuristic computed with the given roll. */
    method MakeChild(parent: State.ChessState, xs: int, ys: int, xd: int, yd: int, roll: Roll) returns (child: State.ChessState)
      requires parent.Valid()
      ensures fresh(child) && fresh(child.rows) && child.Valid()
      ensures child.Position() == Play(parent.Position(), ChessMove(xs, ys, xd, yd))
      ensures child.heuristic == Eval.Heuristic(child.Position(), roll)
    {
      child := new State.ChessState.Copy(parent);
      var _ := child.Move(xs, ys, xd, yd);
      PlayApplies(parent.Position(), ChessMove(xs, ys, xd, yd));
      var _ := child.Heuristic(roll);
    }

    /** The isValidMove filter of getChildStates on the pair at index i of
        the iterator's list m at (x, y), the n-th pair: it always accepts. */
    method Accepts(parent: State.ChessState, white: bool, x: int, y: int, m: seq<int>, i: nat, ghost n: nat) returns (ok: bool)
      requires parent.Valid() && OnBoard(x, y) && i == 2 * n && i + 1 < |m|
      requires |m| <= |OwnLists(parent.Position(), white)(x, y)| && m == OwnLists(parent.Position(), white)(x, y)[..|m|]
      ensures ok
    {
      PairValid(parent.Position(), white, x, y, m, i, n);
      ok := parent.IsValidMove(x, y, m[i], m[i + 1]);
    }

    /** getChildStates' inner for loop over the pairs of the iterator's list
        m at square (x, y), appending one child per pair to cs. */
    method AddChildren(parent: State.ChessState, white: bool, x: int, y: int, m: seq<int>,
                       cs: seq<State.ChessState>, ghost made: seq<ChessMove>) returns (cs': seq<State.ChessState>)
      requires parent.Valid() && OnBoard(x, y) && |m| % 2 == 0
      requires |m| <= |OwnLists(parent.Position(), white)(x, y)| && m == OwnLists(parent.Position(), white)(x, y)[..|m|]
      requires Made(jitter, parent.Position(), cs, made)
      ensures Made(jitter, parent.Position(), cs', made + AllPairs(x, y, m))
      ensures forall c | c in cs' :: c in cs || fresh(c)
    {
      ghost var b := parent.Position();
      cs' := cs;
      var i := 0;
      ghost var n := 0;
      while i < |m|
        invariant 0 <= i <= |m| && i == 2 * n
        invariant Made(jitter, b, cs', made + AllPairs(x, y, m[..i]))
        invariant forall c | c in cs' :: c in cs || fresh(c)
      {
        var ok := Accepts(parent, white, x, y, m, i, n);
        assert ok;
        ghost var done := made + AllPairs(x, y, m[..i]);
        var child := MakeChild(parent, x, y, m[i], m[i + 1], jitter.child(|cs'|));
        assert Made(jitter, b, cs', done);
        MadeAppend(jitter, b, cs', done, child, ChessMove(x, y, m[i], m[i + 1]));
        AllPairsStep(x, y, m, i);
        State.Assoc(made, AllPairs(x, y, m[..i]), [ChessMove(x, y, m[i], m[i + 1])]);
        cs' := cs' + [child];
        i, n := i + 2, n + 1;
      }
      TakeAll(m);
    }

    /** iterator.next(), as getChildStates calls it: the move it returns is
        not used, and the cursor moves as next() says. */
    method Pass(it: ChessMoveIterator)
      requires it.Valid() && it.y < 8
      modifies it`x, it`y, it`moves
      ensures it.Valid()
      ensures |old(it.moves)| >= 4 ==> it.x == old(it.x) && it.y == old(it.y) && it.moves == old(it.moves)[..|old(it.moves)| - 2]
      ensures |old(it.moves)| < 4 ==>
        8 * old(it.y) + old(it.x) < 8 * it.y + it.x && (it.x, it.y) != (old(it.x), old(it.y))
        && Skips(OwnLists(it.state.Position(), it.white), old(it.x) + 1, old(it.y), it.x, it.y)
        && (it.y < 8 ==> it.moves == OwnLists(it.state.Position(), it.white)(it.x, it.y))
    {
      var _ := it.Next();
    }

    /** iterator.next() in getChildStates' while loop: the children still to
        make lose exactly those of the current list, and the cursor moves on
        in row-major order or the list shrinks. */
    method Step(it: ChessMoveIterator, ghost t: Tris) returns (more: bool)
      requires it.Valid() && it.y < 8 && TrisFor(t, OwnLists(it.state.Position(), it.white))
      modifies it`x, it`y, it`moves
      ensures it.Valid() && (more <==> it.y < 8)
      ensures Todo(t, old(it.x), old(it.y), old(it.moves)) ==
        AllPairs(old(it.x), old(it.y), old(it.moves)) + Todo(t, it.x, it.y, it.moves)
      ensures !more ==> Todo(t, it.x, it.y, it.moves) == []
      ensures 8 * old(it.y) + old(it.x) < 8 * it.y + it.x
        || (it.x == old(it.x) && it.y == old(it.y) && |it.moves| < |old(it.moves)|)
    {
      ghost var x, y, m := it.x, it.y, it.moves;
      Pass(it);
      TriAdvance(t, OwnLists(it.state.Position(), it.white), x, y, m, it.x, it.y, it.moves);
      TodoIs(t, x, y, m);
      TodoIs(t, it.x, it.y, it.moves);
      more := it.HasNext();
    }

    /** parentState.iterator(isWhite) and the first hasNext(): every child
        is still to be made. */
    method Start(parent: State.ChessState, white: bool) returns (it: ChessMoveIterator, more: bool)
      requires parent.rows.Length == 8
      ensures fresh(it) && it.Valid() && it.state == parent && it.white == white && (more <==> it.y < 8)
      ensures Todo(SquareTris(OwnLists(parent.Position(), white)), it.x, it.y, it.moves) == ChildMoves(parent.Position(), white)
      ensures !more ==> Todo(SquareTris(OwnLists(parent.Position(), white)), it.x, it.y, it.moves) == []
    {
      ghost var l := OwnLists(parent.Position(), white);
      it := new ChessMoveIterator(parent, white);
      TriStart(SquareTris(l), l, it.x, it.y, it.moves);
      TodoIs(SquareTris(l), it.x, it.y, it.moves);
      ChildMovesAre(parent.Position(), white);
      more := it.HasNext();
    }

    /** getChildStates(parent, white): one child per pair of every list the
        iterator holds, in the order ChildMoves gives. */
    method GetChildStates(parent: State.ChessState, white: bool) returns (children: seq<State.ChessState>)
      requires parent.Valid()
      ensures Made(jitter, parent.Position(), children, ChildMoves(parent.Position(), white))
      ensures forall c | c in children :: fresh(c)
    {
      ghost var b := parent.Position();
      ghost var t := SquareTris(OwnLists(b, white));
      var it, more := Start(parent, white);
      children := [];
      ghost var made: seq<ChessMove> := [];
      while more
        invariant it.Valid() && it.state == parent && it.white == white
        invariant more <==> it.y < 8
        invariant made + Todo(t, it.x, it.y, it.moves) == ChildMoves(b, white)
        invariant !more ==> Todo(t, it.x, it.y, it.moves) == []
        invariant Made(jitter, b, children, made)
        invariant forall c | c in children :: fresh(c)
        decreases 64 - (8 * it.y + it.x), |it.moves|
      {
        ghost var x, y, m := it.x, it.y, it.moves;
        children := AddChildren(parent, white, it.x, it.y, it.moves, children, made);
        more := Step(it, t);
        State.Assoc(made, AllPairs(x, y, m), Todo(t, it.x, it.y, it.moves));
        made := made + AllPairs(x, y, m);
      }
      AppendEmpty(made);
    }

    /** alphaBetaPruning(parentState, depth, alpha, beta, maximizingPlayer,
        isWhite): its return value, the heuristic field it leaves on the node
        and the candidates it appends to possibleMoves are those of Search
        (looked up as Node). */
    method AlphaBeta(parent: State.ChessState, depth: nat, alpha: int, beta: int, max: bool, white: bool) returns (v: int)
      requires parent.Valid()
      modifies parent`heuristic, this`possibleMoves
      ensures v == Node(old(parent.Position()), depth, alpha, beta, max, white, initialDepth - 1, jitter).value
      ensures parent.heuristic == Node(old(parent.Position()), depth, alpha, beta, max, white, initialDepth - 1, jitter).field
      ensures possibleMoves == old(possibleMoves) + Node(old(parent.Position()), depth, alpha, beta, max, white, initialDepth - 1, jitter).pool
      decreases depth, 1
    {
      ghost var b := parent.Position();
      ghost var target := initialDepth - 1;
      var won := false;
      if depth != 0 {
        won := Judge(parent);
      }
      if depth == 0 || won {
        NodeLeaf(b, depth, alpha, beta, max, white, target, jitter);
        var h := Score(parent);
        if depth == initialDepth - 1 {
          possibleMoves := possibleMoves + [Candidate(parent.Position(), parent.heuristic)];
        }
        return h;
      }
      NodeInner(b, depth, alpha, beta, max, white, target, jitter);
      ghost var pool0 := possibleMoves;
      var children := GetChildStates(parent, white);
      ghost var ms := ChildMoves(b, white);
      v := ScanChildren(parent, children, b, ms, depth, alpha, beta, max, white);
      ghost var s := Cut(b, ms, 0, depth - 1, alpha, beta, max, !white, target, jitter, Worst(max));
      if !max && depth == initialDepth - 1 {
        possibleMoves := possibleMoves + [Candidate(parent.Position(), parent.heuristic)];
        State.Assoc(pool0, s.pool, [Candidate(b, parent.heuristic)]);
      }
    }

    /** The loop of alphaBetaPruning over the children (one loop for both
        players, branching on max): each child is searched one level deeper
        with the side and the window passed down, a strict improvement
        becomes the node's heuristic field, and the loop stops once
        alpha >= beta. */
    method ScanChildren(parent: State.ChessState, children: seq<State.ChessState>, ghost b: Rows, ghost ms: seq<ChessMove>,
                        depth: nat, alpha: int, beta: int, max: bool, white: bool) returns (best: int)
      requires depth >= 1 && WellFormed(b) && |children| == |ms|
      requires forall k :: 0 <= k < |children| ==> children[k].Valid() && children[k].Position() == Play(b, ms[k])
      requires forall c | c in children :: c != parent
      modifies parent`heuristic, this`possibleMoves, set c | c in children
      ensures best == Cut(b, ms, 0, depth - 1, alpha, beta, max, !white, initialDepth - 1, jitter, Worst(max)).best
      ensures parent.heuristic == if best == Worst(max) then old(parent.heuristic) else best
      ensures possibleMoves == old(possibleMoves) + Cut(b, ms, 0, depth - 1, alpha, beta, max, !white, initialDepth - 1, jitter, Worst(max)).pool
      decreases depth, 0
    {
      ghost var target := initialDepth - 1;
      ghost var s := Cut(b, ms, 0, depth - 1, alpha, beta, max, !white, target, jitter, Worst(max));
      ghost var pool: seq<Candidate> := [];
      PartwayStart(b, ms, depth - 1, alpha, beta, max, !white, target, jitter);
      best := if max then MinValue else MaxValue;
      var a, be := alpha, beta;
      var i := 0;
      while i < |children|
        invariant 0 <= i <= |children|
        invariant forall k :: 0 <= k < |children| ==> children[k].Valid() && children[k].Position() == Play(b, ms[k])
        invariant possibleMoves == old(possibleMoves) + pool
        invariant Partway(b, ms, i, depth - 1, a, be, max, !white, target, jitter, best, pool, s)
        invariant if max then best >= MinValue else best <= MaxValue
        invariant parent.heuristic == if best == Worst(max) then old(parent.heuristic) else best
      {
        ghost var c := Node(Play(b, ms[i]), depth - 1, a, be, !max, !white, target, jitter);
        PartwayStep(b, ms, i, depth - 1, a, be, max, !white, target, jitter, best, pool, s);
        assert children[i] in children;
        State.Assoc(old(possibleMoves), pool, c.pool);
        best, a, be := Visit(parent, children[i], b, ms[i], depth - 1, a, be, best, max, white);
        pool := pool + c.pool;
        if a >= be {
          break;
        }
        i := i + 1;
      }
      if i == |children| {
        PartwayEnd(b, ms, depth - 1, a, be, max, !white, target, jitter, best, pool, s);
      }
    }

    /** One pass of alphaBetaPruning's loop body: search the child made by
        mv one level deeper, keep a strictly better value as bestValue and as
        the node's heuristic field, and narrow alpha (maximising) or beta. */
    method Visit(parent: State.ChessState, child: State.ChessState, ghost b: Rows, ghost mv: ChessMove, d: nat,
                 alpha: int, beta: int, best: int, max: bool, white: bool) returns (best': int, alpha': int, beta': int)
      requires WellFormed(b) && child.Valid() && child.Position() == Play(b, mv) && child != parent
      modifies parent`heuristic, this`possibleMoves, child`heuristic
      ensures var c := Node(Play(b, mv), d, alpha, beta, !max, !white, initialDepth - 1, jitter);
        best' == Better(max, best, c.value) && possibleMoves == old(possibleMoves) + c.pool
      ensures alpha' == (if max then Max(alpha, best') else alpha) && beta' == (if max then beta else Min(beta, best'))
      ensures parent.heuristic == if best' == best then old(parent.heuristic) else best'
      decreases d, 2
    {
      var childValue := AlphaBeta(child, d, alpha, beta, !max, !white);
      best', alpha', beta' := best, alpha, beta;
      if (max && childValue > best) || (!max && childValue < best) {
        best' := childValue;
        parent.SetHeuristic(best');
      }
      if max {
        alpha' := Max(alpha, best');
      } else {
        beta' := Min(beta, best');
      }
    }

    /** getBestPossibleMoveWhite (white) and getBestPossibleMoveBlack: the
        candidate with the highest (lowest) heuristic, the first of equals,
        or a copy of the parent when none beats the sentinel. */
    method GetBestPossibleMove(parent: State.ChessState, white: bool) returns (r: Candidate)
      requires parent.rows.Length == 8
      ensures BestPick(possibleMoves, Candidate(parent.Position(), 0), white, r)
    {
      var bestHeuristic := if white then MinValue else MaxValue;
      var copy := new State.ChessState.Copy(parent);
      r := Candidate(copy.Position(), copy.heuristic);
      ghost var default := r;
      ghost var k := -1;
      for i := 0 to |possibleMoves|
        invariant PickSoFar(possibleMoves, i, default, white, r, k, bestHeuristic)
      {
        PickStep(possibleMoves, i, default, white, r, k, bestHeuristic);
        var h := possibleMoves[i].heuristic;
        if (white && h > bestHeuristic) || (!white && h < bestHeuristic) {
          r := possibleMoves[i];
          bestHeuristic := h;
          k := i;
        }
      }
      PickDone(possibleMoves, default, white, r, k, bestHeuristic);
    }

    /** makeComputerMove(chessState, depth, isWhite): a fresh possibleMoves,
        one full-window search from the current position, and the best
        candidate for the side to move. */
    method MakeComputerMove(state: State.ChessState, depth: nat, white: bool) returns (r: Candidate)
      requires state.Valid()
      modifies this`possibleMoves, state`heuristic
      ensures possibleMoves == Node(old(state.Position()), depth, MinValue, MaxValue, true, white, initialDepth - 1, jitter).pool
      ensures BestPick(possibleMoves, Candidate(old(state.Position()), 0), white, r)
      ensures initialDepth == depth >= 1 ==> r.board == old(state.Position()) || exists mv: ChessMove ::
        OnBoard(mv.xSource, mv.ySource) && Own(old(state.Position()), (mv.xSource, mv.ySource), white)
        && IsLegalMove(old(state.Position()), mv.xSource, mv.ySource, mv.xDest, mv.yDest)
        && ApplyMove(old(state.Position()), mv.xSource, mv.ySource, mv.xDest, mv.yDest).Ok?
        && r.board == ApplyMove(old(state.Position()), mv.xSource, mv.ySource, mv.xDest, mv.yDest).value.board
    {
      possibleMoves := [];
      ghost var b := state.Position();
      ghost var pool := Node(b, depth, MinValue, MaxValue, true, white, initialDepth - 1, jitter).pool;
      var _ := AlphaBeta(state, depth, MinValue, MaxValue, true, white);
      State.PrependEmpty(pool);
      assert possibleMoves == pool;
      r := GetBestPossibleMove(state, white);
      if initialDepth == depth >= 1 {
        ComputerMoveLegal(b, depth, white, jitter, r);
      }
    }
  }
}
