# ChessState in Dafny

A verified model of the move generator and the look-ahead search of
`ChessState.java`, a small console chess program. It has four parts:

- **Board.** Eight 32-bit rows. Each square is a 4-bit nibble at bit
  `4*col`: three bits of piece code (`PieceMask` 7) and a colour bit
  (`WhiteMask` 8). `getPiece`, `isWhite` and `setPiece` are modelled on
  `bv32` words, so their bit arithmetic is verified, not abstracted.
- **Moves.** `moves`, `checkMove`, `checkPawnMove` and `isValidMove`, plus
  `move` with its three exceptions, pawn promotion and king-capture cascade.
- **Iterator.** `ChessMoveIterator` walks the squares of one colour in
  row-major order, popping moves from the end of each square's list.
- **Search.** `heuristic` and `didWin`, `getChildStates`,
  `alphaBetaPruning` over the candidate pool `possibleMoves`, the two
  best-move scans and `makeComputerMove`.

The model keeps the source's shape:

- Pure code (`getPiece`, `isWhite`, `inc`, `dec`, and the rules each loop
  follows) is written as functions on the board value `Rows`, a `seq<bv32>`
  of length 8.
- Code that changes state is written as methods with loops:
  - `State.ChessState` holds `rows: array<bv32>` and the `heuristic` field;
  - `MoveIterator.ChessMoveIterator` holds the cursor `x`, `y` and the
    shrinking list `moves`;
  - `Engine.Searcher` holds the two static fields `initialDepth` and
    `possibleMoves`.
- Each method is proved against a function on the board:
  - `Moves` against `MoveGen.Moves`;
  - `Move` against `Rules.ApplyMove`;
  - `Next` against `MoveIterator.YieldFrom`;
  - `GetChildStates` against `Search.ChildMoves`;
  - `AlphaBeta` against `Search.Search`.

  The source's promises are lemmas about those functions.

The modules, in dependency order:

| module | contents |
|---|---|
| `Board` | piece codes, nibble layout, `getPiece`/`isWhite`/`setPiece` on words, `inc`/`dec`, the starting position |
| `MoveGen` | `checkMove`, `checkPawnMove` and `moves` as functions; what each loop appends |
| `Rules` | `move` as a function with its error cases; the cascade; legality |
| `Eval` | the material sum of `heuristic`, the jitter, `didWin` |
| `State` | class `ChessState`: the imperative `setPiece`, `resetBoard`, `heuristic`, `moves`, `isValidMove`, `move` |
| `MoveIterator` | class `ChessMoveIterator` and the sequence of moves it yields |
| `Search` | the children `getChildStates` makes, alpha-beta as a function, minimax, the candidate pool, the best-move choice |
| `Engine` | class `Searcher`: the imperative `didWin`, `getChildStates`, `alphaBetaPruning`, the best-move scans, `makeComputerMove` |

Four quirks of the source are kept as written:

- `getChildStates` reads the iterator's whole list, makes one child per
  pair, and then calls `next()` once, which pops only one pair. A square
  whose list has k pairs therefore gives k + (k-1) + ... + 1 children, with
  repeats (`Search.TriCount`).
- `move` empties the source with `white = true`, so `isWhite` may be true
  on an empty square. The model never assumes an empty square has colour
  bit 0.
- `isValidMove` does not check the source column. Column 8 reads as
  column 0, because Java reduces the shift distance 32 to 0 (see Findings).
- `Dec` has no upper bound check. It stays in [-1, 7] only for positions
  up to 8.

## Model

| member | source | states |
|---|---|---|
| Board.CodeValue | ChessState.java:37-38 | the three piece bits as an integer lie in 0..7 (agrees with Java's conversion by CodeConversions) |
| Board.Code | ChessState.java:49 | the nibble setPiece writes, piece ORed with WhiteMask, is below 16 |
| Board.InsertSteps | ChessState.java:47-50 | setPiece's `&=` with the complement of AllMask << 4*col followed by `|=` with the shifted code is the word with that one nibble replaced |
| Board.InsertNibble | ChessState.java:47-50 | replacing the nibble of column col changes the nibble of every column c with c mod 8 = col mod 8 to v and leaves every other nibble unchanged |
| Board.CodeConversions | ChessState.java:38-42 | the shift distance is 4*col reduced to five bits, as Java's shift does; the tabulated codes are the integers they spell |
| Board.ShiftInjective | ChessState.java:38 | columns that differ mod 8 are shifted by different distances |
| Board.JavaReads | ChessState.java:37-43 | getPiece is (row >> 4*col) & 7 and isWhite is (row >> 4*col) & 8 != 0, in Java's shift-then-mask order |
| Board.CodeParts | ChessState.java:37-49 | the code setPiece writes reads back as the same piece through `& PieceMask` and as the same colour through `& WhiteMask` |
| Board.GetPiece | ChessState.java:37-39 | getPiece on the board value: the piece bits of the square's nibble, read at column col mod 8; JavaReads restates it in Java's shift-then-mask order and SetPieceThenGet reads back what setPiece wrote |
| Board.IsWhite | ChessState.java:41-43 | isWhite on the board value: the colour bit of the square's nibble; SetPieceThenGet reads back the colour setPiece wrote |
| Board.SetPiece | ChessState.java:47-50 | setPiece on the board value: the row word with the one nibble of column col replaced by the code, every other row kept; InsertSteps, SetPieceThenGet and SetPieceFrame state its effect |
| Board.SetPieceThenGet | ChessState.java:37-50 | after setPiece(col, row, p, w), getPiece gives p and isWhite gives w at (col, row); every other nibble of that row and every other row is unchanged |
| Board.SetPieceFrame | ChessState.java:37-50 | after setPiece, every square other than (col mod 8, row) keeps its piece and colour |
| Board.SetPieceWellFormed | ChessState.java:47-50 | setPiece with a piece code 0..6 keeps every square's code in 0..6 |
| Board.WordOfNibbles | ChessState.java:24 | a row word is determined by its eight nibbles |
| Board.Inc | ChessState.java:313-317 | inc returns -1 or a value in 0..7, and returns pos + 1 exactly when 0 <= pos < 7 |
| Board.Dec | ChessState.java:319-323 | dec returns pos - 1 exactly when pos >= 1 and -1 otherwise; the result lies in -1..7 for pos <= 8 |
| Board.BackRank | ChessState.java:54-61 | each back-rank square holds a piece other than a pawn |
| Board.InitialRowsNibbles | ChessState.java:53-78 | the packed starting rows hold, nibble by nibble, the code resetBoard writes on each square |
| Board.InitialPosition | ChessState.java:53-78 | the starting position: rook, knight, bishop, queen, king, bishop, knight, rook on rows 0 and 7; pawns on rows 1 and 6; rows 2-5 empty; light on rows 0-1, dark on rows 6-7 |
| Board.SquareIndex | ChessState.java:84-86 | the row-major numbering of the 8x8 loops is a bijection between 0..63 and the squares |
| MoveGen.ProbeSound | ChessState.java:325-351 | checkMove and checkPawnMove append only a square on the board not held by the mover |
| MoveGen.RaySound | ChessState.java:194-196 | a sliding loop appends only squares on the board not held by the mover |
| MoveGen.SlideSound | ChessState.java:194-256 | each of the eight sliding loops of moves() appends only such squares |
| MoveGen.RookSound | ChessState.java:217-230 | the rook's four loops append only squares on the board not held by the mover |
| MoveGen.BishopSound | ChessState.java:193-206 | the bishop's four loops append only such squares |
| MoveGen.KnightSound | ChessState.java:207-216 | the eight knight jumps append only such squares |
| MoveGen.KingSound | ChessState.java:257-266 | the eight king steps append only such squares |
| MoveGen.MovesSound | ChessState.java:172-271 | every pair moves(c, r) returns lies in [0,7]x[0,7] and never holds a piece of the mover's colour |
| MoveGen.CheckMove | ChessState.java:325-334 | checkMove: stops off the board and on an own piece without adding; otherwise adds the square and stops exactly on a capture (ProbeSound, ProbePasses, RayStops) |
| MoveGen.CheckPawnMove | ChessState.java:336-351 | checkPawnMove: a diagonal is added only onto an opposing piece, a forward step only onto an empty square (PawnStepProbe, PawnCaptureProbe) |
| MoveGen.Moves | ChessState.java:172-271 | moves(col, row): the switch on the piece code, with the queen as the rook's loops then the bishop's; its lists are sound (MovesSound), even (MovesEven) and agree with the piece rules (PawnMovesRule, KnightMovesRule, KingMovesRule, SlideShape) |
| MoveGen.RayEven | ChessState.java:194-196 | a sliding loop appends whole (col, row) pairs |
| MoveGen.ProbeEven | ChessState.java:331-332 | each probe appends zero or two integers |
| MoveGen.SlidesEven | ChessState.java:193-256 | rook and bishop lists have even length |
| MoveGen.LeapersEven | ChessState.java:207-266 | knight and king lists have even length |
| MoveGen.PawnEven | ChessState.java:179-192 | pawn lists have even length |
| MoveGen.MovesEven | ChessState.java:172-271 | every list moves() returns has even length |
| MoveGen.RayCount | ChessState.java:194-196 | a sliding loop appends at most one pair per step its moving loop variable can take before inc or dec returns -1 |
| MoveGen.SlideCount | ChessState.java:194-205 | a sliding loop started from a board square covers at most the squares between the piece and the edge it heads for |
| MoveGen.RookCount | ChessState.java:217-230 | a rook has at most 14 moves |
| MoveGen.BishopCount | ChessState.java:193-206 | a bishop has at most 13 moves (its two diagonals hold at most 14 squares besides its own, and both are never the long diagonals) |
| MoveGen.KnightCount | ChessState.java:207-216 | a knight has at most 8 moves |
| MoveGen.KingCount | ChessState.java:257-266 | a king has at most 8 moves |
| MoveGen.PawnCount | ChessState.java:179-192 | a pawn has at most 4 moves |
| MoveGen.MovesCount | ChessState.java:11-11 | MAX_PIECE_MOVES = 27 holds: moves(col, row) of any board square lists at most 27 moves, whatever the board holds |
| MoveGen.RayStops | ChessState.java:194-196 | a probe that stops the loop ends the ray: its square is off the board, own, or an opposing piece that is included |
| MoveGen.RayGrows | ChessState.java:194-196 | an empty square in front of a ray of the right shape extends it |
| MoveGen.GrowsOnLine | ChessState.java:194-196 | the extended ray's pairs are still the consecutive squares along the direction |
| MoveGen.GrowsClear | ChessState.java:194-196 | the extended ray has only empty squares before its last pair |
| MoveGen.GrowsEnds | ChessState.java:194-196 | the extended ray still ends at a target beyond which the walk cannot go on |
| MoveGen.ProbePasses | ChessState.java:325-334 | a probe that lets the loop continue added its own square, which is empty |
| MoveGen.RayUnrolls | ChessState.java:194-196 | a loop that continues past step m appends that empty square, then the rest of the ray |
| MoveGen.RayFrom | ChessState.java:194-196 | from step m on, a sliding loop appends the consecutive squares along its direction: empty ones, then at most one opposing piece, stopping at the edge, at its own piece, or after a capture |
| MoveGen.SlideShape | ChessState.java:194-256 | each sliding loop of moves() stops at its first occupied square, which is included only if it holds an opposing piece |
| MoveGen.CursorStep | ChessState.java:194 | stepping a loop variable by inc or dec moves it one square along its direction |
| MoveGen.PawnStepProbe | ChessState.java:336-351 | the forward step is added only onto an empty square, and it stops the two-step exactly when that square is not empty |
| MoveGen.PawnDoubleProbe | ChessState.java:181-188 | from the home row the two-step square is added exactly when it is empty |
| MoveGen.PawnCaptureProbe | ChessState.java:183-190 | a diagonal is added exactly when it holds an opposing piece |
| MoveGen.PawnMovesRule | ChessState.java:179-192 | the pawn code equals the rule: the step forward if empty; the two-step only from row 1 (light) or 6 (dark) and only when the first step was empty; then the two captures, right first |
| MoveGen.ProbeIsLeap | ChessState.java:325-334 | checkMove on a stepped coordinate is the jump by that offset, when it is a target |
| MoveGen.LeapsOf8 | ChessState.java:207-216 | eight jumps are the concatenation of the single jumps, in order |
| MoveGen.KnightProbes | ChessState.java:208-215 | each of the eight knight probes is the jump by its offset |
| MoveGen.KnightMovesRule | ChessState.java:207-216 | the knight code tries the eight knight jumps in the source's order, keeping the targets |
| MoveGen.KingProbes | ChessState.java:258-265 | each of the eight king probes is the step by its offset |
| MoveGen.KingMovesRule | ChessState.java:257-266 | the king code tries the eight neighbouring squares in the source's order, keeping the targets |
| Rules.MoveErrors | ChessState.java:279-288 | move throws "out of range" exactly when a coordinate is outside [0,7]; "no piece" exactly when the source is empty; "take your own piece" exactly when the destination holds the mover's colour; otherwise it succeeds |
| Rules.ApplyMove | ChessState.java:278-311 | move() on the board value: the three checks in source order, the promotion, the two setPiece calls and the cascade after a king is taken; MoveErrors, MovePlaces, MoveFrame and KingCapture state its effect |
| Rules.ClearEffect | ChessState.java:301-305 | one step of the cascade empties its square exactly when it holds a piece of the other colour and changes nothing else |
| Rules.SweepEffect | ChessState.java:299-307 | the cascade empties exactly the squares holding the other colour and leaves every other square as it was |
| Rules.MovePlaces | ChessState.java:289-294 | after a successful move the source is empty; the destination holds the mover's piece in the mover's colour, or a queen for a pawn reaching row 0 or 7; the result is true exactly when a king was taken |
| Rules.PlacedEnds | ChessState.java:292-293 | the two setPiece calls leave the piece and colour on the destination and an empty source |
| Rules.PlacedFrame | ChessState.java:292-293 | the two setPiece calls leave every other square unchanged |
| Rules.MoveFrame | ChessState.java:278-310 | a move that takes no king changes only its source and destination |
| Rules.KingCapture | ChessState.java:294-309 | after a king is taken no piece of the taken colour remains; the mover's pieces off the two named squares are exactly those before, unchanged |
| Rules.MoveWellFormed | ChessState.java:278-310 | a successful move keeps every square's code in 0..6 |
| Rules.SweepWellFormed | ChessState.java:298-307 | the cascade keeps every square's code in 0..6 |
| Rules.LegalMoveApplies | ChessState.java:278-288 | every move whose source is on the board and whose destination moves() lists is one move() carries out without an exception |
| Rules.OffBoardColumnAccepted | ChessState.java:121-128 | isValidMove(8, 1, 8, 2) is true on the starting board, yet move(8, 1, 8, 2) throws "out of range" |
| Eval.PieceValue | ChessState.java:90-100 | the switch's values lie in 0..500 and are 0 exactly for an empty square |
| Eval.RowBound | ChessState.java:86-105 | the inner loop's sum over n squares is within 500 n of zero |
| Eval.MaterialBound | ChessState.java:84-106 | the outer loop's sum over m rows is within 4000 m of zero |
| Eval.HeuristicRange | ChessState.java:81-109 | heuristic lies in [-32001, 32001], so no int overflow, strictly between Integer.MIN_VALUE and Integer.MAX_VALUE |
| Eval.Heuristic | ChessState.java:81-109 | heuristic(rand): the signed material sum over the 64 squares plus nextInt(3) - 1; HeuristicRange bounds it and MoveMaterial gives its change under a move |
| Eval.DidWin | ChessState.java:483-485 | didWin: the heuristic with seed 3 is at most -500, or the heuristic with seed 66 is at least 500 |
| Eval.DidWinField | ChessState.java:483-485 | the heuristic field didWin leaves: the seed-3 value when that already reports a win (`||` skips the second call), the seed-66 value otherwise |
| Eval.RowDiff | ChessState.java:86-105 | a row's sum changes by exactly the gains of the squares that change |
| Eval.RowGainStep | ChessState.java:86-105 | each square adds its own change to the row's gain |
| Eval.MaterialDiff | ChessState.java:84-106 | the material sum changes by exactly the gains of the squares that change |
| Eval.MoveMaterial | ChessState.java:278-310 | a move that takes no king changes the material balance in the mover's favour by the value of the piece taken plus what a promotion adds |
| State.PlaceNext | ChessState.java:53-78 | each setPiece call of resetBoard writes the next square's starting nibble |
| State.PlacedAll | ChessState.java:53-78 | with all 64 nibbles placed the rows are the starting constant |
| State.PlaceBackRank | ChessState.java:53-78 | the eight explicit setPiece calls of a back rank place its eight nibbles |
| State.InitialWellFormed | ChessState.java:53-78 | the starting position holds piece codes 0..6 only |
| State.MoveWellFormedIf | ChessState.java:278-310 | a successful move from a well-formed board gives a well-formed board |
| State.RayStep | ChessState.java:194-196 | one probe of a sliding loop either ends the ray or is followed by the rest of the ray |
| State.UnseenStep | ChessState.java:123-126 | isValidMove's scan keeps "no pair so far matched" past a pair that does not match |
| State.UnseenAll | ChessState.java:123-127 | a scan that reached the end without a match means the pair is not listed |
| State.ClearAt | ChessState.java:299-305 | square (x, y) is step 8y + x of the cascade |
| State.ChessState.constructor | ChessState.java:26-29 | a new state holds the starting position with a zero heuristic |
| State.ChessState.Copy | ChessState.java:31-35 | the copy has the same rows, fresh, and a zero heuristic |
| State.ChessState.SetPiece | ChessState.java:47-50 | the array now holds the board setPiece gives on the old rows |
| State.ChessState.ResetBoard | ChessState.java:53-78 | resetBoard's explicit calls and loops leave exactly the starting rows |
| State.ChessState.SetHeuristic | ChessState.java:111-113 | the field holds the given value |
| State.ChessState.Heuristic | ChessState.java:81-109 | the nested loop returns and stores the material sum plus roll - 1 |
| State.ChessState.CheckMove | ChessState.java:325-334 | appends and returns what checkMove does on the current board |
| State.ChessState.CheckPawnMove | ChessState.java:336-351 | appends and returns what checkPawnMove does on the current board |
| State.ChessState.Slide | ChessState.java:194-196 | one `for(;true;)` loop appends exactly the sliding ray |
| State.ChessState.PawnProbes | ChessState.java:179-192 | the pawn case appends exactly the pawn moves |
| State.ChessState.KnightJumps | ChessState.java:207-216 | the knight case appends exactly the knight moves |
| State.ChessState.KingSteps | ChessState.java:257-266 | the king case appends exactly the king moves |
| State.ChessState.RookLoops | ChessState.java:217-230 | the rook's four loops append exactly the rook moves |
| State.ChessState.BishopLoops | ChessState.java:193-206 | the bishop's four loops append exactly the bishop moves |
| State.ChessState.Moves | ChessState.java:172-271 | returns exactly the list moves() builds on the current board |
| State.ChessState.IsValidMove | ChessState.java:121-128 | true exactly when (xDest, yDest) is a pair of moves(xSrc, ySrc) |
| State.ChessState.Move | ChessState.java:278-311 | on each of the three errors, reports it and leaves the board unchanged; otherwise leaves the board ApplyMove gives and returns whether a king was taken; keeps the board well formed |
| State.ChessState.Cascade | ChessState.java:298-307 | the nested loop leaves the board the full cascade gives |
| State.ChessState.ClearSquare | ChessState.java:301-305 | one pass of the inner loop body advances the cascade by one square |
| MoveIterator.Pops | ChessState.java:404-410 | repeated next() on one square yields one move per pair of the list |
| MoveIterator.OwnListsEven | ChessState.java:389-393 | every list the iterator can hold has even length |
| MoveIterator.SkipsYield | ChessState.java:384-395 | squares whose list holds no pair yield nothing, so the walk passes them |
| MoveIterator.SkipsExtend | ChessState.java:384-395 | a walk that reaches a square without a pair goes on to the next square |
| MoveIterator.PopsReversed | ChessState.java:379-412 | within a square the pairs come out last first: the k-th move is the (n-1-k)-th pair |
| MoveIterator.PopsMember | ChessState.java:404-410 | the moves one square yields are exactly the pairs of its list |
| MoveIterator.YieldMember | ChessState.java:379-412 | a move is yielded from a cursor on exactly when its source is at or after the cursor and its destination is listed for that source |
| MoveIterator.YieldEnd | ChessState.java:384 | past the last row nothing is yielded |
| MoveIterator.YieldWrap | ChessState.java:385-388 | column 8 of row y is the start of row y + 1 |
| MoveIterator.YieldStep | ChessState.java:389-393 | a square adds exactly its own pairs to what the later squares yield |
| MoveIterator.YieldFrom | ChessState.java:362-412 | the sequence of moves the iterator hands out from a square on, in row-major order, each square's pairs last first; YieldComplete, YieldOrdered and PopsReversed characterise it |
| MoveIterator.YieldComplete | ChessState.java:370-412 | the iterator yields exactly the moves whose source holds a piece of the requested colour and whose destination that piece's moves() lists |
| MoveIterator.PopsSource | ChessState.java:406-407 | every move from a square's list has that square as its source |
| MoveIterator.YieldOrdered | ChessState.java:384-395 | the iterator visits sources in row-major order, y outer and x inner |
| MoveIterator.OrderedStep | ChessState.java:384-395 | a square's moves come before those of the squares after it |
| MoveIterator.RestLater | ChessState.java:384-388 | the squares after (x, y) yield moves from later sources only |
| MoveIterator.LaterSource | ChessState.java:384-388 | a move yielded after square (x, y) has a later source |
| MoveIterator.OrderedConcat | ChessState.java:384-395 | one square's moves followed by later moves stay in order |
| MoveIterator.YieldLegal | ChessState.java:362-412 | every move the iterator yields is legal, and move() carries it out without an exception |
| MoveIterator.SkipsFirst | ChessState.java:385-388 | the walk's first step lands on the next square in row-major order |
| MoveIterator.DropPair | ChessState.java:380-383 | removing the last pair drops exactly the first move still to come |
| MoveIterator.SkipRest | ChessState.java:384-395 | a spent list gives way to the square the walk reaches, with nothing lost |
| MoveIterator.RestAt | ChessState.java:389-391 | a cursor holding its square's whole list still yields all of that square |
| MoveIterator.WalkStep | ChessState.java:384-395 | one pass of advance()'s loop keeps the walk's invariant |
| MoveIterator.WalkDone | ChessState.java:384 | the loop exits on a square with a pair or past the last row |
| MoveIterator.Trim | ChessState.java:380-383 | advance() drops the last pair when the list has one, and leaves it alone otherwise |
| MoveIterator.StartRest | ChessState.java:370-377 | after the constructor's advance() every move is still to come |
| MoveIterator.AdvanceRest | ChessState.java:379-396 | advance() removes exactly the move handed out and lands where the rest start |
| MoveIterator.Handed | ChessState.java:404-411 | next() returns the first move still to come, the last pair of the list, and leaves the rest |
| MoveIterator.ChessMoveIterator.constructor | ChessState.java:370-377 | the new iterator holds every move of the colour, in order; its cursor has walked from (0, 0) past squares without a pair |
| MoveIterator.ChessMoveIterator.Advance | ChessState.java:379-396 | advance() leaves the iterator valid, with the moves to come those before less the one handed out |
| MoveIterator.ChessMoveIterator.Seek | ChessState.java:384-395 | the while loop walks to the next square whose list holds a pair, or past the last row |
| MoveIterator.ChessMoveIterator.ListAt | ChessState.java:389-393 | the list read on a square is moves(x, y) for a piece of the colour, empty (null) otherwise |
| MoveIterator.ChessMoveIterator.HasNext | ChessState.java:399-401 | true exactly when moves remain, exactly when the cursor is before row 8 |
| MoveIterator.ChessMoveIterator.Next | ChessState.java:404-412 | returns the first move to come, the last pair of the list, and removes it; stays on the square while a pair is left, else walks forward in row-major order |
| Search.AllPairs | ChessState.java:425-433 | the inner for loop makes one move per pair |
| Search.ChildMovesAre | ChessState.java:418-437 | the children's moves are the square-by-square walk of the repeated loops |
| Search.ChildMoves | ChessState.java:418-437 | the moves of getChildStates' children, in order; ChildComplete and ChildLegal say which moves they are and TriCount how often each square's moves repeat |
| Search.TodoIs | ChessState.java:423-435 | the table of children still to make is the walk's value |
| Search.Moved | ChessState.java:429-430 | a child board is the one move() leaves on the copy: the result on success, the copy unchanged otherwise; it stays well formed |
| Search.PlayApplies | ChessState.java:429-430 | the same for the looked-up child board |
| Search.AllPairsAt | ChessState.java:425-430 | the k-th move of the for loop is made from the k-th pair |
| Search.AllPairsStep | ChessState.java:425-433 | each pass of the for loop appends the move of its pair |
| Search.TriCount | ChessState.java:423-434 | a square whose list holds k pairs gives k (k + 1) / 2 children |
| Search.AllPairsMember | ChessState.java:425-433 | the for loop's moves are exactly the square's pairs |
| Search.TriMember | ChessState.java:423-434 | the repeated loops on one square make exactly the pairs of its list, repeats aside |
| Search.TriFromMember | ChessState.java:418-437 | getChildStates makes exactly the moves the iterator yields (some several times) |
| Search.TriFromEnd | ChessState.java:423 | past the last row no child is made |
| Search.TriWrap | ChessState.java:385-388 | column 8 of row y is the start of row y + 1 for the children too |
| Search.TriFromStep | ChessState.java:423-435 | one square adds its own children to those of the later squares |
| Search.ChildComplete | ChessState.java:418-437 | a move is a child's exactly when its source holds a piece of the colour and moves() lists its destination |
| Search.ChildLegal | ChessState.java:426-430 | every child comes from a legal move that isValidMove accepts and move() carries out, so the child board is that move's result |
| Search.PairValid | ChessState.java:426 | isValidMove accepts every pair of the iterator's list, so the `continue` is never taken |
| Search.TriShort | ChessState.java:423 | a list without a pair gives no children |
| Search.SkipsTri | ChessState.java:384-395 | squares without a pair give no children |
| Search.TriAdvance | ChessState.java:423-435 | one pass of the while loop makes every pair of the current list, and next() leaves the iterator where the rest start |
| Search.TriStay | ChessState.java:423-435 | next() on a list with a second pair stays on the square with one pair fewer |
| Search.TriEntry | ChessState.java:389-391 | arriving on a square with its whole list, everything it gives is still to come |
| Search.TriStart | ChessState.java:420-423 | after the iterator's constructor every child is still to be made |
| Search.LeafOf | ChessState.java:483-485 | a node's score is heuristic(new Random(3)), its win flag is didWin, and the score is strictly between the sentinels |
| Search.LeafIs | ChessState.java:441-445 | the looked-up leaf is that value |
| Search.NodeIs | ChessState.java:439-481 | the looked-up node is alpha-beta's result |
| Search.Search | ChessState.java:439-481 | alphaBetaPruning as a function: its return value, the node's final heuristic field and the candidates it appends to possibleMoves; SearchBound and FullWindow relate it to Minimax |
| Search.Scan | ChessState.java:447-479 | the loop over the children of either branch: strict improvement of bestValue, narrowing of alpha or beta and the break once alpha >= beta |
| Search.Minimax | ChessState.java:439-481 | the reference alphaBetaPruning is compared against: the same tree, leaves and start values, with the window and the break removed |
| Search.NodeLeaf | ChessState.java:441-445 | at depth 0 or on a win the node returns its heuristic, leaves that in the field, and adds itself to the pool exactly at depth initialDepth - 1 |
| Search.NodeInner | ChessState.java:447-480 | any other node returns the loop's bestValue; the field ends as that value or didWin's when bestValue never moved; a minimising node at initialDepth - 1 adds itself after its children |
| Search.CutEnd | ChessState.java:447-479 | with no child left the loop returns bestValue and adds nothing |
| Search.CutNext | ChessState.java:450-474 | one pass: search the child, keep a strictly better value, narrow alpha (max) or beta (min), stop once alpha >= beta |
| Search.PartwayStart | ChessState.java:448-465 | before the first child nothing has been collected |
| Search.PartwayStep | ChessState.java:450-474 | after child i the loop has either stopped with everything collected or goes on part-way |
| Search.PartwayEnd | ChessState.java:450-474 | the loop that ran over every child has collected everything |
| Search.NoChildren | ChessState.java:447-479 | with no children and no win the node returns Integer.MIN_VALUE (max) or Integer.MAX_VALUE (min) and keeps didWin's field |
| Search.MinimaxScanMono | ChessState.java:450-474 | later children never undo what earlier ones gave minimax |
| Search.MinimaxRange | ChessState.java:439-481 | minimax values are Java ints |
| Search.MinimaxScanRange | ChessState.java:450-474 | the minimax scan stays within Java ints |
| Search.SearchBound | ChessState.java:439-481 | inside a window alpha < beta, alpha-beta returns the minimax value when that lies strictly inside, an upper bound <= alpha when it fails low, a lower bound >= beta when it fails high |
| Search.ScanBoundMax | ChessState.java:447-461 | the maximising loop keeps that bound relation |
| Search.ScanBoundMin | ChessState.java:462-479 | the minimising loop keeps it, mirror image |
| Search.FullWindow | ChessState.java:540 | from the full window [Integer.MIN_VALUE, Integer.MAX_VALUE] the cut-offs never change the result: alpha-beta returns the minimax value |
| Search.SearchNoPool | ChessState.java:442-476 | below depth initialDepth - 1 nothing is added to possibleMoves |
| Search.ScanNoPool | ChessState.java:450-474 | nor by the loops of such nodes |
| Search.TargetPool | ChessState.java:441-478 | a minimising node at depth initialDepth - 1 adds itself once, with the value its field ends with |
| Search.FieldValue | ChessState.java:441-480 | a node's field ends equal to its return value, except a node whose loop never moved bestValue, which keeps didWin's value |
| Search.BoardsAt | ChessState.java:449-451 | the k-th candidate collected is the board of child i + k |
| Search.ScanPool | ChessState.java:447-461 | the root's loop adds the children's boards in order, and at least the first |
| Search.RootPool | ChessState.java:538-540 | after the root search possibleMoves holds boards of the root's children, in child order; it is empty when the root is a win, and non-empty when the root is not a win and has children |
| Search.PickStep | ChessState.java:514-536 | each candidate replaces the kept one exactly when it strictly beats it |
| Search.PickDone | ChessState.java:514-536 | the scan ends with the first best candidate for the side, or the copy of the parent when none beats the sentinel |
| Search.BestPickUnique | ChessState.java:514-536 | the choice is determined: among equally good candidates the first is kept |
| Search.ComputerMoveLegal | ChessState.java:538-545 | the computer's choice is either the parent's board or the board after a legal move of its own colour |
| Engine.Searcher.constructor | ChessState.java:415-416 | the searcher starts with the given depth and an empty pool |
| Engine.Searcher.DidWin | ChessState.java:483-485 | returns didWin and leaves the field of the last heuristic call, the second made only when the first reports no win |
| Engine.Searcher.Judge | ChessState.java:441 | the same, stated on the leaf table |
| Engine.Searcher.Score | ChessState.java:445 | heuristic(new Random(3)) returns and stores the node's score |
| Engine.Searcher.MakeChild | ChessState.java:429-431 | a fresh valid copy holds the child's board and the heuristic with the child's roll |
| Engine.Searcher.Accepts | ChessState.java:426-428 | isValidMove accepts the pair |
| Engine.Searcher.AddChildren | ChessState.java:425-433 | the for loop adds one child per pair of the list, in order |
| Engine.Searcher.Pass | ChessState.java:434 | next() keeps the iterator valid and moves its cursor as next() does |
| Engine.Searcher.Step | ChessState.java:423-435 | one pass of the while loop: the children still to make shrink by the current list's pairs |
| Engine.Searcher.Start | ChessState.java:419-423 | a fresh iterator with every child still to make |
| Engine.Searcher.GetChildStates | ChessState.java:418-437 | returns fresh children, one per move of ChildMoves in order, each a valid copy with its move made and its jittered heuristic set |
| Engine.Searcher.AlphaBeta | ChessState.java:439-481 | the value returned, the field left on the node and the candidates appended to possibleMoves are those of the alpha-beta function; in the leaf branch the heuristic is computed before the candidate is recorded, where the source adds the node first and writes its field after, which gives the same final candidate |
| Engine.Searcher.ScanChildren | ChessState.java:447-479 | the loop over the children returns bestValue, sets the node's field when bestValue moves, and appends each searched child's candidates, stopping once alpha >= beta |
| Engine.Searcher.Visit | ChessState.java:451-473 | one pass: search the child, keep a strictly better value and set the node's field to it, narrow alpha or beta |
| Engine.Searcher.GetBestPossibleMove | ChessState.java:514-536 | returns the first candidate with the best heuristic for the side (largest for light, smallest for dark), or a copy of the parent when none beats the sentinel |
| Engine.Searcher.MakeComputerMove | ChessState.java:538-545 | possibleMoves becomes the root search's pool, the result is its best pick, and with initialDepth equal to depth that is the parent's board or a legal move's result |

## Left out

- printBoard, getInput, makeHumanMove, the game-mode loops, their argument predicates and main: console input and output are not part of this model.
- java.util.Random: the draws of new Random(3), new Random(66) and each child's generator are parameters (a Jitter of rolls in 0..2), because the linear congruential generator is a foreign library.
- The unused Swing and imageio imports have no behaviour; the MAX_PIECE_MOVES constant is not read by the code, and MoveGen.MovesCount proves it bounds every square's list.
- ChessState.iterator(white) is modelled by the iterator's constructor, which it only calls.
- Engine.Searcher.AddChildren: the `continue` of getChildStates is not written out, because Accepts proves that isValidMove accepts every pair there.
- Engine.Searcher.AlphaBeta: depth is a nat. main passes the command-line depth to the game modes unchecked (ChessState.java:650-656), and a negative depth never reaches 0, so the source then recurses until a node has a winner or no children, or the Java stack overflows; the model does not cover that run.
- Engine.Searcher.MakeComputerMove: depth is a nat for the same reason; a negative command-line depth reaches it through humanIsWhiteMode, humanIsBlackMode or twoComputerMode (ChessState.java:558-620) and is not modelled.
- Engine.Searcher.AlphaBeta: its contract is stated through the looked-up Search.Node, which Search.NodeIs proves equal to Search.Search.
- Engine.Searcher.ScanChildren: the two Java branches `if (maximizingPlayer)` are one loop parameterised by max, since they differ only in the comparison, Math.max against Math.min, and the sentinel.
- Engine.Searcher.MakeComputerMove: it returns the chosen candidate's board and heuristic (a Candidate) instead of the ChessState object.
- Engine.Searcher.MakeComputerMove: legality of the chosen board is stated only when initialDepth equals depth, which is how the game modes call it (ChessState.java:610-620, 650-656).
- MoveIterator.ChessMoveIterator.Next: it requires y < 8, that is that hasNext() holds. On an exhausted iterator Java's next() throws a NullPointerException (moves is null) or an IndexOutOfBoundsException (fewer than two entries left) (ChessState.java:404-412); both callers loop on hasNext() (ChessState.java:423-435, 646-648), so the model leaves that failure out.
- possibleMoves holds ChessState references in the source and Candidate values (board and heuristic field) here. The one write to a node after it is added is in the leaf branch, where heuristic(new Random(3)) runs after possibleMoves.add (ChessState.java:442-445); Engine.Searcher.AlphaBeta makes that call before it records the candidate, so every candidate holds its node's final field value, which is what the reference shows when the best-move scan reads it.
- The static fields initialDepth and possibleMoves are fields of one Searcher object, so concurrent searches over the same statics are not modelled.
- MoveIterator.ChessMoveIterator: a null moves list is an empty sequence, and the ArrayList that getChildStates reads by alias is a value, since nothing mutates it during the read.
- State.ChessState.Heuristic: the "what?" RuntimeException of heuristic() is not modelled, because Valid() (codes 0..6 on every square) rules it out; only code 7 could reach it.
- Board.GetPiece: a row outside 0..7 makes Java throw ArrayIndexOutOfBoundsException from m_rows[row]; here it is a precondition.
- Board.IsWhite: a row outside 0..7 makes Java throw ArrayIndexOutOfBoundsException; here it is a precondition.
- Board.SetPiece: a row outside 0..7 makes Java throw ArrayIndexOutOfBoundsException; here it is a precondition.
- MoveGen.CheckMove: a row of 8 or more makes Java throw ArrayIndexOutOfBoundsException from getPiece (negative rows return early as in the source); here row < 8 is a precondition.
- MoveGen.CheckPawnMove: the same for a row of 8 or more; here row < 8 is a precondition.
- MoveGen.Moves: a row outside 0..7 makes Java throw ArrayIndexOutOfBoundsException from getPiece; here it is a precondition.
- State.ChessState.Moves: the same; here 0 <= row < 8 is a precondition.
- State.ChessState.SetPiece: a row outside 0..7 makes Java throw ArrayIndexOutOfBoundsException; here it is a precondition.
- State.ChessState.IsValidMove: a source row outside 0..7 makes Java throw ArrayIndexOutOfBoundsException (reachable from getInput with a row digit 0 or 9); here it is a precondition. A destination row outside 0..7 is handled as in the source: it is never listed, so the result is false.
- State.ChessState.Move: the Java exceptions are results (Err), and the board is left unchanged in those cases, as the source throws before any setPiece.

## Findings

| source | as written | input that shows it | evidently intended | confidence | as-written member | corrected member |
|---|---|---|---|---|---|---|
| ChessState.java:121-128 | isValidMove checks only that the destination is listed by moves(xSrc, ySrc); column 8 reads as column 0, because the shift distance 32 is reduced to 0 | isValidMove(8, 1, 8, 2) on the starting board (human input "i2i3") is true, and move(8, 1, 8, 2) then throws "out of range" | isValidMove also requires the source on the board, so every move it accepts is one move() carries out | not executed | Rules.OffBoardColumnAccepted | Rules.LegalMoveApplies |
