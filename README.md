# Ataxx board and AI player

This project models the core of an Ataxx program: the `Board` class and the `AI` player.

Board keeps an 11x11 array with a two-deep blocked border around the 7x7 playing area. It also keeps:

- the player to move and the streak of consecutive jumps;
- incremental piece counters and a cached winner;
- the history of moves;
- two parallel undo stacks with a sentinel opening each move's group;
- a snapshot of the piece counts that `undo` restores.

The AI enumerates the moves of a position in the order of four nested loops. It searches copies of the board with depth-limited minimax with alpha-beta cutoffs, and records the best move at the root.

The model is layered:

- **Values.** `Squares`, `Pieces`, `Moves`, `Grids` and `Rules` describe a position as a value (`Rules.Position`). `Rules.Apply` is the effect of `makeMove`, `Rules.Unwind` the pop loop of `undo`, `Rules.Winner` the verdict of `getWinner`, and `Rules.WithBlocks` the effect of `setBlock`.
- **Board.** `Boards.Board` is a class over an `array` with the same fields as the Java class. Each method is proved against the value layer.
  - `MakeMove` ensures `Pos() == Apply(old(Pos()), m)` plus the exact undo entries.
  - `Undo` ensures that the grid and stacks are `Unwind` of the old ones.
  - The capture loops, the pop loop of `undo`, the scan of `canMove` and the fill loop of `clear` are `while` loops with invariants.
- **Facts.** `CaptureFacts` and `RuleFacts` prove what the rules promise:
  - cell-by-cell effect of a move;
  - counters kept equal to the grid;
  - the make/undo round trip;
  - the starting layout;
  - the shape of a block placement.
- **Enumeration.** `Enumeration` defines the candidate list of `getAllMoves`. It proves the list holds exactly the legal non-pass moves, in the loop order, and is empty exactly when the mover cannot move.
- **Search.** `Minimax` defines the game tree and the alpha-beta search as functions, including the way `minMax` updates `bestScore` only after the cutoff test. `MinimaxFacts` bounds every value, and shows that the full-window root search returns the first move of best value. `Ai.AI` proves its recursive `MinMax` method, and the loops of `getAllMoves`, against these functions.

Coordinates are integers: column `c` stands for the character `'a' + c` and row `r` for `'1' + r`. Java `null` becomes `Option.None`. Exceptions become an `ok` result that is false with the state unchanged.

## Model

| member | source | states |
|---|---|---|
| Squares.Index | Board.java:79-81 | The linear index of a square of the extended board lies in the array; a square of the playing area lies in 24..96. |
| Squares.IndexCoords | Board.java:79-81 | Column and row of `index(c, r)` give back (c, r); the index is playable exactly when (c, r) is on the 7x7 board. |
| Squares.PlayableRange | Board.java:79-81 | Every playable square lies in 24..96 and is the index of its own column and row. |
| Squares.NeighborCoords | Board.java:83-87 | From a playable square, `neighbor` by at most two columns and two rows stays in the array and moves the coordinates by exactly those offsets. |
| Moves.ExtendOrJump | Board.java:292-321 | A non-pass move is an extend or a jump and never both, so exactly one branch of makeMove runs. |
| Grids.CountUpdate | Board.java:322-324 | Writing one square moves it from the tally of its old colour to the tally of the new one. |
| Grids.CountBound | AI.java:148 | No colour holds more squares than the grid has. |
| Rules.CaptureStepsShape | Board.java:296-320 | The capture loop only turns opponent pieces into the mover's, and records exactly such squares. |
| Rules.Apply | Board.java:274-327 | A move keeps the grid well formed, hands the turn to the opponent and keeps the cached winner. |
| Rules.Unwind | Board.java:345-352 | Popping an undo group keeps the stacks well formed and the border blocked. |
| Rules.UndoWfPrefix | Board.java:345-352 | Popping entries keeps the two undo stacks well formed. |
| Rules.BlockSquaresInRange | Board.java:381-387 | The four reflections through d4 of a square of the extended board lie inside the array. |
| CaptureFacts.CaptureSquaresDistinct | Board.java:296-297 | The capture loop visits nine distinct squares. |
| CaptureFacts.CaptureStepsAt | Board.java:296-320 | After n steps a square has turned to the mover exactly when it was visited and held the opponent; every other square is unchanged. |
| CaptureFacts.CaptureStepsCounts | Board.java:296-324 | Each capture moves one piece from the opponent's tally to the mover's. |
| CaptureFacts.PushCapturesWf | Board.java:299-300 | Pushing the captured squares with the opponent as their old contents keeps the undo stacks well formed. |
| CaptureFacts.UnwindTop | Board.java:345-352 | One step of the pop loop writes the saved colour back and pops the entry. |
| CaptureFacts.UnwindOneCapture | Board.java:345-352 | Popping a captured square gives the opponent's piece back. |
| CaptureFacts.UnwindCaptureStep | Board.java:345-352 | One more capture on top of a log that unwinds to a target still unwinds to it. |
| CaptureFacts.UnwindCaptures | Board.java:345-352 | Popping all captured squares restores every captured square to the opponent. |
| CaptureFacts.CaptureStepsNext | Board.java:296-305 | One more step of the capture loop, unfolded. |
| CaptureFacts.CaptureSquareAt | Board.java:296-297 | Step 3a + b of the loop visits the square a - 1 columns and b - 1 rows from the destination. |
| CaptureFacts.CaptureStateNext | Board.java:298-303 | One iteration of the capture loop keeps the loop's state equal to the first n steps of the capture function. |
| RuleFacts.ApplyGridAt | Board.java:292-321 | Cell by cell: the destination becomes the mover, a jump empties its source, opponent pieces adjacent to the destination flip, and nothing else changes. |
| RuleFacts.ApplyCounts | Board.java:291-324 | When the counters match the grid before a legal move, they match it after. |
| RuleFacts.PushMoveWf | Board.java:283-290 | The sentinel, source and destination entries keep the undo stacks well formed. |
| RuleFacts.UnwindMoveEntries | Board.java:345-352 | Popping the destination, the source and the sentinel writes back EMPTY and the mover. |
| RuleFacts.PlacedBorder | Board.java:292-310 | Placing the piece leaves the border blocked. |
| RuleFacts.PlacedUndone | Board.java:287-290 | Writing back the pushed old contents of destination and source undoes the placement. |
| RuleFacts.PushedConcat | Board.java:283-320 | makeMove's undo entries are the three opening entries followed by the captured squares. |
| RuleFacts.UndoAfterMove | Board.java:340-363 | Undo right after makeMove gives back the grid and both stacks as they were before the move. |
| RuleFacts.InitialCellAt | Board.java:100-115 | clear blocks exactly the border, puts RED on a7 and g1, BLUE on a1 and g7. |
| RuleFacts.InitialPositionFacts | Board.java:91-117 | The starting position is well formed, its counters match the grid, and every other playable square is EMPTY. |
| RuleFacts.WinnerIdempotent | Board.java:123-136 | Asking getWinner twice gives the same answer. |
| RuleFacts.WinnerWhenOver | Board.java:123-136 | When the game is over the verdict is the colour with strictly more pieces, EMPTY on a tie, whatever was cached. |
| RuleFacts.BlockSquaresShape | Board.java:415-421 | A square is among its own reflections, which are 1 (d4), 2 (middle row or column) or 4 distinct squares. |
| RuleFacts.BlockSquaresPlayable | Board.java:399-403 | Reflections of a square of the playing area are in the playing area. |
| RuleFacts.BlocksKeepCounts | Board.java:383-388 | A legal block placement covers only EMPTY squares, so the piece tallies do not change. |
| RuleFacts.WithBlocksWrites | Board.java:410-413 | setBlock's four writes give WithBlocks and keep the border blocked. |
| RuleFacts.RestoreStart | Board.java:345-346 | Popping the top entry establishes the invariant of undo's pop loop. |
| RuleFacts.RestoreStep | Board.java:347-352 | Writing back a non-sentinel entry and popping the next keeps the invariant. |
| RuleFacts.RestoreDone | Board.java:347 | When the sentinel is in hand, the loop has computed Unwind. |
| Enumeration.TargetMember | AI.java:157-167 | The innermost body yields the move to (c + dc, r + dr) exactly when that square is EMPTY and on the board. |
| Enumeration.ColOffsetsMember | AI.java:156-169 | The column-offset loop yields exactly the moves to EMPTY squares of that row offset. |
| Enumeration.ColOffsetsMembers | AI.java:156-169 | The same, for all moves at once. |
| Enumeration.RowOffsetsMember | AI.java:155-170 | The row-offset loop yields exactly the moves from (c, r) to EMPTY squares. |
| Enumeration.RowOffsetsMembers | AI.java:155-170 | The same, for all moves at once. |
| Enumeration.SourceMovesMember | AI.java:154-171 | A square yields moves only when it holds the mover; then it yields exactly its moves to EMPTY squares. |
| Enumeration.ColumnMovesMember | AI.java:153-172 | The row loop of a column yields exactly the legal moves out of its first k rows. |
| Enumeration.ColumnMovesMembers | AI.java:153-172 | The same, for all moves at once. |
| Enumeration.ColumnMember | AI.java:153-172 | A whole column yields exactly the legal moves out of that column. |
| Enumeration.CandidatesMember | AI.java:152-173 | The column loop yields exactly the legal moves out of its first k columns. |
| Enumeration.CandidatesMembers | AI.java:152-173 | The same, for all moves at once. |
| Enumeration.AllMovesMembers | AI.java:151-174 | getAllMoves appends exactly the legal moves other than a pass. |
| Enumeration.ColOffsetsSorted | AI.java:156 | The column-offset loop lists moves in increasing destination column. |
| Enumeration.RowOffsetsSorted | AI.java:155 | The row-offset loop lists moves by destination row, then column. |
| Enumeration.SourceMovesSorted | AI.java:154-171 | The moves out of one square are in loop order. |
| Enumeration.ColumnMovesBeforeSource | AI.java:153 | The moves out of lower rows of a column come before those of the next row. |
| Enumeration.ColumnMovesSorted | AI.java:153-172 | The moves out of a column are in loop order. |
| Enumeration.CandidatesBeforeColumn | AI.java:152 | The moves out of earlier columns come before those of the next column. |
| Enumeration.CandidatesSorted | AI.java:152-173 | The moves out of the first k columns are in loop order. |
| Enumeration.AllMovesSorted | AI.java:151-174 | getAllMoves lists each legal move once, strictly ordered by source column, source row, destination row and destination column. |
| Enumeration.RoomGivesMove | AI.java:151-174 | A piece of the mover with an EMPTY square in reach gives a non-empty candidate list. |
| Enumeration.MoveGivesRoom | AI.java:151-174 | A candidate shows that the mover can move. |
| Enumeration.AllMovesEmpty | AI.java:92-96 | The candidate list is empty exactly when the mover cannot move, so the PASS fallback is legal. |
| Enumeration.MoveListLegal | AI.java:92-96 | The list minMax searches is non-empty and every move in it is legal. |
| MinimaxFacts.StaticScoreSign | AI.java:136-149 | In a finished game the score is positive, negative or zero exactly when red leads, blue leads, or the counts tie. |
| MinimaxFacts.StaticScoreBound | AI.java:138-149 | With matching counters the static score lies within the winning value. |
| MinimaxFacts.BoundedMono | AI.java:79-83 | A tree whose scores lie within b also lies within any larger bound. |
| MinimaxFacts.SearchBounded | AI.java:77-134 | The search never returns a value outside the range of the leaf scores. |
| MinimaxFacts.MaxLoopBounded | AI.java:97-112 | The maximising loop stays within the leaf bound. |
| MinimaxFacts.MinLoopBounded | AI.java:113-128 | The minimising loop stays within the leaf bound. |
| MinimaxFacts.ExpandNode | AI.java:92-102 | Below an undecided position the search tries exactly the move list, in order, each branch leading to the position its move produces. |
| MinimaxFacts.ChildrenAt | AI.java:99-102 | Branch i is move i followed by its subtree. |
| MinimaxFacts.ExpandBounded | AI.java:79-84 | With matching counters every leaf of the depth-d tree scores within WINNING_VALUE + d, and every inner node has a move. |
| MinimaxFacts.BranchBounded | AI.java:99-102 | A child's tree lies within the parent's bound. |
| MinimaxFacts.MinMaxInRange | AI.java:77-134 | minMax returns a value within WINNING_VALUE + depth, hence strictly between -INFTY and INFTY up to MAX_DEPTH. |
| MinimaxFacts.ArgMaxFromSpec | AI.java:103-106 | The running-best update settles on the first index of the largest value, if any beats the start. |
| MinimaxFacts.ArgMaxFromRange | AI.java:103-106 | That index lies inside the list. |
| MinimaxFacts.ArgMinFromSpec | AI.java:119-122 | The running-best update settles on the first index of the smallest value, if any is below the start. |
| MinimaxFacts.ArgMinFromRange | AI.java:119-122 | That index lies inside the list. |
| MinimaxFacts.MaxLoopChoice | AI.java:97-112 | With beta at INFTY the maximising loop never cuts off, and returns the first branch of largest value. |
| MinimaxFacts.MinLoopChoice | AI.java:113-128 | With alpha at -INFTY the minimising loop never cuts off, and returns the first branch of smallest value. |
| MinimaxFacts.SearchRootRed | AI.java:97-112 | The full-window search for red returns the first branch of largest value, and that value. |
| MinimaxFacts.SearchRootBlue | AI.java:113-128 | The full-window search for blue returns the first branch of smallest value, and that value. |
| MinimaxFacts.MinMaxRootRed | AI.java:55-64 | findMove for red returns the first move of the move list with the largest value. |
| MinimaxFacts.MinMaxRootBlue | AI.java:55-64 | findMove for blue returns the first move of the move list with the smallest value. |
| Boards.Board.constructor | Board.java:52-61 | A new board holds the starting position with 45 open squares, empty history and stacks, and saved counts 0. |
| Boards.Board.Copy | Board.java:65-76 | A copy has the squares, counters, mover, cached winner and open-square tally of the original, an empty history and stacks, and saved counts 0. |
| Boards.Board.Clear | Board.java:91-117 | Back to the starting position with counts 2 and 2, RED to move, no winner, empty history and stacks. |
| Boards.Board.FillInitial | Board.java:100-115 | The fill loop writes the starting layout into every square. |
| Boards.Board.GetWinner | Board.java:123-136 | Returns and caches the verdict of Winner on the old position. |
| Boards.Board.NumPieces | Board.java:149-151 | The counter of the colour, which is its tally when the counters match the grid. |
| Boards.Board.IncrPieces | Board.java:154-156 | Adds k to the colour's counter only. |
| Boards.Board.Get | Board.java:161-163 | The contents of (c, r); BLOCKED outside the playing area. |
| Boards.Board.GetAt | Board.java:166-168 | The contents of square sq. |
| Boards.Board.CanMove | Board.java:217-231 | True exactly when some piece of `who` has an EMPTY square within two columns and two rows. |
| Boards.Board.LegalMove | Board.java:196-208 | Null is illegal; a pass is legal exactly when the mover cannot move; another move exactly when it goes from a piece of the mover to an EMPTY square. |
| Boards.Board.StartUndo | Board.java:368-371 | Pushes the sentinel on the square stack and null on the piece stack. |
| Boards.Board.Pass | Board.java:331-337 | Only the mover changes; the pass joins the history; a lone sentinel opens an empty undo group. |
| Boards.Board.MakeMove | Board.java:274-327 | An illegal move is refused with nothing changed. Otherwise the position becomes Apply of the old one, the move joins the history, the exact undo entries are pushed, and the counts are saved. |
| Boards.Board.Play | Board.java:282-327 | A legal non-pass move: the new position is Apply of the old, with the undo entries and the saved counts. |
| Boards.Board.Perform | Board.java:286-326 | Placement, captures and counting give the position Apply produces. |
| Boards.Board.Finish | Board.java:322-325 | The final counting of makeMove yields Apply's position. |
| Boards.Board.Tally | Board.java:322-325 | The mover gains the captures, the opponent loses them, and the turn passes. |
| Boards.Board.Record | Board.java:282-290 | The move joins the history, the group opens with sentinel, source and destination, and the counts are saved. |
| Boards.Board.PlaceAndCapture | Board.java:292-321 | The extend and jump branches leave the captured grid, the undo group and the counters of the move. |
| Boards.Board.Extend | Board.java:292-306 | An extend resets the jump streak, adds one piece to the mover, places and captures. |
| Boards.Board.PlaceExtend | Board.java:294 | The destination gets the mover's piece. |
| Boards.Board.Jump | Board.java:307-321 | A jump extends the jump streak, empties the source, places and captures. |
| Boards.Board.PlaceJump | Board.java:309-310 | The source empties and the destination gets the mover's piece. |
| Boards.Board.CaptureOne | Board.java:298-303 | One capture step: an opponent piece turns to the mover and is logged. |
| Boards.Board.CaptureColumn | Board.java:297-304 | The inner capture loop takes three more steps of the capture function. |
| Boards.Board.CaptureAround | Board.java:296-305 | The capture loop leaves the grid and undo entries of CaptureSteps and counts the captures. |
| Boards.AfterPlacing | Board.java:322-325 | Once placed and captured, the counters the method computes are those of Apply. |
| Boards.Board.Undo | Board.java:340-363 | Empty stacks: nothing changes. Otherwise the top group is unwound unless the last move was a pass; a jump leaves the streak; the saved counts return; the turn flips; the history drops its last move; the winner is cleared. |
| Boards.Board.RestoreGroup | Board.java:345-352 | The pop loop computes Unwind of the grid and stacks. |
| Boards.Board.LegalBlock | Board.java:380-392 | True exactly when no move has been made and the square and its reflections are EMPTY. |
| Boards.Board.SetBlock | Board.java:404-428 | Refused with nothing changed when illegal; otherwise it blocks exactly the reflections, lowers the open tally by their number, declares a draw when neither side can move, and keeps the piece tallies. |
| Boards.Board.PlaceBlocks | Board.java:410-413 | The four writes give WithBlocks. |
| Boards.Board.Equals | Board.java:452-458 | Equal exactly when the other board is not null and has the same squares. |
| Ai.NodeMoveLegal | AI.java:92-96 | Every move of a node's move list is legal. |
| Ai.ChildOfNode | AI.java:99-102 | Branch i of a node's tree is move i followed by the tree of the position it leads to. |
| Ai.AI.constructor | AI.java:30-33 | A new player for a colour, with no move found yet. |
| Ai.AI.GetMove | AI.java:41-51 | A pass when the player cannot move; otherwise the move findMove returns. |
| Ai.AI.FindMove | AI.java:55-64 | The move the full-window search of depth MAX_DEPTH records for the player's sense, recorded in lastFoundMove; legal when the game is undecided and the counters match. |
| Ai.AI.MinMax | AI.java:77-134 | The value and the recorded move equal the search function on the old position, cutoff behaviour included; only the board's cached winner changes. |
| Ai.AI.MaxSearch | AI.java:97-112 | The maximising loop returns the best move and score of Search with sense 1. |
| Ai.AI.MinSearch | AI.java:113-128 | The minimising loop returns the best move and score of Search with sense -1. |
| Ai.AI.TryMove | AI.java:100-102 | Trying move i on a copy returns the value of branch i. |
| Ai.AI.PlayOnCopy | AI.java:100-101 | A fresh copy with move i made holds the position branch i expands. |
| Ai.AI.StaticScore | AI.java:138-149 | The static score of the old position, caching the winner on the board. |
| Ai.AI.GetAllMoves | AI.java:151-174 | Appends AllMoves of the board's position. |
| Ai.AI.AddColumnMoves | AI.java:153-172 | The row loop appends the moves out of column c. |
| Ai.AI.AddSourceMoves | AI.java:155-170 | The row-offset loop appends the moves out of (c, r). |
| Ai.AI.AddRowMoves | AI.java:156-169 | The column-offset loop appends the moves of one row offset. |

## Left out

- Boards.Board.LegalMove: a pass while the mover can still move is modelled as illegal. Board.java:199-203 instead falls through and reads the squares at the pass's `toIndex()` and `fromIndex()`, which come from the Move class. Move.java is not part of this model.
- Boards.Board.MakeMove: the GameException that Board.java:275-276 throws for an illegal move becomes `ok == false` with the state unchanged.
- Boards.Board.SetBlock: the GameException of Board.java:405-406 becomes `ok == false` with the state unchanged.
- Boards.Board.Undo: Board.java:344 throws IndexOutOfBounds when the stacks are not empty but the history is (a pass that was undone leaves its sentinel behind). The model returns `ok == false` and changes nothing.
- Boards.Board.Pass: requires what the `assert` of Board.java:332 checks, that the mover cannot move. MakeMove only calls it after LegalMove has established that.
- Ai.AI.FindMove: proves the legality of the returned move only for boards whose counters match the grid. Board.java:284-285 and 357-358 restore one saved snapshot on every undo, so after two undos in a row the counters can differ from the grid, and the model does not make matching counters a class invariant.
- MinimaxFacts.MinMaxInRange: holds only under matching counters, for the reason given for FindMove; without them a counter can be any int.
- MinimaxFacts.MinMaxRootRed: holds only under matching counters, for the same reason.
- MinimaxFacts.MinMaxRootBlue: holds only under matching counters, for the same reason.
- Java `int` is modelled as an unbounded `int`. Instead of modelling 32-bit wrap-around, MinMaxInRange proves that the search values stay strictly inside the int range. Overflow of the counters, the jump streak and the open-square tally is not modelled.
- Notifiers and `announce`, `toString`, `hashCode`, and the String and char overloads of `makeMove`, `legalMove`, `legalBlock` and `setBlock` are not modelled: they are display code or parse strings before calling a modelled method. The accessors `redPieces`, `bluePieces`, `whoseMove`, `numMoves`, `numJumps`, `totalOpen` and `allMoves` read a field and are covered by `NumPieces` and the class's fields.
- The game the AI reports to (`game().reportMove`), the timing calls, `isAuto`, and the random generator are I/O or unused. GetMove returns the move instead of reporting it.
- The Move and PieceColor classes are not part of this model. A move is the datatype `Moves.MoveRep` restricted to moves of at most two squares within the board, and a colour is `Pieces.PieceColor`.
- The getAllMoves loops are proved through `CandidatesSoFar`, `ColumnSoFar`, `RowsSoFar` and `ColsSoFar`, which are non-recursive names for the Enumeration functions. Through them each loop step unfolds its function by one step only, which keeps the proofs within the resource bound.
