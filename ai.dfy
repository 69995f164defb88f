/** The AI player: it enumerates the moves of a board, searches copies of
    the board with minimax and alpha-beta cutoffs, and records the best
    move found. Each method is proved against the functions of Enumeration
    and Minimax. */
module Ai {
  import opened Optional
  import opened Pieces
  import opened Squares
  import opened Moves
  import opened Grids
  import opened Rules
  import opened RuleFacts
  import opened Enumeration
  import opened Minimax
  import opened MinimaxFacts
  import opened Boards

  /** The state of minMax at a node of the search below p: allMoves is the
      move list of p and t the tree the search explores from p. */
  predicate AtNode(p: Position, depth: nat, allMoves: seq<Move>, t: GameTree)
    requires WellFormed(p)
  {
    allMoves == MoveList(p) && t == Expand(p, depth)
  }

  /** Every move of the node's move list is legal. */
  lemma NodeMoveLegal(p: Position, depth: nat, allMoves: seq<Move>, t: GameTree, i: nat)
    requires WellFormed(p) && AtNode(p, depth, allMoves, t) && i < |allMoves|
    ensures Legal(p, allMoves[i])
  {
    MoveListLegal(p);
    assert allMoves[i] in MoveList(p);
  }

  /** Branch i of the node's tree is move i followed by the tree of the
      position that move leads to. */
  lemma ChildOfNode(p: Position, depth: nat, allMoves: seq<Move>, t: GameTree, i: nat, q: Position)
    requires WellFormed(p) && depth > 0 && Winner(p).None?
    requires AtNode(p, depth, allMoves, t) && i < |allMoves|
    requires q == Apply(p, allMoves[i])
    ensures t.Node? && |t.branches| == |allMoves| && t.branches[i].move == allMoves[i]
    ensures t.branches[i].tree == Expand(q, depth - 1)
  {
    ExpandNode(p, depth);
  }

  // Non-recursive aliases of the enumeration functions for the loop
  // invariants of getAllMoves: through them each loop step unfolds its
  // function by one step only.

  function CandidatesSoFar(g: Grid, who: PieceColor, k: nat): seq<Move>
    requires |g| == SIZE && k <= SIDE
  {
    Candidates(g, who, k)
  }

  function ColumnSoFar(g: Grid, who: PieceColor, c: int, k: nat): seq<Move>
    requires |g| == SIZE && 0 <= c < SIDE && k <= SIDE
  {
    ColumnMoves(g, who, c, k)
  }

  function RowsSoFar(g: Grid, c: int, r: int, k: nat): seq<Move>
    requires |g| == SIZE && OnBoard(c, r) && k <= 5
  {
    RowOffsets(g, c, r, k)
  }

  function ColsSoFar(g: Grid, c: int, r: int, dr: int, k: nat): seq<Move>
    requires |g| == SIZE && OnBoard(c, r) && -2 <= dr <= 2 && k <= 5
  {
    ColOffsets(g, c, r, dr, k)
  }

  class AI {
    /** The colour this player plays. */
    const myColor: PieceColor
    /** The move found by the last search: None for null. */
    var lastFoundMove: Option<Move>

    /** A player for `color`; the game it reports to and its random seed are
        not part of this model. */
    constructor (color: PieceColor)
      requires IsPlayer(color)
      ensures myColor == color && lastFoundMove == None
    {
      myColor := color;
      lastFoundMove := None;
    }

    /** The reply of a player whose turn it is: a pass when `myColor` has no
        move, otherwise the move findMove settles on. */
    method GetMove(live: Board) returns (m: Option<Move>)
      requires live.Valid() && IsPlayer(myColor)
      modifies this`lastFoundMove
      ensures !Rules.CanMove(live.board[..], myColor) ==> m.Some? && m.value == Pass
      ensures Rules.CanMove(live.board[..], myColor) ==> m == lastFoundMove && m == SearchChoice(live.Pos())
    {
      var can := live.CanMove(myColor);
      if !can {
        var pass: Move := Pass;
        m := Some(pass);
        return;
      }
      m := FindMove(live);
    }

    /** The move findMove returns for position p: the best move of a search
        of depth MAX_DEPTH with the full window, for red when this player is
        red and for blue otherwise; null when the game is already decided. */
    ghost function SearchChoice(p: Position): Option<Move>
      requires WellFormed(p)
    {
      var sense := if myColor == Red then 1 else -1;
      if Winner(p).Some? then None else Minimax.MinMax(p, MAX_DEPTH, sense, -INFTY, INFTY).best
    }

    /** findMove: search a copy of the live board and return the move the
        search records. From a position that is not decided and whose
        counters match, that is a legal move. */
    method FindMove(live: Board) returns (m: Option<Move>)
      requires live.Valid()
      modifies this`lastFoundMove
      ensures m == lastFoundMove && m == SearchChoice(live.Pos())
      ensures CountsMatch(live.Pos()) && Winner(live.Pos()).None? ==> m.Some? && Legal(live.Pos(), m.value)
    {
      ghost var p := live.Pos();
      var b := new Board.Copy(live);
      lastFoundMove := None;
      var sense := if myColor == Red then 1 else -1;
      var _ := MinMax(b, MAX_DEPTH, true, sense, -INFTY, INFTY);
      m := lastFoundMove;
      if CountsMatch(p) && Winner(p).None? {
        MoveListLegal(p);
        if sense == 1 {
          MinMaxRootRed(p, MAX_DEPTH);
        } else {
          MinMaxRootBlue(p, MAX_DEPTH);
        }
      }
    }

    /** minMax: the value of the search of the given depth from the board,
        recording the best move when saveMove holds and the position is
        neither at depth 0 nor decided. Only the cached winner of the board
        changes; each move is tried on a fresh copy. */
    method MinMax(board: Board, depth: nat, saveMove: bool, sense: int, alpha: int, beta: int)
      returns (v: int)
      requires board.Valid()
      modifies this`lastFoundMove, board`winner
      ensures v == Minimax.MinMax(old(board.Pos()), depth, sense, alpha, beta).value
      ensures lastFoundMove == (if saveMove && depth > 0 && Winner(old(board.Pos())).None?
                                then Minimax.MinMax(old(board.Pos()), depth, sense, alpha, beta).best
                                else old(lastFoundMove))
      ensures board.winner == Winner(old(board.Pos()))
      decreases depth, 2
    {
      ghost var p := board.Pos();
      var leaf := depth == 0;
      if !leaf {
        var w := board.GetWinner();
        leaf := w.Some?;
      }
      if leaf {
        v := StaticScore(board, WINNING_VALUE + depth);
        assert Winner(p.(winner := Winner(p))) == Winner(p) by { WinnerIdempotent(p); }
        return;
      }
      assert board.Pos() == p;
      var best: Option<Move> := None;
      var bestScore := 0;
      var allMoves := GetAllMoves(board, []);
      if allMoves == [] {
        allMoves := allMoves + [Pass];
      }
      assert allMoves == MoveList(p);
      ghost var t := Expand(p, depth);
      if sense == 1 {
        best, bestScore := MaxSearch(board, p, depth, allMoves, t, alpha, beta);
      } else if sense == -1 {
        best, bestScore := MinSearch(board, p, depth, allMoves, t, alpha, beta);
      }
      if saveMove {
        lastFoundMove := best;
      }
      v := bestScore;
    }

    /** The maximising loop of minMax over the move list of the board; t is
        the tree the search explores from the board. */
    method MaxSearch(board: Board, ghost p: Position, depth: nat, allMoves: seq<Move>, ghost t: GameTree, alpha: int, beta: int)
      returns (best: Option<Move>, bestScore: int)
      requires board.Valid() && board.Pos() == p && depth > 0 && Winner(p).None?
      requires AtNode(p, depth, allMoves, t)
      modifies this`lastFoundMove
      ensures lastFoundMove == old(lastFoundMove)
      ensures Outcome(best, bestScore) == Search(t, 1, alpha, beta)
      decreases depth, 1
    {
      best, bestScore := None, 0;
      var maxEval := -INFTY;
      var a := alpha;
      var i := 0;
      while i < |allMoves|
        invariant 0 <= i <= |allMoves| == |t.branches|
        invariant lastFoundMove == old(lastFoundMove) && board.Pos() == p
        invariant Search(t, 1, alpha, beta) == MaxLoop(t, i, a, beta, maxEval, best, bestScore)
        decreases |allMoves| - i
      {
        var move := allMoves[i];
        var eval := TryMove(board, p, depth, allMoves, i, t, -1, a, beta);
        if eval > maxEval {
          maxEval := eval;
          best := Some(move);
        }
        a := Max(a, eval);
        if a >= beta {
          break;
        }
        bestScore := maxEval;
        i := i + 1;
      }
    }

    /** The minimising loop of minMax, the mirror image of MaxSearch. */
    method MinSearch(board: Board, ghost p: Position, depth: nat, allMoves: seq<Move>, ghost t: GameTree, alpha: int, beta: int)
      returns (best: Option<Move>, bestScore: int)
      requires board.Valid() && board.Pos() == p && depth > 0 && Winner(p).None?
      requires AtNode(p, depth, allMoves, t)
      modifies this`lastFoundMove
      ensures lastFoundMove == old(lastFoundMove)
      ensures Outcome(best, bestScore) == Search(t, -1, alpha, beta)
      decreases depth, 1
    {
      best, bestScore := None, 0;
      var minEval := INFTY;
      var bt := beta;
      var i := 0;
      while i < |allMoves|
        invariant 0 <= i <= |allMoves| == |t.branches|
        invariant lastFoundMove == old(lastFoundMove) && board.Pos() == p
        invariant Search(t, -1, alpha, beta) == MinLoop(t, i, alpha, bt, minEval, best, bestScore)
        decreases |allMoves| - i
      {
        var move := allMoves[i];
        var eval := TryMove(board, p, depth, allMoves, i, t, 1, alpha, bt);
        if eval < minEval {
          minEval := eval;
          best := Some(move);
        }
        bt := Min(bt, minEval);
        if bt <= alpha {
          break;
        }
        bestScore := minEval;
        i := i + 1;
      }
    }

    /** One iteration's search: make move i on a fresh copy of the board and
        search the copy one level shallower, saving no move; the value is
        that of the search of branch i of t. */
    method TryMove(board: Board, ghost p: Position, depth: nat, allMoves: seq<Move>, i: nat, ghost t: GameTree,
                   sense: int, alpha: int, beta: int)
      returns (eval: int)
      requires board.Valid() && board.Pos() == p && depth > 0 && Winner(p).None?
      requires AtNode(p, depth, allMoves, t) && i < |allMoves|
      modifies this`lastFoundMove
      ensures lastFoundMove == old(lastFoundMove)
      ensures t.Node? && |t.branches| == |allMoves| && t.branches[i].move == allMoves[i]
      ensures eval == BranchValue(t, i, sense, alpha, beta)
      decreases depth, 0
    {
      var test := PlayOnCopy(board, p, depth, allMoves, i, t);
      eval := MinMax(test, depth - 1, false, sense, alpha, beta);
    }

    /** A fresh copy of the board with move i of the node's move list made
        on it: its position is the one branch i of t expands. */
    method PlayOnCopy(board: Board, ghost p: Position, depth: nat, allMoves: seq<Move>, i: nat, ghost t: GameTree)
      returns (test: Board)
      requires board.Valid() && board.Pos() == p && depth > 0 && Winner(p).None?
      requires AtNode(p, depth, allMoves, t) && i < |allMoves|
      ensures fresh(test) && fresh(test.board) && test.Valid()
      ensures t.Node? && |t.branches| == |allMoves| && t.branches[i].move == allMoves[i]
      ensures t.branches[i].tree == Expand(test.Pos(), depth - 1)
    {
      NodeMoveLegal(p, depth, allMoves, t, i);
      test := new Board.Copy(board);
      var ok := test.MakeMove(Some(allMoves[i]));
      ChildOfNode(p, depth, allMoves, t, i, test.Pos());
    }

    /** staticScore: the static evaluation of the board with the given
        winning value; asking for the winner caches it on the board. */
    method StaticScore(board: Board, winningValue: int) returns (v: int)
      requires board.Valid()
      modifies board`winner
      ensures v == Minimax.StaticScore(old(board.Pos()), winningValue)
      ensures board.winner == Winner(old(board.Pos()))
    {
      var winner := board.GetWinner();
      if winner.Some? {
        v := if winner.value == Red then winningValue
             else if winner.value == Blue then -winningValue
             else 0;
        return;
      }
      var red := board.NumPieces(Red);
      var blue := board.NumPieces(Blue);
      v := red - blue;
    }

    /** getAllMoves: append to `moves` every move of the player to move from
        one of its pieces to an EMPTY square at most two columns and two rows
        away, scanning columns, then rows, then row offsets, then column
        offsets. Each of the four nested loops is a method of its own:
        this one runs over the columns. */
    method GetAllMoves(board: Board, moves: seq<Move>) returns (moves': seq<Move>)
      requires board.Valid()
      ensures moves' == moves + AllMoves(board.Pos())
    {
      ghost var g, who := board.board[..], board.whoseMove;
      moves' := moves;
      var i := 0;
      while i < SIDE
        invariant 0 <= i <= SIDE
        invariant moves' == moves + CandidatesSoFar(g, who, i)
      {
        moves' := AddColumnMoves(board, i, moves');
        ConcatAssoc(moves, Candidates(g, who, i), ColumnMoves(g, who, i, SIDE));
        i := i + 1;
      }
    }

    /** The row loop of getAllMoves for column c: the moves out of each
        square of the column that holds the player to move. */
    method AddColumnMoves(board: Board, c: int, moves: seq<Move>) returns (moves': seq<Move>)
      requires board.Valid() && 0 <= c < SIDE
      ensures moves' == moves + ColumnMoves(board.board[..], board.whoseMove, c, SIDE)
    {
      ghost var g, who := board.board[..], board.whoseMove;
      moves' := moves;
      var j := 0;
      while j < SIDE
        invariant 0 <= j <= SIDE
        invariant moves' == moves + ColumnSoFar(g, who, c, j)
      {
        ghost var before := moves';
        var here := board.Get(c, j);
        if board.whoseMove == here {
          moves' := AddSourceMoves(board, c, j, moves');
          assert moves' == before + SourceMoves(g, who, c, j);
        } else {
          assert SourceMoves(g, who, c, j) == [];
          assert moves' == before + SourceMoves(g, who, c, j);
        }
        ConcatAssoc(moves, ColumnMoves(g, who, c, j), SourceMoves(g, who, c, j));
        j := j + 1;
      }
    }

    /** The row-offset loop of getAllMoves for the piece at (c, r). */
    method AddSourceMoves(board: Board, c: int, r: int, moves: seq<Move>) returns (moves': seq<Move>)
      requires board.Valid() && OnBoard(c, r)
      ensures moves' == moves + RowOffsets(board.board[..], c, r, 5)
    {
      ghost var g := board.board[..];
      moves' := moves;
      var row := -2;
      while row <= 2
        invariant -2 <= row <= 3
        invariant moves' == moves + RowsSoFar(g, c, r, row + 2)
      {
        ghost var rowStart := moves';
        moves' := AddRowMoves(board, c, r, row, moves');
        ConcatAssoc(moves, RowOffsets(g, c, r, row + 2), ColOffsets(g, c, r, row, 5));
        row := row + 1;
      }
    }

    /** The column-offset loop of getAllMoves for the piece at (c, r) and row
        offset dr: each destination square that is EMPTY and on the board. */
    method AddRowMoves(board: Board, c: int, r: int, dr: int, moves: seq<Move>) returns (moves': seq<Move>)
      requires board.Valid() && OnBoard(c, r) && -2 <= dr <= 2
      ensures moves' == moves + ColOffsets(board.board[..], c, r, dr, 5)
    {
      ghost var g := board.board[..];
      moves' := moves;
      var col := -2;
      while col <= 2
        invariant -2 <= col <= 3
        invariant moves' == moves + ColsSoFar(g, c, r, dr, col + 2)
      {
        ghost var before := moves';
        var there := board.GetAt(Neighbor(Index(c, r), col, dr));
        if there == Empty {
          var c1, r1 := c + col, r + dr;
          if 0 <= c1 < SIDE && 0 <= r1 < SIDE {
            moves' := moves' + [Mv(c, r, c1, r1)];
          }
        }
        assert moves' == before + Target(g, c, r, dr, col);
        ConcatAssoc(moves, ColOffsets(g, c, r, dr, col + 2), Target(g, c, r, dr, col));
        col := col + 1;
      }
    }
  }
}
