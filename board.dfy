/** The Board class: an 11x11 array of squares updated in place, with the
    counters, the move history and the undo stacks kept beside it. */
module Boards {
  import opened Optional
  import opened Pieces
  import opened Squares
  import opened Moves
  import opened Grids
  import opened Rules
  import opened CaptureFacts
  import opened RuleFacts

  class Board {
    /** The squares in row-major order, border included. */
    var board: array<PieceColor>
    var whoseMove: PieceColor
    /** Consecutive jumps since the last extend. */
    var numJumps: int
    /** Unblocked squares (not reset by Clear). */
    var totalOpen: int
    /** The two slots of the piece-count array. */
    var numRed: int
    var numBlue: int
    /** The cached result of GetWinner: None for null. */
    var winner: Option<PieceColor>
    /** Moves made (and not undone) since the last Clear. */
    var allMoves: seq<Move>
    /** The parallel undo stacks, top at the end: squares changed with
        SENTINEL opening each move, and their previous contents with None
        opposite each SENTINEL. */
    var undoSquares: seq<int>
    var undoPieces: seq<Option<PieceColor>>
    /** Piece counts saved by the last non-pass move, restored by Undo. */
    var savedRed: int
    var savedBlue: int

    /** The squares have the blocked border and a player is to move. */
    ghost predicate ValidGrid()
      reads this`board, this`whoseMove, board
    {
      board.Length == SIZE && BorderBlocked(board[..]) && IsPlayer(whoseMove)
    }

    ghost predicate Valid()
      reads this`board, this`whoseMove, this`undoSquares, this`undoPieces, board
    {
      ValidGrid() && UndoWf(undoSquares, undoPieces)
    }

    /** The part of the state the rules and the search look at. */
    ghost function Pos(): (p: Position)
      reads this`board, this`whoseMove, this`numJumps, this`numRed, this`numBlue, this`winner, board
      ensures ValidGrid() ==> WellFormed(p)
    {
      Position(board[..], whoseMove, numJumps, numRed, numBlue, winner)
    }

    /** A new board in the starting layout; the saved counts start at 0. */
    constructor ()
      ensures Valid() && fresh(board)
      ensures Pos() == InitialPosition() && totalOpen == SIDE * SIDE - 4
      ensures allMoves == [] && undoSquares == [] && undoPieces == []
      ensures savedRed == 0 && savedBlue == 0
    {
      board := new PieceColor[SIZE];
      savedRed, savedBlue := 0, 0;
      numJumps := 0;
      allMoves := [];
      totalOpen := SIDE * SIDE - 4;
      undoPieces := [];
      undoSquares := [];
      new;
      Clear();
    }

    /** A board with the squares, counters, mover and cached winner of
        board0, but an empty history; the saved counts are not copied and
        start at 0, as on a new board. */
    constructor Copy(board0: Board)
      requires board0.Valid()
      ensures Valid() && fresh(board)
      ensures Pos() == old(board0.Pos()) && totalOpen == old(board0.totalOpen)
      ensures allMoves == [] && undoSquares == [] && undoPieces == []
      ensures savedRed == 0 && savedBlue == 0
    {
      savedRed, savedBlue := 0, 0;
      board := new PieceColor[SIZE](i requires 0 <= i < board0.board.Length reads board0, board0.board => board0.board[i]);
      numJumps := board0.numJumps;
      whoseMove := board0.whoseMove;
      allMoves := [];
      totalOpen := board0.totalOpen;
      undoPieces := [];
      undoSquares := [];
      winner := board0.winner;
      numRed, numBlue := board0.numRed, board0.numBlue;
      new;
      assert board[..] == board0.board[..];
    }

    /** Back to the starting layout: RED to move, no history, no blocks. */
    method Clear()
      requires board.Length == SIZE
      modifies this`whoseMove, this`numJumps, this`allMoves, this`undoSquares, this`undoPieces
      modifies this`numRed, this`numBlue, this`winner, board
      ensures Valid() && Pos() == InitialPosition() && CountsMatch(Pos())
      ensures allMoves == [] && undoSquares == [] && undoPieces == []
    {
      whoseMove := Red;
      numJumps := 0;
      allMoves := [];
      undoSquares := [];
      undoPieces := [];
      numRed := 2;
      numBlue := 2;
      winner := None;
      FillInitial();
      assert ValidGrid() && Pos() == InitialPosition() && CountsMatch(Pos()) by {
        InitialPositionFacts();
      }
    }

    /** The loop of Board.clear: every square gets its starting contents. */
    method FillInitial()
      requires board.Length == SIZE
      modifies board
      ensures board[..] == InitialGrid()
    {
      var i := 0;
      while i < board.Length
        invariant 0 <= i <= board.Length
        invariant forall k :: 0 <= k < i ==> board[k] == InitialCell(k)
      {
        board[i] := InitialCell(i);
        i := i + 1;
      }
    }

    /** The winner if the game is over (EMPTY for a draw), else the cached
        value; the answer is cached. */
    method GetWinner() returns (w: Option<PieceColor>)
      requires ValidGrid()
      modifies this`winner
      ensures w == Winner(old(Pos())) && winner == w
    {
      var over := numJumps >= JUMP_LIMIT;
      if !over {
        var redCan := CanMove(Red);
        if !redCan {
          var blueCan := CanMove(Blue);
          over := !blueCan;
        }
      }
      over := over || numRed == 0 || numBlue == 0;
      if over {
        if numRed > numBlue {
          winner := Some(Red);
        } else if numBlue > numRed {
          winner := Some(Blue);
        } else {
          winner := Some(Empty);
        }
      }
      w := winner;
    }

    /** Number of pieces of a player's colour. */
    method NumPieces(color: PieceColor) returns (n: int)
      requires Valid() && IsPlayer(color)
      ensures n == if color == Red then numRed else numBlue
      ensures CountsMatch(Pos()) ==> n == Count(board[..], color)
    {
      n := if color == Red then numRed else numBlue;
    }

    /** Add k to the count of a player's colour. */
    method IncrPieces(color: PieceColor, k: int)
      requires IsPlayer(color)
      modifies this`numRed, this`numBlue
      ensures numRed == old(numRed) + (if color == Red then k else 0)
      ensures numBlue == old(numBlue) + (if color == Blue then k else 0)
    {
      if color == Red {
        numRed := numRed + k;
      } else {
        numBlue := numBlue + k;
      }
    }

    /** Contents of square (c, r); border squares are always BLOCKED. */
    method Get(c: int, r: int) returns (v: PieceColor)
      requires Valid() && InExtended(c, r)
      ensures v == board[Index(c, r)]
      ensures !OnBoard(c, r) ==> v == Blocked
    {
      IndexCoords(c, r);
      v := board[Index(c, r)];
    }

    /** Contents of the square with linear index sq. */
    method GetAt(sq: int) returns (v: PieceColor)
      requires Valid() && 0 <= sq < SIZE
      ensures v == board[sq]
    {
      v := board[sq];
    }

    /** Whether `who` has a piece with an EMPTY square within two columns and
        two rows, whoever's turn it is. */
    method CanMove(who: PieceColor) returns (b: bool)
      requires ValidGrid() && IsPlayer(who)
      ensures b == Rules.CanMove(board[..], who)
    {
      var i := 0;
      while i < board.Length
        invariant 0 <= i <= board.Length
        invariant forall k :: 0 <= k < i ==> !HasRoom(board[..], who, k)
      {
        if board[i] == who {
          assert Playable(i);
          PlayableRange(i);
          var j := i - 2;
          while j <= i + 2
            invariant i - 2 <= j <= i + 3
            invariant forall dc, dr :: -2 <= dc < j - i && -2 <= dr <= 2 ==>
                        board[Neighbor(i, dc, dr)] != Empty
          {
            var s := j - EXTENDED_SIDE * 2;
            ghost var dc := j - i;
            ghost var dr := -2;
            while s <= j + EXTENDED_SIDE * 2
              invariant -2 <= dr <= 3 && s == j + EXTENDED_SIDE * dr
              invariant forall d :: -2 <= d < dr ==> board[Neighbor(i, dc, d)] != Empty
            {
              if board[s] == Empty {
                assert s == Neighbor(i, dc, dr);
                assert HasRoom(board[..], who, i);
                return true;
              }
              s := s + 11;
              dr := dr + 1;
            }
            j := j + 1;
          }
        }
        i := i + 1;
      }
      return false;
    }

    /** Whether m is legal now: null never is, a pass when the mover cannot
        move, any other move when it goes from a piece of the mover to an
        EMPTY square. */
    method LegalMove(m: Option<Move>) returns (b: bool)
      requires ValidGrid()
      ensures b == (m.Some? && Legal(Pos(), m.value))
    {
      if m.None? {
        return false;
      }
      var move := m.value;
      if move.Pass? {
        var can := CanMove(whoseMove);
        if !can {
          return true;
        }
        // A pass while the mover can still move is illegal.
        return false;
      }
      if board[ToIndex(move)] != Empty || board[FromIndex(move)] != whoseMove {
        return false;
      }
      return true;
    }

    /** Push the sentinel that opens a move's group of undo entries. */
    method StartUndo()
      modifies this`undoSquares, this`undoPieces
      ensures undoSquares == old(undoSquares) + [SENTINEL]
      ensures undoPieces == old(undoPieces) + [None]
    {
      undoSquares := undoSquares + [SENTINEL];
      undoPieces := undoPieces + [None];
    }

    /** The mover passes: recorded in the history with an empty undo group. */
    method Pass()
      requires Valid() && !Rules.CanMove(board[..], whoseMove)
      modifies this
      ensures Valid() && board == old(board)
      ensures Pos() == old(Pos()).(mover := Opposite(old(whoseMove)))
      ensures allMoves == old(allMoves) + [MoveRep.Pass]
      ensures undoSquares == old(undoSquares) + [SENTINEL] && undoPieces == old(undoPieces) + [None]
      ensures totalOpen == old(totalOpen) && savedRed == old(savedRed) && savedBlue == old(savedBlue)
    {
      allMoves := allMoves + [MoveRep.Pass];
      StartUndo();
      whoseMove := Opposite(whoseMove);
      assert forall k :: 0 <= k < |old(undoSquares)| ==> undoSquares[k] == old(undoSquares)[k];
    }

    /** Step n = 3a + b of the capture loop, at the square j that lies a - 1
        columns and b - 1 rows from `to`: an opponent piece there becomes
        the mover's, and its square and previous colour go on the undo
        stacks. */
    method CaptureOne(to: int, j: int, opponent: PieceColor, added0: nat,
                      ghost n: nat, ghost a: int, ghost b: int,
                      ghost g0: Grid, ghost sqs0: seq<int>, ghost pcs0: seq<Option<PieceColor>>)
      returns (added: nat)
      requires board.Length == SIZE && |g0| == SIZE && Playable(to) && IsPlayer(whoseMove)
      requires opponent == Opposite(whoseMove)
      requires 0 <= a < 3 && 0 <= b < 3 && n == 3 * a + b && j == Neighbor(to, a - 1, b - 1)
      requires CapturedSoFar(g0, to, n, sqs0, pcs0, added0)
      modifies this`undoSquares, this`undoPieces, board
      ensures CapturedSoFar(g0, to, n + 1, sqs0, pcs0, added)
    {
      CaptureStateNext(g0, to, whoseMove, a, b, sqs0, pcs0,
                       board[..], undoSquares, undoPieces, added0);
      added := added0;
      if board[j] == opponent {
        undoSquares := undoSquares + [j];
        undoPieces := undoPieces + [Some(board[j])];
        board[j] := whoseMove;
        added := added + 1;
      }
    }

    /** After the first n steps of the capture loop from grid g0, with
        undo stacks sqs0 and pcs0 beforehand and `added` pieces captured. */
    ghost predicate CapturedSoFar(g0: Grid, to: int, n: nat, sqs0: seq<int>,
                                  pcs0: seq<Option<PieceColor>>, added: int)
      requires |g0| == SIZE && Playable(to) && IsPlayer(whoseMove) && n <= 9
      reads this, board
    {
      CaptureState(g0, to, whoseMove, n, sqs0, pcs0, board[..], undoSquares, undoPieces, added)
    }

    /** The capture loop of makeMove, which Board.java writes out once for
        extends and once for jumps: every opponent piece among the squares
        around `to` turns to the mover, with an undo entry for each. The
        outer loop runs over the columns to - 1 .. to + 1. */
    method CaptureAround(to: int, opponent: PieceColor) returns (added: nat)
      requires board.Length == SIZE && Playable(to) && IsPlayer(whoseMove)
      requires opponent == Opposite(whoseMove)
      modifies this`undoSquares, this`undoPieces, board
      ensures var res := CaptureSteps(old(board[..]), to, whoseMove, 9);
              board[..] == res.0 && added == |res.1| &&
              undoSquares == old(undoSquares) + res.1 &&
              undoPieces == old(undoPieces) + Repeat(Some(opponent), |res.1|)
    {
      ghost var g0 := board[..];
      ghost var sqs0, pcs0 := undoSquares, undoPieces;
      added := 0;
      var i := to - 1;
      ghost var n := 0;
      assert undoSquares == sqs0 + [] && undoPieces == pcs0 + [];
      while i <= to + 1
        invariant to - 1 <= i <= to + 2 && n == 3 * (i - to + 1)
        invariant CapturedSoFar(g0, to, n, sqs0, pcs0, added)
      {
        added := CaptureColumn(to, i, opponent, added, n, g0, sqs0, pcs0);
        i := i + 1;
        n := n + 3;
      }
    }

    /** The inner capture loop: the squares i - 11, i and i + 11 of column i. */
    method CaptureColumn(to: int, i: int, opponent: PieceColor, added0: nat, ghost n0: nat,
                         ghost g0: Grid, ghost sqs0: seq<int>, ghost pcs0: seq<Option<PieceColor>>)
      returns (added: nat)
      requires board.Length == SIZE && |g0| == SIZE && Playable(to) && IsPlayer(whoseMove)
      requires opponent == Opposite(whoseMove) && to - 1 <= i <= to + 1 && n0 == 3 * (i - to + 1)
      requires CapturedSoFar(g0, to, n0, sqs0, pcs0, added0)
      modifies this`undoSquares, this`undoPieces, board
      ensures CapturedSoFar(g0, to, n0 + 3, sqs0, pcs0, added)
    {
      added := added0;
      var j := i - 11;
      ghost var b := 0;
      ghost var n := n0;
      while j <= i + 11
        invariant 0 <= b <= 3 && j == i - 11 + 11 * b && n == n0 + b
        invariant CapturedSoFar(g0, to, n, sqs0, pcs0, added)
      {
        added := CaptureOne(to, j, opponent, added, n, i - to + 1, b, g0, sqs0, pcs0);
        j := j + 11;
        b := b + 1;
        n := n + 1;
      }
    }

    /** Board.makeMove: an illegal move (or none) is refused and changes
        nothing; a pass is delegated to Pass; any other move is recorded,
        opens an undo group holding the source, the destination and every
        captured square with their previous contents, saves the piece
        counts, places the piece (emptying the source of a jump), captures,
        and hands the turn over. */
    method MakeMove(m: Option<Move>) returns (ok: bool)
      requires Valid()
      modifies this, board
      ensures Valid() && board == old(board) && totalOpen == old(totalOpen)
      ensures ok == (m.Some? && Legal(old(Pos()), m.value))
      ensures !ok ==> unchanged(this) && unchanged(board)
      ensures ok ==> Pos() == Apply(old(Pos()), m.value) && allMoves == old(allMoves) + [m.value]
      ensures ok && m.value.Pass? ==>
                undoSquares == old(undoSquares) + [SENTINEL] && undoPieces == old(undoPieces) + [None] &&
                savedRed == old(savedRed) && savedBlue == old(savedBlue)
      ensures ok && m.value.Mv? ==>
                undoSquares == old(undoSquares) + PushedSquares(old(Pos()), m.value) &&
                undoPieces == old(undoPieces) + PushedPieces(old(Pos()), m.value) &&
                savedRed == old(numRed) && savedBlue == old(numBlue)
    {
      ok := LegalMove(m);
      if !ok {
        return;
      }
      var move := m.value;
      if move.Pass? {
        Pass();
        return;
      }
      Play(move);
    }

    /** The body of Board.makeMove for a legal move other than a pass. */
    method Play(move: Move)
      requires Valid() && move.Mv? && Legal(Pos(), move)
      modifies this`allMoves, this`undoSquares, this`undoPieces, this`savedRed, this`savedBlue
      modifies this`numJumps, this`numRed, this`numBlue, this`whoseMove, board
      ensures Valid()
      ensures Pos() == Apply(old(Pos()), move) && allMoves == old(allMoves) + [move]
      ensures undoSquares == old(undoSquares) + PushedSquares(old(Pos()), move)
      ensures undoPieces == old(undoPieces) + PushedPieces(old(Pos()), move)
      ensures savedRed == old(numRed) && savedBlue == old(numBlue)
    {
      ghost var p := Pos();
      ghost var sqs0, pcs0 := undoSquares, undoPieces;
      assert UndoWf(sqs0 + PushedSquares(p, move), pcs0 + PushedPieces(p, move)) by {
        UndoAfterMove(p, move, sqs0, pcs0);
      }
      Record(move);
      Perform(move, p, sqs0, pcs0);
    }

    /** What makeMove does after Record: place, capture, update the counts
        and hand the turn over. */
    method Perform(move: Move, ghost p: Position, ghost sqs0: seq<int>, ghost pcs0: seq<Option<PieceColor>>)
      requires ValidGrid() && p == Pos() && move.Mv? && Legal(p, move)
      requires Opened(p, move, sqs0, pcs0)
      modifies this`numJumps, this`numRed, this`numBlue, this`whoseMove, this`undoSquares, this`undoPieces, board
      ensures Pos() == Apply(p, move)
      ensures ValidGrid()
      ensures undoSquares == sqs0 + PushedSquares(p, move) && undoPieces == pcs0 + PushedPieces(p, move)
    {
      var addedPieces := PlaceAndCapture(move, Opposite(whoseMove), p, sqs0, pcs0);
      Finish(move, addedPieces, p, sqs0, pcs0);
    }

    /** The counting that ends makeMove, once the squares are placed and
        captured: the board then holds the position the move leads to. */
    method Finish(move: Move, addedPieces: int, ghost p: Position,
                  ghost sqs0: seq<int>, ghost pcs0: seq<Option<PieceColor>>)
      requires WellFormed(p) && move.Mv? && whoseMove == p.mover && winner == p.winner
      requires Moved(p, move, sqs0, pcs0, addedPieces)
      modifies this`numRed, this`numBlue, this`whoseMove
      ensures Pos() == Apply(p, move)
    {
      AfterPlacing(p, move, board[..], undoSquares, undoPieces, sqs0, pcs0, numJumps, numRed, numBlue, addedPieces);
      Tally(addedPieces, Apply(p, move));
    }

    /** The end of makeMove: the mover gains the captured pieces, the
        opponent loses them, and the turn passes, which leaves the board
        at q when q differs from it by exactly that. */
    method Tally(addedPieces: int, ghost q: Position)
      requires IsPlayer(whoseMove)
      requires board[..] == q.grid && q.mover == Opposite(whoseMove) && q.numJumps == numJumps && q.winner == winner
      requires q.red == (if whoseMove == Red then numRed + addedPieces else numRed - addedPieces)
      requires q.blue == (if whoseMove == Blue then numBlue + addedPieces else numBlue - addedPieces)
      modifies this`numRed, this`numBlue, this`whoseMove
      ensures Pos() == q
    {
      var opponent := Opposite(whoseMove);
      IncrPieces(whoseMove, addedPieces);
      IncrPieces(opponent, -addedPieces);
      whoseMove := opponent;
    }

    /** The bookkeeping makeMove does before touching the squares: the move
        joins the history, an undo group opens with the source and the
        destination and their contents, and the piece counts are saved. */
    method Record(move: Move)
      requires board.Length == SIZE && move.Mv?
      modifies this`allMoves, this`undoSquares, this`undoPieces, this`savedRed, this`savedBlue
      ensures allMoves == old(allMoves) + [move]
      ensures undoSquares == old(undoSquares) + [SENTINEL, FromIndex(move), ToIndex(move)]
      ensures undoPieces == old(undoPieces) + [None, Some(whoseMove), Some(Empty)]
      ensures savedRed == numRed && savedBlue == numBlue
    {
      allMoves := allMoves + [move];
      StartUndo();
      savedRed, savedBlue := numRed, numBlue;
      undoPieces, undoSquares := undoPieces + [Some(whoseMove)], undoSquares + [FromIndex(move)];
      undoPieces, undoSquares := undoPieces + [Some(Empty)], undoSquares + [ToIndex(move)];
    }

    /** The squares, stacks and counters after the placement and captures of
        a non-pass move from position p, with the undo stacks sqs0 and pcs0
        before the move. */
    ghost predicate Moved(p: Position, move: Move, sqs0: seq<int>, pcs0: seq<Option<PieceColor>>,
                          addedPieces: int)
      requires WellFormed(p) && move.Mv?
      reads this, board
    {
      Captured(p, move, sqs0, pcs0, addedPieces) && Placing(p, move, numJumps, numRed, numBlue)
    }

    /** The undo group opened by Record, before the captures. */
    ghost predicate Opened(p: Position, move: Move, sqs0: seq<int>, pcs0: seq<Option<PieceColor>>)
      requires move.Mv?
      reads this`undoSquares, this`undoPieces
    {
      undoSquares == sqs0 + [SENTINEL, FromIndex(move), ToIndex(move)] &&
      undoPieces == pcs0 + [None, Some(p.mover), Some(Empty)]
    }

    /** The extend and jump branches of Board.makeMove, each guarded by a
        second legality check that always succeeds since nothing has
        changed on the squares yet. The result is the number of captures. */
    method PlaceAndCapture(move: Move, opponent: PieceColor, ghost p: Position,
                           ghost sqs0: seq<int>, ghost pcs0: seq<Option<PieceColor>>)
      returns (addedPieces: int)
      requires ValidGrid() && p == Pos() && move.Mv? && Legal(p, move) && opponent == Opposite(whoseMove)
      requires Opened(p, move, sqs0, pcs0)
      modifies this`numJumps, this`numRed, this`numBlue, this`undoSquares, this`undoPieces, board
      ensures Moved(p, move, sqs0, pcs0, addedPieces)
    {
      addedPieces := 0;
      ExtendOrJump(move);
      var stillLegal := LegalMove(Some(move));
      if IsExtend(move) && stillLegal {
        addedPieces := Extend(move, opponent, p, sqs0, pcs0);
      }
      if IsJump(move) && stillLegal {
        addedPieces := Jump(move, opponent, p, sqs0, pcs0);
      }
    }

    /** The squares and undo stacks after the placement and captures of a
        non-pass move from position p, with the undo stacks sqs0 and pcs0
        before the move; addedPieces is the number of captures. */
    ghost predicate Captured(p: Position, move: Move, sqs0: seq<int>, pcs0: seq<Option<PieceColor>>,
                             addedPieces: int)
      requires WellFormed(p) && move.Mv?
      reads this`board, this`undoSquares, this`undoPieces, board
    {
      Capturing(p, move, board[..], undoSquares, undoPieces, sqs0, pcs0, addedPieces)
    }

    /** An extend: the jump streak restarts, the destination gets the
        mover's piece, which adds to the mover's count, and the pieces
        around it are captured. */
    method Extend(move: Move, opponent: PieceColor, ghost p: Position,
                  ghost sqs0: seq<int>, ghost pcs0: seq<Option<PieceColor>>)
      returns (addedPieces: int)
      requires ValidGrid() && p == Pos() && move.Mv? && IsExtend(move) && opponent == Opposite(whoseMove)
      requires Opened(p, move, sqs0, pcs0)
      modifies this`numJumps, this`numRed, this`numBlue, this`undoSquares, this`undoPieces, board
      ensures Captured(p, move, sqs0, pcs0, addedPieces) && numJumps == 0
      ensures numRed == p.red + (if p.mover == Red then 1 else 0)
      ensures numBlue == p.blue + (if p.mover == Blue then 1 else 0)
    {
      PushedConcat(p, move, sqs0, pcs0);
      numJumps := 0;
      PlaceExtend(move, p);
      IncrPieces(whoseMove, 1);
      IndexCoords(move.c1, move.r1);
      addedPieces := CaptureAround(ToIndex(move), opponent);
    }

    /** The placement of an extend: the destination gets the mover's piece. */
    method PlaceExtend(move: Move, ghost p: Position)
      requires ValidGrid() && p.grid == board[..] && p.mover == whoseMove && move.Mv? && IsExtend(move)
      modifies board
      ensures board[..] == Placed(p, move)
    {
      board[ToIndex(move)] := whoseMove;
    }

    /** A jump: the jump streak grows, the source empties, the destination
        gets the mover's piece, and the pieces around it are captured. */
    method Jump(move: Move, opponent: PieceColor, ghost p: Position,
                ghost sqs0: seq<int>, ghost pcs0: seq<Option<PieceColor>>)
      returns (addedPieces: int)
      requires ValidGrid() && p == Pos() && move.Mv? && IsJump(move) && opponent == Opposite(whoseMove)
      requires Opened(p, move, sqs0, pcs0)
      modifies this`numJumps, this`undoSquares, this`undoPieces, board
      ensures Captured(p, move, sqs0, pcs0, addedPieces) && numJumps == p.numJumps + 1
    {
      PushedConcat(p, move, sqs0, pcs0);
      numJumps := numJumps + 1;
      PlaceJump(move, p);
      IndexCoords(move.c1, move.r1);
      addedPieces := CaptureAround(ToIndex(move), opponent);
    }

    /** The placement of a jump: the source empties and the destination gets
        the mover's piece. */
    method PlaceJump(move: Move, ghost p: Position)
      requires ValidGrid() && p.grid == board[..] && p.mover == whoseMove && move.Mv? && IsJump(move)
      modifies board
      ensures board[..] == Placed(p, move)
    {
      board[FromIndex(move)] := Empty;
      board[ToIndex(move)] := whoseMove;
    }

    /** Board.undo. With empty stacks nothing happens. When the stacks are
        not empty but the history is (an undone pass leaves its SENTINEL
        behind) Board.java fails reading the last move: ok is false and
        nothing changes. Otherwise, unless the last move was a pass, the
        squares of the top undo group are written back and the group
        popped; a jump is taken off the jump streak; the counts saved by
        the last non-pass move come back; the turn flips; the last move
        leaves the history; and the cached winner is cleared. */
    method Undo() returns (ok: bool)
      requires Valid()
      modifies this`undoSquares, this`undoPieces, this`numJumps, this`numRed, this`numBlue
      modifies this`whoseMove, this`allMoves, this`winner, board
      ensures Valid()
      ensures ok == (old(undoPieces) == [] || old(allMoves) != [])
      ensures !ok || old(undoPieces) == [] ==> unchanged(this) && unchanged(board)
      ensures ok && old(undoPieces) != [] ==>
                var last := old(allMoves)[|old(allMoves)| - 1];
                (last.Pass? ==> board[..] == old(board[..]) &&
                                undoSquares == old(undoSquares) && undoPieces == old(undoPieces)) &&
                (last.Mv? ==> (board[..], undoSquares, undoPieces) ==
                                Unwind(old(board[..]), old(undoSquares), old(undoPieces))) &&
                numJumps == (if IsJump(last) then old(numJumps) - 1 else old(numJumps)) &&
                numRed == old(savedRed) && numBlue == old(savedBlue) &&
                whoseMove == Opposite(old(whoseMove)) &&
                allMoves == old(allMoves)[..|old(allMoves)| - 1] && winner == None
    {
      if undoPieces == [] {
        return true;
      }
      if allMoves == [] {
        return false;
      }
      ok := true;
      var last := allMoves[|allMoves| - 1];
      if !last.Pass? {
        RestoreGroup();
      }
      if IsJump(last) {
        numJumps := numJumps - 1;
      }
      numRed := savedRed;
      numBlue := savedBlue;
      whoseMove := Opposite(whoseMove);
      allMoves := allMoves[..|allMoves| - 1];
      winner := None;
    }

    /** The pop loop of Board.undo: the entries of the top undo group are
        written back to their squares, from the top down, and the group is
        popped together with its SENTINEL. */
    method RestoreGroup()
      requires Valid() && undoPieces != []
      modifies this`undoSquares, this`undoPieces, board
      ensures Valid()
      ensures (board[..], undoSquares, undoPieces) == Unwind(old(board[..]), old(undoSquares), old(undoPieces))
    {
      ghost var g0, sqs0, pcs0 := board[..], undoSquares, undoPieces;
      RestoreStart(g0, sqs0, pcs0);
      var index := undoSquares[|undoSquares| - 1];
      var piece := undoPieces[|undoPieces| - 1];
      undoSquares := undoSquares[..|undoSquares| - 1];
      undoPieces := undoPieces[..|undoPieces| - 1];
      while index != SENTINEL
        invariant Restoring(g0, sqs0, pcs0, board[..], undoSquares, undoPieces, index, piece)
        decreases |undoSquares|
      {
        RestoreStep(g0, sqs0, pcs0, board[..], undoSquares, undoPieces, index, piece);
        ghost var before := board[..];
        board[index] := piece.value;
        assert board[..] == before[index := piece.value];
        index := undoSquares[|undoSquares| - 1];
        piece := undoPieces[|undoPieces| - 1];
        undoSquares := undoSquares[..|undoSquares| - 1];
        undoPieces := undoPieces[..|undoPieces| - 1];
      }
      RestoreDone(g0, sqs0, pcs0, board[..], undoSquares, undoPieces, index, piece);
    }

    /** Board.legalBlock: before any move, with (c, r) and its reflections
        through the centre square all EMPTY. */
    method LegalBlock(c: int, r: int) returns (b: bool)
      requires Valid() && InExtended(c, r)
      ensures b == Rules.LegalBlock(board[..], allMoves == [], c, r)
    {
      var row := Abs(c - 3);
      var col := Abs(3 - r);
      var center := Index(3, 3);
      BlockSquaresInRange(c, r);
      b := board[Index(c, r)] == Empty
           && board[center - EXTENDED_SIDE * col + row] == Empty
           && board[center - EXTENDED_SIDE * col - row] == Empty
           && board[center + EXTENDED_SIDE * col + row] == Empty
           && board[center + EXTENDED_SIDE * col - row] == Empty
           && allMoves == [];
    }

    /** Board.setBlock: an illegal placement is refused; otherwise the square
        and its reflections become BLOCKED, the open-square tally drops by
        the number of distinct squares blocked, and if neither colour can
        move any more the game is declared a draw. */
    method SetBlock(c: int, r: int) returns (ok: bool)
      requires Valid() && InExtended(c, r)
      modifies this`totalOpen, this`winner, board
      ensures Valid()
      ensures ok == Rules.LegalBlock(old(board[..]), old(allMoves) == [], c, r)
      ensures !ok ==> unchanged(this) && unchanged(board)
      ensures ok ==> board[..] == WithBlocks(old(board[..]), c, r) &&
                     totalOpen == old(totalOpen) - |BlockSquares(c, r)| &&
                     winner == (if !Rules.CanMove(board[..], Red) && !Rules.CanMove(board[..], Blue)
                                then Some(Empty) else old(winner))
      ensures ok ==> Count(board[..], Red) == Count(old(board[..]), Red) &&
                     Count(board[..], Blue) == Count(old(board[..]), Blue)
    {
      ok := LegalBlock(c, r);
      if !ok {
        return;
      }
      ghost var g0 := board[..];
      PlaceBlocks(c, r);
      var row := Abs(c - 3);
      var col := Abs(3 - r);
      BlockSquaresShape(c, r);
      if row == 0 && col == 0 {
        totalOpen := totalOpen - 1;
      } else if row == 0 || col == 0 {
        totalOpen := totalOpen - 2;
      } else {
        totalOpen := totalOpen - 4;
      }
      var redCan := CanMove(Red);
      if !redCan {
        var blueCan := CanMove(Blue);
        if !blueCan {
          winner := Some(Empty);
        }
      }
      assert Valid() by {
        WithBlocksWrites(g0, c, r);
      }
      BlocksKeepCounts(g0, old(allMoves) == [], c, r);
    }

    /** The writes of Board.setBlock: the square and its three reflections
        through the centre become BLOCKED. */
    method PlaceBlocks(c: int, r: int)
      requires board.Length == SIZE && InExtended(c, r)
      modifies board
      ensures board[..] == WithBlocks(old(board[..]), c, r)
    {
      WithBlocksWrites(board[..], c, r);
      var row := Abs(c - 3);
      var col := Abs(3 - r);
      var center := Index(3, 3);
      board[center - EXTENDED_SIDE * col + row] := Blocked;
      board[center - EXTENDED_SIDE * col - row] := Blocked;
      board[center + EXTENDED_SIDE * col + row] := Blocked;
      board[center + EXTENDED_SIDE * col - row] := Blocked;
    }

    /** Board.equals: another board with the same squares (null is never
        equal). */
    method Equals(other: Board?) returns (b: bool)
      requires Valid() && (other != null ==> other.Valid())
      ensures b == (other != null && board[..] == other.board[..])
    {
      if other == null {
        return false;
      }
      b := board[..] == other.board[..];
    }
  }

  /** The squares and undo stacks once the piece is placed and the captures
      made, for a non-pass move from p: g is the captured grid, added the
      number of captures, and the undo stacks sqs0 and pcs0 have grown by
      the move's group. */
  ghost predicate Capturing(p: Position, move: Move, g: seq<PieceColor>, sqs: seq<int>,
                            pcs: seq<Option<PieceColor>>, sqs0: seq<int>,
                            pcs0: seq<Option<PieceColor>>, added: int)
    requires WellFormed(p) && move.Mv?
  {
    var caps := Captures(p, move);
    g == caps.0 && added == |caps.1| &&
    sqs == sqs0 + PushedSquares(p, move) && pcs == pcs0 + PushedPieces(p, move)
  }

  /** The counters once the piece is placed, before the captures are
      counted: an extend restarts the jump streak and adds the new piece to
      the mover's count, a jump extends the streak. */
  ghost predicate Placing(p: Position, move: Move, jumps: int, red: int, blue: int)
    requires move.Mv?
  {
    jumps == (if IsExtend(move) then 0 else p.numJumps + 1) &&
    red == p.red + (if IsExtend(move) && p.mover == Red then 1 else 0) &&
    blue == p.blue + (if IsExtend(move) && p.mover == Blue then 1 else 0)
  }

  /** What is left of makeMove once the squares are placed and captured:
      moving the captures from the opponent's count to the mover's and
      handing the turn over gives the position the move leads to. */
  lemma AfterPlacing(p: Position, move: Move, g: seq<PieceColor>, sqs: seq<int>,
                     pcs: seq<Option<PieceColor>>, sqs0: seq<int>, pcs0: seq<Option<PieceColor>>,
                     jumps: int, red: int, blue: int, added: int)
    requires WellFormed(p) && move.Mv?
    requires Capturing(p, move, g, sqs, pcs, sqs0, pcs0, added) && Placing(p, move, jumps, red, blue)
    ensures |g| == SIZE && BorderBlocked(g)
    ensures Apply(p, move) == Position(g, Opposite(p.mover), jumps,
                                       if p.mover == Red then red + added else red - added,
                                       if p.mover == Blue then blue + added else blue - added,
                                       p.winner)
  {
    var q := Apply(p, move);
    assert q.grid == g && q.numJumps == jumps;
    assert q == Position(q.grid, q.mover, q.numJumps, q.red, q.blue, q.winner);
  }
}
