/** AI.minMax and AI.staticScore as functions of a position value: the
    tree of positions the search visits (Expand), and the depth-limited
    minimax search with alpha-beta cutoffs over it (Search). The AI class
    proves its recursive method against MinMax, the two put together. */
module Minimax {
  import opened Optional
  import opened Pieces
  import opened Squares
  import opened Moves
  import opened Grids
  import opened Rules
  import opened Enumeration

  /** Depth of the search started by findMove. */
  const MAX_DEPTH := 4
  /** Integer.MAX_VALUE. */
  const INT_MAX := 2147483647
  /** Magnitude of a won position; depth is added so that sooner wins score higher. */
  const WINNING_VALUE := INT_MAX - 20
  /** A magnitude greater than any value the search returns. */
  const INFTY := INT_MAX

  /** The static evaluation: plus or minus the winning value for a decided
      game, 0 for a tie, otherwise the red lead in pieces. */
  function StaticScore(p: Position, winningValue: int): int
    requires |p.grid| == SIZE
  {
    match Winner(p)
    case Some(Red) => winningValue
    case Some(Blue) => -winningValue
    case Some(_) => 0
    case None => p.red - p.blue
  }

  /** The tree minMax explores: a leaf carries its static score, an inner
      node one branch per move of the move list, in order. */
  datatype GameTree = Leaf(score: int) | Node(branches: seq<Branch>)
  datatype Branch = Branch(move: Move, tree: GameTree)

  /** The tree below position p searched to the given depth: minMax stops at
      depth 0 or when getWinner reports a verdict, and scores the position
      with WINNING_VALUE + depth as the winning value; otherwise it tries
      every move of the move list. */
  function Expand(p: Position, depth: nat): GameTree
    requires WellFormed(p)
    decreases depth, 1
  {
    if depth == 0 || Winner(p).Some? then Leaf(StaticScore(p, WINNING_VALUE + depth))
    else Node(Children(p, MoveList(p), depth))
  }

  /** One branch per move of ms, in order, each leading to the tree one level
      shallower below the position the move produces. */
  function Children(p: Position, ms: seq<Move>, depth: nat): (bs: seq<Branch>)
    requires WellFormed(p) && depth > 0
    ensures |bs| == |ms|
    decreases depth, 0, |ms|
  {
    if ms == [] then []
    else [Branch(ms[0], Expand(Apply(p, ms[0]), depth - 1))] + Children(p, ms[1..], depth)
  }

  /** A search result: the move recorded as best (null when none was) and the
      value returned. */
  datatype Outcome = Outcome(best: Option<Move>, value: int)

  function Max(a: int, b: int): int { if a >= b then a else b }
  function Min(a: int, b: int): int { if a <= b then a else b }

  /** minMax on the tree t. A sense other than 1 or -1 runs no loop, so the
      result is a null move and 0. */
  function Search(t: GameTree, sense: int, alpha: int, beta: int): Outcome
    decreases t, 1
  {
    match t
    case Leaf(v) => Outcome(None, v)
    case Node(bs) =>
      if sense == 1 then MaxLoop(t, 0, alpha, beta, -INFTY, None, 0)
      else if sense == -1 then MinLoop(t, 0, alpha, beta, INFTY, None, 0)
      else Outcome(None, 0)
  }

  /** The maximising loop from branch i on. bestScore takes the running
      maximum only after the cutoff test, so a cutoff returns the maximum of
      the branches before the one that caused it (0 when it is the first). */
  function MaxLoop(t: GameTree, i: nat, alpha: int, beta: int,
                   maxEval: int, best: Option<Move>, bestScore: int): Outcome
    requires t.Node? && i <= |t.branches|
    decreases t, 0, |t.branches| - i
  {
    if i == |t.branches| then Outcome(best, bestScore)
    else
      var b := t.branches[i];
      var eval := Search(b.tree, -1, alpha, beta).value;
      var maxEval' := if eval > maxEval then eval else maxEval;
      var best' := if eval > maxEval then Some(b.move) else best;
      var alpha' := Max(alpha, eval);
      if alpha' >= beta then Outcome(best', bestScore)
      else MaxLoop(t, i + 1, alpha', beta, maxEval', best', maxEval')
  }

  /** The minimising loop, the mirror image of MaxLoop. */
  function MinLoop(t: GameTree, i: nat, alpha: int, beta: int,
                   minEval: int, best: Option<Move>, bestScore: int): Outcome
    requires t.Node? && i <= |t.branches|
    decreases t, 0, |t.branches| - i
  {
    if i == |t.branches| then Outcome(best, bestScore)
    else
      var b := t.branches[i];
      var eval := Search(b.tree, 1, alpha, beta).value;
      var minEval' := if eval < minEval then eval else minEval;
      var best' := if eval < minEval then Some(b.move) else best;
      var beta' := Min(beta, minEval');
      if beta' <= alpha then Outcome(best', bestScore)
      else MinLoop(t, i + 1, alpha, beta', minEval', best', minEval')
  }

  /** The value the search of branch i of node t returns. */
  function BranchValue(t: GameTree, i: nat, sense: int, alpha: int, beta: int): int
    requires t.Node? && i < |t.branches|
  {
    Search(t.branches[i].tree, sense, alpha, beta).value
  }

  /** minMax(board, depth, _, sense, alpha, beta) on position p. */
  function MinMax(p: Position, depth: nat, sense: int, alpha: int, beta: int): Outcome
    requires WellFormed(p)
  {
    Search(Expand(p, depth), sense, alpha, beta)
  }

  /** The values the maximising loop assigns to branches i.. of t when no
      cutoff happens, each searched with alpha raised to the best so far. */
  function MaxEvals(t: GameTree, i: nat, alpha: int, beta: int): (ev: seq<int>)
    requires t.Node? && i <= |t.branches|
    ensures |ev| == |t.branches| - i
    decreases |t.branches| - i
  {
    if i == |t.branches| then []
    else
      var eval := Search(t.branches[i].tree, -1, alpha, beta).value;
      [eval] + MaxEvals(t, i + 1, Max(alpha, eval), beta)
  }

  /** The values the minimising loop assigns to branches i.. of t when no
      cutoff happens, each searched with beta lowered to the best so far. */
  function MinEvals(t: GameTree, i: nat, alpha: int, beta: int): (ev: seq<int>)
    requires t.Node? && i <= |t.branches|
    ensures |ev| == |t.branches| - i
    decreases |t.branches| - i
  {
    if i == |t.branches| then []
    else
      var eval := Search(t.branches[i].tree, 1, alpha, beta).value;
      [eval] + MinEvals(t, i + 1, alpha, Min(beta, eval))
  }
}
