/** What the search promises: the static score has the sign of the game's
    verdict, every value stays strictly between -INFTY and INFTY (so within
    a Java int), and a search with the full window picks the first move of
    largest (for red) or smallest (for blue) value. */
module MinimaxFacts {
  import opened Optional
  import opened Pieces
  import opened Squares
  import opened Moves
  import opened Grids
  import opened Rules
  import opened RuleFacts
  import opened Enumeration
  import opened Minimax

  // ---------------------------------------------------------------------
  // Static score

  /** In a finished game the score is positive exactly when red has more
      pieces, negative exactly when blue has, and 0 exactly on a tie. */
  lemma StaticScoreSign(p: Position, winningValue: int)
    requires |p.grid| == SIZE && GameOver(p) && winningValue > 0
    ensures StaticScore(p, winningValue) > 0 <==> p.red > p.blue
    ensures StaticScore(p, winningValue) < 0 <==> p.blue > p.red
    ensures StaticScore(p, winningValue) == 0 <==> p.red == p.blue
  {
    WinnerWhenOver(p);
  }

  /** With matching counters the piece lead never exceeds the board size, so
      a winning value of at least SIZE bounds the score. */
  lemma StaticScoreBound(p: Position, winningValue: int)
    requires CountsMatch(p) && winningValue >= SIZE
    ensures -winningValue <= StaticScore(p, winningValue) <= winningValue
  {
    CountBound(p.grid, Red);
    CountBound(p.grid, Blue);
  }

  // ---------------------------------------------------------------------
  // Bounds

  /** Every leaf score of t lies within b of 0 and every inner node has a
      branch. */
  predicate Bounded(t: GameTree, b: int)
    decreases t
  {
    match t
    case Leaf(v) => -b <= v <= b
    case Node(bs) => |bs| > 0 && forall i :: 0 <= i < |bs| ==> Bounded(bs[i].tree, b)
  }

  lemma {:induction false} BoundedMono(t: GameTree, b: int, b': int)
    requires Bounded(t, b) && b <= b'
    ensures Bounded(t, b')
    decreases t
  {
    if t.Node? {
      forall i | 0 <= i < |t.branches| ensures Bounded(t.branches[i].tree, b') {
        BoundedMono(t.branches[i].tree, b, b');
      }
    }
  }

  /** The search never leaves the range of the leaf scores (0 included, the
      value of a cutoff on the first branch). */
  lemma {:induction false} SearchBounded(t: GameTree, b: int, sense: int, alpha: int, beta: int)
    requires Bounded(t, b) && b >= 0
    ensures -b <= Search(t, sense, alpha, beta).value <= b
    decreases t, 1
  {
    if t.Node? {
      if sense == 1 {
        MaxLoopBounded(t, b, 0, alpha, beta, -INFTY, None, 0);
      } else if sense == -1 {
        MinLoopBounded(t, b, 0, alpha, beta, INFTY, None, 0);
      }
    }
  }

  lemma {:induction false} MaxLoopBounded(t: GameTree, b: int, i: nat, alpha: int, beta: int,
                                          maxEval: int, best: Option<Move>, bestScore: int)
    requires t.Node? && Bounded(t, b) && b >= 0 && i <= |t.branches|
    requires maxEval <= b && -b <= bestScore <= b
    ensures -b <= MaxLoop(t, i, alpha, beta, maxEval, best, bestScore).value <= b
    decreases t, 0, |t.branches| - i
  {
    if i < |t.branches| {
      var br := t.branches[i];
      SearchBounded(br.tree, b, -1, alpha, beta);
      var eval := Search(br.tree, -1, alpha, beta).value;
      var maxEval' := if eval > maxEval then eval else maxEval;
      var best' := if eval > maxEval then Some(br.move) else best;
      MaxLoopBounded(t, b, i + 1, Max(alpha, eval), beta, maxEval', best', maxEval');
    }
  }

  lemma {:induction false} MinLoopBounded(t: GameTree, b: int, i: nat, alpha: int, beta: int,
                                          minEval: int, best: Option<Move>, bestScore: int)
    requires t.Node? && Bounded(t, b) && b >= 0 && i <= |t.branches|
    requires minEval >= -b && -b <= bestScore <= b
    ensures -b <= MinLoop(t, i, alpha, beta, minEval, best, bestScore).value <= b
    decreases t, 0, |t.branches| - i
  {
    if i < |t.branches| {
      var br := t.branches[i];
      SearchBounded(br.tree, b, 1, alpha, beta);
      var eval := Search(br.tree, 1, alpha, beta).value;
      var minEval' := if eval < minEval then eval else minEval;
      var best' := if eval < minEval then Some(br.move) else best;
      MinLoopBounded(t, b, i + 1, alpha, Min(beta, minEval'), minEval', best', minEval');
    }
  }

  /** Below a non-final position the search tries exactly the move list, in
      order, each branch leading to the position the move produces. */
  lemma ExpandNode(p: Position, depth: nat)
    requires WellFormed(p) && depth > 0 && Winner(p).None?
    ensures var t := Expand(p, depth);
            t.Node? && |t.branches| == |MoveList(p)| &&
            forall i :: 0 <= i < |t.branches| ==>
              t.branches[i] == Branch(MoveList(p)[i], Expand(Apply(p, MoveList(p)[i]), depth - 1))
  {
    var ms := MoveList(p);
    forall i | 0 <= i < |ms|
      ensures Children(p, ms, depth)[i] == Branch(ms[i], Expand(Apply(p, ms[i]), depth - 1))
    {
      ChildrenAt(p, ms, depth, i);
    }
  }

  /** Branch i of the children of p is move i of the list and its subtree. */
  lemma {:induction false} ChildrenAt(p: Position, ms: seq<Move>, depth: nat, i: nat)
    requires WellFormed(p) && depth > 0 && i < |ms|
    ensures Children(p, ms, depth)[i] == Branch(ms[i], Expand(Apply(p, ms[i]), depth - 1))
    decreases i
  {
    if i > 0 {
      ChildrenAt(p, ms[1..], depth, i - 1);
    }
  }

  /** From a position whose counters match, every leaf of the tree of depth
      d scores within WINNING_VALUE + d of 0, and every inner node has a
      move (a lone pass when nothing else is legal). */
  lemma {:induction false} ExpandBounded(p: Position, depth: nat)
    requires WellFormed(p) && CountsMatch(p)
    ensures Bounded(Expand(p, depth), WINNING_VALUE + depth)
    decreases depth, 1
  {
    if depth == 0 || Winner(p).Some? {
      StaticScoreBound(p, WINNING_VALUE + depth);
    } else {
      var t := Expand(p, depth);
      var ms := MoveList(p);
      ExpandNode(p, depth);
      MoveListLegal(p);
      forall i | 0 <= i < |t.branches| ensures Bounded(t.branches[i].tree, WINNING_VALUE + depth) {
        assert ms[i] in ms;
        ApplyCounts(p, ms[i]);
        BranchBounded(Apply(p, ms[i]), depth);
      }
    }
  }

  lemma {:induction false} BranchBounded(q: Position, depth: nat)
    requires WellFormed(q) && CountsMatch(q) && depth > 0
    ensures Bounded(Expand(q, depth - 1), WINNING_VALUE + depth)
    decreases depth, 0
  {
    ExpandBounded(q, depth - 1);
    BoundedMono(Expand(q, depth - 1), WINNING_VALUE + depth - 1, WINNING_VALUE + depth);
  }

  /** Every value minMax returns is within WINNING_VALUE + depth of 0, so up
      to the depth findMove uses it is strictly inside (-INFTY, INFTY): the
      infinities of the window are never reached and no value overflows a
      Java int. */
  lemma MinMaxInRange(p: Position, depth: nat, sense: int, alpha: int, beta: int)
    requires WellFormed(p) && CountsMatch(p) && depth <= MAX_DEPTH
    ensures -(WINNING_VALUE + depth) <= MinMax(p, depth, sense, alpha, beta).value <= WINNING_VALUE + depth
    ensures -INFTY < MinMax(p, depth, sense, alpha, beta).value < INFTY
  {
    ExpandBounded(p, depth);
    SearchBounded(Expand(p, depth), WINNING_VALUE + depth, sense, alpha, beta);
  }

  // ---------------------------------------------------------------------
  // The move chosen with the full window

  /** The index the maximising loop settles on when it starts from floor:
      the running best moves to i whenever ev[i] beats it. */
  function ArgMaxFrom(ev: seq<int>, floor: int): Option<nat>
    decreases |ev|
  {
    if |ev| == 0 then None
    else
      var rest := ArgMaxFrom(ev[1..], Max(floor, ev[0]));
      if rest.Some? then Some(rest.value + 1)
      else if ev[0] > floor then Some(0)
      else None
  }

  /** That index is the first position of the largest value of ev, present
      exactly when some value exceeds floor. */
  lemma {:induction false} ArgMaxFromSpec(ev: seq<int>, floor: int)
    ensures var r := ArgMaxFrom(ev, floor);
            (r.None? <==> forall k :: 0 <= k < |ev| ==> ev[k] <= floor) &&
            (r.Some? ==> r.value < |ev| && ev[r.value] > floor &&
                         (forall k :: 0 <= k < |ev| ==> ev[k] <= ev[r.value]) &&
                         (forall k :: 0 <= k < r.value ==> ev[k] < ev[r.value]))
    decreases |ev|
  {
    if |ev| > 0 {
      ArgMaxFromSpec(ev[1..], Max(floor, ev[0]));
      assert forall k :: 1 <= k < |ev| ==> ev[k] == ev[1..][k - 1];
    }
  }

  lemma {:induction false} ArgMaxFromRange(ev: seq<int>, floor: int)
    ensures ArgMaxFrom(ev, floor).Some? ==> ArgMaxFrom(ev, floor).value < |ev|
    decreases |ev|
  {
    if |ev| > 0 {
      ArgMaxFromRange(ev[1..], Max(floor, ev[0]));
    }
  }

  /** The index the minimising loop settles on when it starts from ceiling. */
  function ArgMinFrom(ev: seq<int>, ceiling: int): Option<nat>
    decreases |ev|
  {
    if |ev| == 0 then None
    else
      var rest := ArgMinFrom(ev[1..], Min(ceiling, ev[0]));
      if rest.Some? then Some(rest.value + 1)
      else if ev[0] < ceiling then Some(0)
      else None
  }

  /** That index is the first position of the smallest value of ev, present
      exactly when some value is below ceiling. */
  lemma {:induction false} ArgMinFromSpec(ev: seq<int>, ceiling: int)
    ensures var r := ArgMinFrom(ev, ceiling);
            (r.None? <==> forall k :: 0 <= k < |ev| ==> ev[k] >= ceiling) &&
            (r.Some? ==> r.value < |ev| && ev[r.value] < ceiling &&
                         (forall k :: 0 <= k < |ev| ==> ev[k] >= ev[r.value]) &&
                         (forall k :: 0 <= k < r.value ==> ev[k] > ev[r.value]))
    decreases |ev|
  {
    if |ev| > 0 {
      ArgMinFromSpec(ev[1..], Min(ceiling, ev[0]));
      assert forall k :: 1 <= k < |ev| ==> ev[k] == ev[1..][k - 1];
    }
  }

  lemma {:induction false} ArgMinFromRange(ev: seq<int>, ceiling: int)
    ensures ArgMinFrom(ev, ceiling).Some? ==> ArgMinFrom(ev, ceiling).value < |ev|
    decreases |ev|
  {
    if |ev| > 0 {
      ArgMinFromRange(ev[1..], Min(ceiling, ev[0]));
    }
  }

  /** With beta at INFTY and scores below INFTY the maximising loop never
      cuts off: it returns the first branch of largest value among the
      values MaxEvals lists, when one beats maxEval, and otherwise keeps
      best and maxEval. */
  lemma {:induction false} MaxLoopChoice(t: GameTree, i: nat, alpha: int,
                                         maxEval: int, best: Option<Move>, bestScore: int)
    requires t.Node? && Bounded(t, INFTY - 1) && i < |t.branches| && alpha < INFTY
    ensures var o := MaxLoop(t, i, alpha, INFTY, maxEval, best, bestScore);
            var ev := MaxEvals(t, i, alpha, INFTY);
            match ArgMaxFrom(ev, maxEval)
            case None => o == Outcome(best, maxEval)
            case Some(j) => i + j < |t.branches| && o == Outcome(Some(t.branches[i + j].move), ev[j])
    decreases |t.branches| - i
  {
    var ev := MaxEvals(t, i, alpha, INFTY);
    var br := t.branches[i];
    SearchBounded(br.tree, INFTY - 1, -1, alpha, INFTY);
    var eval := Search(br.tree, -1, alpha, INFTY).value;
    var maxEval' := if eval > maxEval then eval else maxEval;
    var best' := if eval > maxEval then Some(br.move) else best;
    assert ev[0] == eval && ev[1..] == MaxEvals(t, i + 1, Max(alpha, eval), INFTY);
    assert maxEval' == Max(maxEval, eval);
    var rest := ArgMaxFrom(ev[1..], maxEval');
    assert ArgMaxFrom(ev, maxEval) ==
           if rest.Some? then Some(rest.value + 1) else if eval > maxEval then Some(0) else None;
    ArgMaxFromRange(ev, maxEval);
    if i + 1 < |t.branches| {
      MaxLoopChoice(t, i + 1, Max(alpha, eval), maxEval', best', maxEval');
    } else {
      assert rest == None;
    }
  }

  /** The mirror image of MaxLoopChoice, with alpha at -INFTY. */
  lemma {:induction false} MinLoopChoice(t: GameTree, i: nat, beta: int,
                                         minEval: int, best: Option<Move>, bestScore: int)
    requires t.Node? && Bounded(t, INFTY - 1) && i < |t.branches| && -INFTY < beta <= minEval
    ensures var o := MinLoop(t, i, -INFTY, beta, minEval, best, bestScore);
            var ev := MinEvals(t, i, -INFTY, beta);
            match ArgMinFrom(ev, minEval)
            case None => o == Outcome(best, minEval)
            case Some(j) => i + j < |t.branches| && o == Outcome(Some(t.branches[i + j].move), ev[j])
    decreases |t.branches| - i
  {
    var ev := MinEvals(t, i, -INFTY, beta);
    var br := t.branches[i];
    SearchBounded(br.tree, INFTY - 1, 1, -INFTY, beta);
    var eval := Search(br.tree, 1, -INFTY, beta).value;
    var minEval' := if eval < minEval then eval else minEval;
    var best' := if eval < minEval then Some(br.move) else best;
    assert ev[0] == eval && ev[1..] == MinEvals(t, i + 1, -INFTY, Min(beta, eval));
    assert minEval' == Min(minEval, eval) && Min(beta, minEval') == Min(beta, eval);
    var rest := ArgMinFrom(ev[1..], minEval');
    assert ArgMinFrom(ev, minEval) ==
           if rest.Some? then Some(rest.value + 1) else if eval < minEval then Some(0) else None;
    assert MinLoop(t, i, -INFTY, beta, minEval, best, bestScore) ==
           MinLoop(t, i + 1, -INFTY, Min(beta, eval), minEval', best', minEval');
    ArgMinFromRange(ev, minEval);
    if i + 1 < |t.branches| {
      MinLoopChoice(t, i + 1, Min(beta, eval), minEval', best', minEval');
    } else {
      assert rest == None;
    }
  }

  /** Red's search with the full window: the first branch of largest value
      among the values the loop assigns, and that value. */
  lemma SearchRootRed(t: GameTree)
    requires t.Node? && Bounded(t, INFTY - 1)
    ensures var o := Search(t, 1, -INFTY, INFTY);
            var ev := MaxEvals(t, 0, -INFTY, INFTY);
            exists j :: 0 <= j < |ev| && o.best == Some(t.branches[j].move) && o.value == ev[j] &&
                        (forall k :: 0 <= k < |ev| ==> ev[k] <= ev[j]) &&
                        (forall k :: 0 <= k < j ==> ev[k] < ev[j])
  {
    var ev := MaxEvals(t, 0, -INFTY, INFTY);
    MaxLoopChoice(t, 0, -INFTY, -INFTY, None, 0);
    SearchBounded(t.branches[0].tree, INFTY - 1, -1, -INFTY, INFTY);
    assert ev[0] > -INFTY;
    ArgMaxFromSpec(ev, -INFTY);
    var j := ArgMaxFrom(ev, -INFTY).value;
    assert j < |ev|;
  }

  /** Blue's search with the full window: the first branch of smallest
      value, and that value. */
  lemma SearchRootBlue(t: GameTree)
    requires t.Node? && Bounded(t, INFTY - 1)
    ensures var o := Search(t, -1, -INFTY, INFTY);
            var ev := MinEvals(t, 0, -INFTY, INFTY);
            exists j :: 0 <= j < |ev| && o.best == Some(t.branches[j].move) && o.value == ev[j] &&
                        (forall k :: 0 <= k < |ev| ==> ev[k] >= ev[j]) &&
                        (forall k :: 0 <= k < j ==> ev[k] > ev[j])
  {
    var ev := MinEvals(t, 0, -INFTY, INFTY);
    MinLoopChoice(t, 0, INFTY, INFTY, None, 0);
    SearchBounded(t.branches[0].tree, INFTY - 1, 1, -INFTY, INFTY);
    assert ev[0] < INFTY;
    ArgMinFromSpec(ev, INFTY);
    var j := ArgMinFrom(ev, INFTY).value;
    assert j < |ev|;
  }

  /** findMove for red, from a non-final position with matching counters:
      the move returned is the first of largest value among the values the
      search assigns the move list, and the value returned is that move's. */
  lemma MinMaxRootRed(p: Position, depth: nat)
    requires WellFormed(p) && CountsMatch(p) && 0 < depth <= MAX_DEPTH && Winner(p).None?
    ensures var o := MinMax(p, depth, 1, -INFTY, INFTY);
            var ev := MaxEvals(Expand(p, depth), 0, -INFTY, INFTY);
            exists j :: 0 <= j < |MoveList(p)| && o.best == Some(MoveList(p)[j]) && o.value == ev[j] &&
                        (forall k :: 0 <= k < |ev| ==> ev[k] <= ev[j]) &&
                        (forall k :: 0 <= k < j ==> ev[k] < ev[j])
  {
    var t := Expand(p, depth);
    ExpandNode(p, depth);
    ExpandBounded(p, depth);
    BoundedMono(t, WINNING_VALUE + depth, INFTY - 1);
    SearchRootRed(t);
  }

  /** findMove for blue: the first move of smallest value, and its value. */
  lemma MinMaxRootBlue(p: Position, depth: nat)
    requires WellFormed(p) && CountsMatch(p) && 0 < depth <= MAX_DEPTH && Winner(p).None?
    ensures var o := MinMax(p, depth, -1, -INFTY, INFTY);
            var ev := MinEvals(Expand(p, depth), 0, -INFTY, INFTY);
            exists j :: 0 <= j < |MoveList(p)| && o.best == Some(MoveList(p)[j]) && o.value == ev[j] &&
                        (forall k :: 0 <= k < |ev| ==> ev[k] >= ev[j]) &&
                        (forall k :: 0 <= k < j ==> ev[k] > ev[j])
  {
    var t := Expand(p, depth);
    ExpandNode(p, depth);
    ExpandBounded(p, depth);
    BoundedMono(t, WINNING_VALUE + depth, INFTY - 1);
    SearchRootBlue(t);
  }
}
