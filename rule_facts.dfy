/** Properties of the rules: what a move does to the grid, the counters and
    the undo log; the starting layout; blocks; the winner. */
module RuleFacts {
  import opened Optional
  import opened Pieces
  import opened Squares
  import opened Moves
  import opened Grids
  import opened Rules
  import opened CaptureFacts

  /** The eight squares around `to`. */
  predicate Adjacent(to: int, k: int) {
    k != to && k in Visited(to, 9)
  }

  /** Grid effect of an extend or a jump: the destination becomes the mover,
      a jump vacates its source, exactly the opponent's pieces among the
      eight neighbours of the destination become the mover, and no other
      square changes. */
  lemma ApplyGridAt(p: Position, m: Move, k: int)
    requires WellFormed(p) && m.Mv? && Legal(p, m) && 0 <= k < SIZE
    ensures Apply(p, m).grid[k] ==
              if k == ToIndex(m) then p.mover
              else if IsJump(m) && k == FromIndex(m) then Empty
              else if Adjacent(ToIndex(m), k) && p.grid[k] == Opposite(p.mover) then p.mover
              else p.grid[k]
  {
    var to := ToIndex(m);
    var g1 := Placed(p, m);
    CaptureStepsAt(g1, to, p.mover, 9, k);
    assert to == CaptureSquare(to, 4);
    assert to in Visited(to, 9);
  }

  /** makeMove keeps the counters equal to the grid's tallies: an extend adds
      one piece plus the captures to the mover, a jump only the captures,
      and the opponent loses the captures. */
  lemma ApplyCounts(p: Position, m: Move)
    requires WellFormed(p) && Legal(p, m) && CountsMatch(p)
    ensures CountsMatch(Apply(p, m))
  {
    if m.Mv? {
      var to, from := ToIndex(m), FromIndex(m);
      var g := p.grid;
      var opp := Opposite(p.mover);
      var g1 := Placed(p, m);
      if IsExtend(m) {
        CountUpdate(g, to, p.mover, p.mover);
        CountUpdate(g, to, p.mover, opp);
      } else {
        var g0 := g[from := Empty];
        CountUpdate(g, from, Empty, p.mover);
        CountUpdate(g, from, Empty, opp);
        CountUpdate(g0, to, p.mover, p.mover);
        CountUpdate(g0, to, p.mover, opp);
      }
      CaptureStepsCounts(g1, to, p.mover, 9);
    }
  }

  /** The three entries every non-pass move pushes first keep the stacks well formed. */
  lemma PushMoveWf(sqs: seq<int>, pcs: seq<Option<PieceColor>>, from: int, to: int, mover: PieceColor)
    requires UndoWf(sqs, pcs) && Playable(from) && Playable(to) && IsPlayer(mover)
    ensures UndoWf(sqs + [SENTINEL, from, to], pcs + [None, Some(mover), Some(Empty)])
  {
    var base := sqs + [SENTINEL, from, to];
    var basePcs := pcs + [None, Some(mover), Some(Empty)];
    forall k | 0 <= k < |base|
      ensures (base[k] == SENTINEL <==> basePcs[k].None?) &&
              (base[k] != SENTINEL ==> Playable(base[k]) && basePcs[k].value != Blocked)
    {
      if k < |sqs| {
        assert base[k] == sqs[k] && basePcs[k] == pcs[k];
      }
    }
  }

  /** Popping the destination, the source and the sentinel. */
  lemma UnwindMoveEntries(g: Grid, sqs: seq<int>, pcs: seq<Option<PieceColor>>,
                          from: int, to: int, mover: PieceColor)
    requires |g| == SIZE && UndoWf(sqs, pcs) && Playable(from) && Playable(to) && IsPlayer(mover)
    ensures UndoWf(sqs + [SENTINEL, from, to], pcs + [None, Some(mover), Some(Empty)])
    ensures Unwind(g, sqs + [SENTINEL, from, to], pcs + [None, Some(mover), Some(Empty)])
            == (g[to := Empty][from := mover], sqs, pcs)
  {
    var s3, p3 := sqs + [SENTINEL, from, to], pcs + [None, Some(mover), Some(Empty)];
    PushMoveWf(sqs, pcs, from, to, mover);
    var s2, p2 := s3[..|sqs| + 2], p3[..|sqs| + 2];
    var s1, p1 := s3[..|sqs| + 1], p3[..|sqs| + 1];
    UndoWfPrefix(s3, p3, |sqs| + 2);
    UndoWfPrefix(s3, p3, |sqs| + 1);
    assert s2 + [to] == s3 && p2 + [Some(Empty)] == p3;
    UnwindTop(g, s2, p2, to, Empty);
    assert s1 + [from] == s2 && p1 + [Some(mover)] == p2;
    UnwindTop(g[to := Empty], s1, p1, from, mover);
    assert s1[..|sqs|] == sqs && p1[..|sqs|] == pcs;
  }

  lemma PlacedBorder(p: Position, m: Move)
    requires WellFormed(p) && m.Mv?
    ensures BorderBlocked(Placed(p, m))
  {
    var g1 := Placed(p, m);
    IndexCoords(m.c0, m.r0);
    IndexCoords(m.c1, m.r1);
    forall sq | 0 <= sq < SIZE && !Playable(sq) ensures g1[sq] == Blocked {
      assert g1[sq] == p.grid[sq];
    }
  }

  lemma ConcatAssoc<T>(a: seq<T>, b: seq<T>, c: seq<T>)
    ensures a + (b + c) == (a + b) + c
  {
  }

  /** Writing back the destination's and the source's old contents undoes
      the placement of a legal move. */
  lemma PlacedUndone(p: Position, m: Move)
    requires WellFormed(p) && m.Mv? && Legal(p, m)
    ensures Placed(p, m)[ToIndex(m) := Empty][FromIndex(m) := p.mover] == p.grid
  {
  }

  /** makeMove pushes its undo entries in two steps: the opening three, then
      the captures. */
  lemma PushedConcat(p: Position, m: Move, sqs: seq<int>, pcs: seq<Option<PieceColor>>)
    requires WellFormed(p) && m.Mv?
    ensures sqs + PushedSquares(p, m) == (sqs + [SENTINEL, FromIndex(m), ToIndex(m)]) + Captures(p, m).1
    ensures pcs + PushedPieces(p, m) ==
            (pcs + [None, Some(p.mover), Some(Empty)]) + Repeat(Some(Opposite(p.mover)), |Captures(p, m).1|)
  {
    ConcatAssoc(sqs, [SENTINEL, FromIndex(m), ToIndex(m)], Captures(p, m).1);
    ConcatAssoc(pcs, [None, Some(p.mover), Some(Empty)], Repeat(Some(Opposite(p.mover)), |Captures(p, m).1|));
  }

  /** Undo right after makeMove: unwinding the entries makeMove pushed gives
      back the grid and the stacks as they were before the move. */
  lemma UndoAfterMove(p: Position, m: Move, sqs: seq<int>, pcs: seq<Option<PieceColor>>)
    requires WellFormed(p) && m.Mv? && Legal(p, m) && UndoWf(sqs, pcs)
    ensures UndoWf(sqs + PushedSquares(p, m), pcs + PushedPieces(p, m))
    ensures Unwind(Apply(p, m).grid, sqs + PushedSquares(p, m), pcs + PushedPieces(p, m))
            == (p.grid, sqs, pcs)
  {
    var to, from := ToIndex(m), FromIndex(m);
    var g := p.grid;
    var g1 := Placed(p, m);
    var base := sqs + [SENTINEL, from, to];
    var basePcs := pcs + [None, Some(p.mover), Some(Empty)];
    UnwindMoveEntries(g1, sqs, pcs, from, to, p.mover);
    PlacedBorder(p, m);
    UnwindCaptures(g1, to, p.mover, 9, base, basePcs);
    var caps := Captures(p, m).1;
    ConcatAssoc(sqs, [SENTINEL, from, to], caps);
    ConcatAssoc(pcs, [None, Some(p.mover), Some(Empty)], Repeat(Some(Opposite(p.mover)), |caps|));
    PlacedUndone(p, m);
  }

  // ---------------------------------------------------------------------
  // Starting layout

  /** clear() blocks exactly the border, puts RED on a7 and g1, BLUE on a1
      and g7, and leaves every other playable square EMPTY. */
  lemma InitialCellAt(k: int)
    requires 0 <= k < SIZE
    ensures InitialCell(k) == Blocked <==> !Playable(k)
    ensures InitialCell(k) == Red <==> k == Index(0, 6) || k == Index(6, 0)
    ensures InitialCell(k) == Blue <==> k == Index(0, 0) || k == Index(6, 6)
  {
  }

  lemma InitialPositionFacts()
    ensures WellFormed(InitialPosition()) && CountsMatch(InitialPosition())
    ensures Holding(InitialGrid(), Red) == {Index(0, 6), Index(6, 0)}
    ensures Holding(InitialGrid(), Blue) == {Index(0, 0), Index(6, 6)}
    ensures forall k :: Playable(k) && k !in {Index(0, 6), Index(6, 0), Index(0, 0), Index(6, 6)} ==>
              InitialGrid()[k] == Empty
  {
    var g := InitialGrid();
    forall k | 0 <= k < SIZE
      ensures (g[k] == Blocked <==> !Playable(k))
      ensures (g[k] == Red <==> k == Index(0, 6) || k == Index(6, 0))
      ensures (g[k] == Blue <==> k == Index(0, 0) || k == Index(6, 6))
    {
      InitialCellAt(k);
    }
    assert Holding(g, Red) == {Index(0, 6), Index(6, 0)};
    assert Holding(g, Blue) == {Index(0, 0), Index(6, 6)};
  }

  // ---------------------------------------------------------------------
  // Winner

  /** The verdict does not depend on the cached winner when the game is over,
      so asking twice gives the same answer. */
  lemma WinnerIdempotent(p: Position)
    requires |p.grid| == SIZE
    ensures Winner(p.(winner := Winner(p))) == Winner(p)
  {
  }

  /** When the game is over the verdict is the colour with strictly more
      pieces, EMPTY on a tie; the cached value is ignored. */
  lemma WinnerWhenOver(p: Position)
    requires |p.grid| == SIZE && GameOver(p)
    ensures Winner(p) == Some(Red) <==> p.red > p.blue
    ensures Winner(p) == Some(Blue) <==> p.blue > p.red
    ensures Winner(p) == Some(Empty) <==> p.red == p.blue
  {
  }

  // ---------------------------------------------------------------------
  // Blocks

  /** The square itself is one of its reflections, and the reflections of a
      square are 1, 2 or 4 distinct squares: one for the centre d4, two on
      the middle row or column, four elsewhere. */
  lemma BlockSquaresShape(c: int, r: int)
    requires InExtended(c, r)
    ensures Index(c, r) in BlockSquares(c, r)
    ensures |BlockSquares(c, r)| == if c == 3 && r == 3 then 1 else if c == 3 || r == 3 then 2 else 4
  {
    var colOff, rowOff := Abs(c - 3), Abs(3 - r);
    var center := Index(3, 3);
    var a := center - EXTENDED_SIDE * rowOff + colOff;
    var b := center - EXTENDED_SIDE * rowOff - colOff;
    var d := center + EXTENDED_SIDE * rowOff + colOff;
    var e := center + EXTENDED_SIDE * rowOff - colOff;
    assert BlockSquares(c, r) == {a, b, d, e};
    if colOff == 0 && rowOff == 0 {
      assert {a, b, d, e} == {a};
    } else if colOff == 0 {
      assert {a, b, d, e} == {a, d};
    } else if rowOff == 0 {
      assert {a, b, d, e} == {a, b};
    }
  }

  /** Reflections of a playable square are playable. */
  lemma BlockSquaresPlayable(c: int, r: int)
    requires OnBoard(c, r)
    ensures forall sq :: sq in BlockSquares(c, r) ==> Playable(sq)
  {
    var colOff, rowOff := Abs(c - 3), Abs(3 - r);
    IndexCoords(3 + colOff, 3 + rowOff);
    IndexCoords(3 - colOff, 3 + rowOff);
    IndexCoords(3 + colOff, 3 - rowOff);
    IndexCoords(3 - colOff, 3 - rowOff);
    assert BlockSquares(c, r) == {Index(3 + colOff, 3 - rowOff), Index(3 - colOff, 3 - rowOff),
                                  Index(3 + colOff, 3 + rowOff), Index(3 - colOff, 3 + rowOff)};
  }

  /** Blocks only go on EMPTY squares, so the piece tallies do not change. */
  lemma BlocksKeepCounts(g: Grid, noMoves: bool, c: int, r: int)
    requires |g| == SIZE && InExtended(c, r) && LegalBlock(g, noMoves, c, r)
    ensures Count(WithBlocks(g, c, r), Red) == Count(g, Red)
    ensures Count(WithBlocks(g, c, r), Blue) == Count(g, Blue)
  {
    assert Holding(WithBlocks(g, c, r), Red) == Holding(g, Red);
    assert Holding(WithBlocks(g, c, r), Blue) == Holding(g, Blue);
  }

  /** setBlock writes BLOCKED into the four reflections one after another
      (some of them coincide); the border stays blocked. */
  lemma WithBlocksWrites(g: Grid, c: int, r: int)
    requires |g| == SIZE && InExtended(c, r)
    ensures var colOff, rowOff, center := Abs(c - 3), Abs(3 - r), Index(3, 3);
            var a, b := center - EXTENDED_SIDE * rowOff + colOff, center - EXTENDED_SIDE * rowOff - colOff;
            var d, e := center + EXTENDED_SIDE * rowOff + colOff, center + EXTENDED_SIDE * rowOff - colOff;
            0 <= a < SIZE && 0 <= b < SIZE && 0 <= d < SIZE && 0 <= e < SIZE &&
            WithBlocks(g, c, r) == g[a := Blocked][b := Blocked][d := Blocked][e := Blocked]
    ensures BorderBlocked(g) ==> BorderBlocked(WithBlocks(g, c, r))
  {
    BlockSquaresInRange(c, r);
  }

  // ---------------------------------------------------------------------
  // The pop loop of undo

  /** The state of undo's pop loop: grid g and stacks sqs and pcs, with the
      popped entry (index, piece) in hand, still unwind to what the stacks
      g0, sqs0 and pcs0 unwind to. */
  ghost predicate Restoring(g0: Grid, sqs0: seq<int>, pcs0: seq<Option<PieceColor>>,
                            g: Grid, sqs: seq<int>, pcs: seq<Option<PieceColor>>,
                            index: int, piece: Option<PieceColor>)
    requires |g0| == SIZE && UndoWf(sqs0, pcs0) && |sqs0| > 0
  {
    BorderBlocked(g) && UndoWf(sqs + [index], pcs + [piece]) &&
    Unwind(g, sqs + [index], pcs + [piece]) == Unwind(g0, sqs0, pcs0)
  }

  /** Popping the top entry starts the loop. */
  lemma RestoreStart(g0: Grid, sqs0: seq<int>, pcs0: seq<Option<PieceColor>>)
    requires BorderBlocked(g0) && UndoWf(sqs0, pcs0) && |sqs0| > 0
    ensures var n := |sqs0| - 1;
            Restoring(g0, sqs0, pcs0, g0, sqs0[..n], pcs0[..n], sqs0[n], pcs0[n])
  {
    var n := |sqs0| - 1;
    assert sqs0[..n] + [sqs0[n]] == sqs0;
    assert pcs0[..n] + [pcs0[n]] == pcs0;
  }

  /** Writing back an entry that is not a sentinel and popping the next one
      keeps the loop state. */
  lemma RestoreStep(g0: Grid, sqs0: seq<int>, pcs0: seq<Option<PieceColor>>,
                    g: Grid, sqs: seq<int>, pcs: seq<Option<PieceColor>>,
                    index: int, piece: Option<PieceColor>)
    requires |g0| == SIZE && UndoWf(sqs0, pcs0) && |sqs0| > 0
    requires Restoring(g0, sqs0, pcs0, g, sqs, pcs, index, piece) && index != SENTINEL
    ensures |sqs| > 0 && |pcs| == |sqs| && 0 <= index < SIZE && piece.Some?
    ensures var n := |sqs| - 1;
            Restoring(g0, sqs0, pcs0, g[index := piece.value], sqs[..n], pcs[..n], sqs[n], pcs[n])
  {
    assert (sqs + [index])[0] == SENTINEL;
    assert (sqs + [index])[|sqs|] == index && (pcs + [piece])[|sqs|] == piece;
    UnwindTop(g, sqs, pcs, index, piece.value);
    var n := |sqs| - 1;
    assert sqs[..n] + [sqs[n]] == sqs;
    assert pcs[..n] + [pcs[n]] == pcs;
  }

  /** Once the sentinel is in hand the loop has computed Unwind. */
  lemma RestoreDone(g0: Grid, sqs0: seq<int>, pcs0: seq<Option<PieceColor>>,
                    g: Grid, sqs: seq<int>, pcs: seq<Option<PieceColor>>,
                    index: int, piece: Option<PieceColor>)
    requires |g0| == SIZE && UndoWf(sqs0, pcs0) && |sqs0| > 0
    requires Restoring(g0, sqs0, pcs0, g, sqs, pcs, index, piece) && index == SENTINEL
    ensures (g, sqs, pcs) == Unwind(g0, sqs0, pcs0) && BorderBlocked(g) && UndoWf(sqs, pcs)
  {
    assert (sqs + [index])[..|sqs|] == sqs;
    assert (pcs + [piece])[..|pcs|] == pcs;
  }
}
