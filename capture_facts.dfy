/** What the capture loop of makeMove does to the grid and to the tallies. */
module CaptureFacts {
  import opened Optional
  import opened Pieces
  import opened Squares
  import opened Grids
  import opened Rules

  /** The squares the capture loop has visited after n steps. */
  function Visited(to: int, n: nat): set<int> {
    set i | 0 <= i < n :: CaptureSquare(to, i)
  }

  /** The nine squares around `to` are visited once each, in the loop's order. */
  lemma CaptureSquaresDistinct(to: int, i: nat, j: nat)
    requires i < 9 && j < 9 && i != j
    ensures CaptureSquare(to, i) != CaptureSquare(to, j)
  {
  }

  /** After n steps a square has turned to the mover exactly when it has been
      visited and held the opponent; every other square is unchanged. */
  lemma {:induction false} CaptureStepsAt(g: Grid, to: int, mover: PieceColor, n: nat, k: int)
    requires |g| == SIZE && Playable(to) && IsPlayer(mover) && n <= 9 && 0 <= k < SIZE
    ensures CaptureSteps(g, to, mover, n).0[k] ==
              if k in Visited(to, n) && g[k] == Opposite(mover) then mover else g[k]
  {
    if n > 0 {
      CaptureStepsAt(g, to, mover, n - 1, k);
      var sq := CaptureSquare(to, n - 1);
      assert Visited(to, n) == Visited(to, n - 1) + {sq};
      if k == sq {
        forall i | 0 <= i < n - 1 ensures CaptureSquare(to, i) != sq {
          CaptureSquaresDistinct(to, i, n - 1);
        }
        assert sq !in Visited(to, n - 1);
        PlayableRange(to);
        CaptureStepsAt(g, to, mover, n - 1, sq);
      }
    }
  }

  /** Each capture moves one square from the opponent's tally to the mover's. */
  lemma {:induction false} CaptureStepsCounts(g: Grid, to: int, mover: PieceColor, n: nat)
    requires |g| == SIZE && Playable(to) && IsPlayer(mover) && n <= 9
    ensures var res := CaptureSteps(g, to, mover, n);
            Count(res.0, mover) == Count(g, mover) + |res.1| &&
            Count(res.0, Opposite(mover)) == Count(g, Opposite(mover)) - |res.1|
  {
    if n > 0 {
      CaptureStepsCounts(g, to, mover, n - 1);
      var prev := CaptureSteps(g, to, mover, n - 1);
      var sq := CaptureSquare(to, n - 1);
      PlayableRange(to);
      if prev.0[sq] == Opposite(mover) {
        CountUpdate(prev.0, sq, mover, mover);
        CountUpdate(prev.0, sq, mover, Opposite(mover));
      }
    }
  }

  /** Pushing the captured squares with the opponent as their previous
      contents keeps the undo stacks well formed. */
  lemma PushCapturesWf(g: Grid, to: int, mover: PieceColor, n: nat,
                       base: seq<int>, basePcs: seq<Option<PieceColor>>)
    requires BorderBlocked(g) && Playable(to) && IsPlayer(mover) && n <= 9
    requires UndoWf(base, basePcs) && |base| > 0
    ensures var res := CaptureSteps(g, to, mover, n);
            UndoWf(base + res.1, basePcs + Repeat(Some(Opposite(mover)), |res.1|))
  {
    var res := CaptureSteps(g, to, mover, n);
    CaptureStepsShape(g, to, mover, n);
    var pcs := basePcs + Repeat(Some(Opposite(mover)), |res.1|);
    forall k | 0 <= k < |base + res.1|
      ensures ((base + res.1)[k] == SENTINEL <==> pcs[k].None?) &&
              ((base + res.1)[k] != SENTINEL ==> Playable((base + res.1)[k]) && pcs[k].value != Blocked)
    {
      if k >= |base| {
        var sq := res.1[k - |base|];
        assert (base + res.1)[k] == sq;
        assert g[sq] == Opposite(mover);
      }
    }
  }

  /** One step of Unwind: a non-sentinel top entry is written back and popped. */
  lemma UnwindTop(g: Grid, sqs: seq<int>, pcs: seq<Option<PieceColor>>, sq: int, pc: PieceColor)
    requires |g| == SIZE && UndoWf(sqs + [sq], pcs + [Some(pc)]) && sq != SENTINEL && |sqs| > 0
    ensures UndoWf(sqs, pcs)
    ensures Unwind(g, sqs + [sq], pcs + [Some(pc)]) == Unwind(g[sq := pc], sqs, pcs)
  {
    assert (sqs + [sq])[..|sqs|] == sqs;
    assert (pcs + [Some(pc)])[..|pcs|] == pcs;
    assert forall k :: 0 <= k < |sqs| ==> sqs[k] == (sqs + [sq])[k] && pcs[k] == (pcs + [Some(pc)])[k];
  }

  /** Undoing one capture: popping a square that the mover took from the
      opponent writes the opponent back. */
  lemma UnwindOneCapture(g: Grid, sq: int, mover: PieceColor, opp: PieceColor,
                         sqs: seq<int>, pcs: seq<Option<PieceColor>>)
    requires |g| == SIZE && 0 <= sq < SIZE && g[sq] == opp && sq != SENTINEL && |sqs| > 0
    requires UndoWf(sqs + [sq], pcs + [Some(opp)])
    ensures UndoWf(sqs, pcs)
    ensures Unwind(g[sq := mover], sqs + [sq], pcs + [Some(opp)]) == Unwind(g, sqs, pcs)
  {
    UnwindTop(g[sq := mover], sqs, pcs, sq, opp);
    assert g[sq := mover][sq := opp] == g;
  }

  /** One more capture on top of an undo log that already unwinds to `target`. */
  lemma UnwindCaptureStep(g: Grid, caps: seq<int>, sq: int, mover: PieceColor,
                          base: seq<int>, basePcs: seq<Option<PieceColor>>,
                          target: (Grid, seq<int>, seq<Option<PieceColor>>))
    requires |g| == SIZE && IsPlayer(mover) && 0 <= sq < SIZE && g[sq] == Opposite(mover) && |base| > 0
    requires UndoWf(base + (caps + [sq]), basePcs + Repeat(Some(Opposite(mover)), |caps| + 1))
    requires UndoWf(base + caps, basePcs + Repeat(Some(Opposite(mover)), |caps|))
    requires Unwind(g, base + caps, basePcs + Repeat(Some(Opposite(mover)), |caps|)) == target
    ensures Unwind(g[sq := mover], base + (caps + [sq]),
                   basePcs + Repeat(Some(Opposite(mover)), |caps + [sq]|)) == target
  {
    var opp := Opposite(mover);
    var prevPcs := basePcs + Repeat(Some(opp), |caps|);
    assert base + (caps + [sq]) == (base + caps) + [sq];
    assert basePcs + Repeat(Some(opp), |caps| + 1) == prevPcs + [Some(opp)];
    UnwindOneCapture(g, sq, mover, opp, base + caps, prevPcs);
  }

  /** Popping the captured squares of the undo log writes the opponent back
      into each of them, which reverses the capture loop. */
  lemma {:induction false} UnwindCaptures(g: Grid, to: int, mover: PieceColor, n: nat,
                                          base: seq<int>, basePcs: seq<Option<PieceColor>>)
    requires BorderBlocked(g) && Playable(to) && IsPlayer(mover) && n <= 9
    requires UndoWf(base, basePcs) && |base| > 0
    ensures var res := CaptureSteps(g, to, mover, n);
            var pcs := basePcs + Repeat(Some(Opposite(mover)), |res.1|);
            UndoWf(base + res.1, pcs) &&
            Unwind(res.0, base + res.1, pcs) == Unwind(g, base, basePcs)
  {
    PushCapturesWf(g, to, mover, n, base, basePcs);
    if n == 0 {
      assert base + [] == base && basePcs + [] == basePcs;
    } else {
      UnwindCaptures(g, to, mover, n - 1, base, basePcs);
      PushCapturesWf(g, to, mover, n - 1, base, basePcs);
      var prev := CaptureSteps(g, to, mover, n - 1);
      var sq := CaptureSquare(to, n - 1);
      PlayableRange(to);
      if prev.0[sq] == Opposite(mover) {
        UnwindCaptureStep(prev.0, prev.1, sq, mover, base, basePcs, Unwind(g, base, basePcs));
      }
    }
  }

  /** One more step of the capture loop, unfolded. */
  lemma CaptureStepsNext(g: Grid, to: int, mover: PieceColor, n: nat)
    requires |g| == SIZE && Playable(to) && IsPlayer(mover) && n < 9
    ensures var prev := CaptureSteps(g, to, mover, n);
            var sq := CaptureSquare(to, n);
            0 <= sq < SIZE &&
            CaptureSteps(g, to, mover, n + 1) ==
              if prev.0[sq] == Opposite(mover) then (prev.0[sq := mover], prev.1 + [sq]) else prev
  {
    PlayableRange(to);
  }

  /** The square visited at step 3a + b lies a - 1 columns and b - 1 rows
      from `to`. */
  lemma CaptureSquareAt(to: int, a: int, b: int)
    requires 0 <= a < 3 && 0 <= b < 3
    ensures CaptureSquare(to, 3 * a + b) == Neighbor(to, a - 1, b - 1)
  {
  }

  /** The state of the capture loop after its first n steps from grid g0:
      grid g, undo stacks sqs and pcs grown from sqs0 and pcs0, and `added`
      pieces captured. */
  ghost predicate CaptureState(g0: Grid, to: int, mover: PieceColor, n: nat,
                               sqs0: seq<int>, pcs0: seq<Option<PieceColor>>,
                               g: Grid, sqs: seq<int>, pcs: seq<Option<PieceColor>>, added: int)
    requires |g0| == SIZE && Playable(to) && IsPlayer(mover) && n <= 9
  {
    var res := CaptureSteps(g0, to, mover, n);
    g == res.0 && added == |res.1| && sqs == sqs0 + res.1 &&
    pcs == pcs0 + Repeat(Some(Opposite(mover)), added)
  }

  /** One step of the capture loop, at the square a - 1 columns and b - 1
      rows from `to`, keeps CaptureState. */
  lemma CaptureStateNext(g0: Grid, to: int, mover: PieceColor, a: int, b: int,
                         sqs0: seq<int>, pcs0: seq<Option<PieceColor>>,
                         g: Grid, sqs: seq<int>, pcs: seq<Option<PieceColor>>, added: int)
    requires |g0| == SIZE && Playable(to) && IsPlayer(mover) && 0 <= a < 3 && 0 <= b < 3
    requires CaptureState(g0, to, mover, 3 * a + b, sqs0, pcs0, g, sqs, pcs, added)
    ensures var n := 3 * a + b;
            var j := Neighbor(to, a - 1, b - 1);
            0 <= j < SIZE &&
            if g[j] == Opposite(mover) then
              CaptureState(g0, to, mover, n + 1, sqs0, pcs0, g[j := mover], sqs + [j],
                           pcs + [Some(Opposite(mover))], added + 1)
            else
              CaptureState(g0, to, mover, n + 1, sqs0, pcs0, g, sqs, pcs, added)
  {
    var n := 3 * a + b;
    CaptureSquareAt(to, a, b);
    CaptureStepsNext(g0, to, mover, n);
    var res := CaptureSteps(g0, to, mover, n);
    var j := CaptureSquare(to, n);
    if g[j] == Opposite(mover) {
      assert sqs0 + (res.1 + [j]) == sqs + [j];
      assert Repeat(Some(Opposite(mover)), added + 1) == Repeat(Some(Opposite(mover)), added) + [Some(Opposite(mover))];
      assert pcs0 + Repeat(Some(Opposite(mover)), added + 1) == pcs + [Some(Opposite(mover))];
    }
  }
}
