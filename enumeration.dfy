/** AI.getAllMoves as a value: the candidate moves of a position, listed in
    the order of the four nested loops that build them (source column a..g,
    source row 1..7, row offset -2..2, column offset -2..2). */
module Enumeration {
  import opened Optional
  import opened Pieces
  import opened Squares
  import opened Moves
  import opened Grids
  import opened Rules

  /** The innermost loop body: the move from (c, r) to (c + dc, r + dr) when
      the square at that offset is EMPTY and lies on the board. */
  function Target(g: Grid, c: int, r: int, dr: int, dc: int): seq<Move>
    requires |g| == SIZE && OnBoard(c, r) && -2 <= dr <= 2 && -2 <= dc <= 2
  {
    if g[Neighbor(Index(c, r), dc, dr)] == Empty && OnBoard(c + dc, r + dr) then
      [Mv(c, r, c + dc, r + dr)]
    else []
  }

  /** The first k column offsets (-2 up to k - 3) for row offset dr. */
  function ColOffsets(g: Grid, c: int, r: int, dr: int, k: nat): seq<Move>
    requires |g| == SIZE && OnBoard(c, r) && -2 <= dr <= 2 && k <= 5
  {
    if k == 0 then [] else ColOffsets(g, c, r, dr, k - 1) + Target(g, c, r, dr, k - 3)
  }

  /** The first k row offsets (-2 up to k - 3), each with all column offsets. */
  function RowOffsets(g: Grid, c: int, r: int, k: nat): seq<Move>
    requires |g| == SIZE && OnBoard(c, r) && k <= 5
  {
    if k == 0 then [] else RowOffsets(g, c, r, k - 1) + ColOffsets(g, c, r, k - 3, 5)
  }

  /** The moves out of (c, r): none unless it holds the mover's piece. */
  function SourceMoves(g: Grid, who: PieceColor, c: int, r: int): seq<Move>
    requires |g| == SIZE && OnBoard(c, r)
  {
    if g[Index(c, r)] == who then RowOffsets(g, c, r, 5) else []
  }

  /** The moves out of the first k rows of column c. */
  function ColumnMoves(g: Grid, who: PieceColor, c: int, k: nat): seq<Move>
    requires |g| == SIZE && 0 <= c < SIDE && k <= SIDE
  {
    if k == 0 then [] else ColumnMoves(g, who, c, k - 1) + SourceMoves(g, who, c, k - 1)
  }

  /** The moves out of the first k columns. */
  function Candidates(g: Grid, who: PieceColor, k: nat): seq<Move>
    requires |g| == SIZE && k <= SIDE
  {
    if k == 0 then [] else Candidates(g, who, k - 1) + ColumnMoves(g, who, k - 1, SIDE)
  }

  /** Everything getAllMoves appends for position p. */
  function AllMoves(p: Position): seq<Move>
    requires |p.grid| == SIZE
  {
    Candidates(p.grid, p.mover, SIDE)
  }

  /** The list minMax searches: the candidates, or a lone pass when there
      are none. */
  function MoveList(p: Position): seq<Move>
    requires |p.grid| == SIZE
  {
    var ms := AllMoves(p);
    if ms == [] then [Pass] else ms
  }

  /** m1 comes before m2 in the enumeration order: by source column, then
      source row, then destination row (the row offset), then destination
      column (the column offset). */
  predicate Precedes(m1: MoveRep, m2: MoveRep)
    requires m1.Mv? && m2.Mv?
  {
    m1.c0 < m2.c0 || (m1.c0 == m2.c0 &&
      (m1.r0 < m2.r0 || (m1.r0 == m2.r0 &&
        (m1.r1 < m2.r1 || (m1.r1 == m2.r1 && m1.c1 < m2.c1)))))
  }

  /** Every entry is a move other than a pass, each strictly before the next. */
  predicate Sorted(ms: seq<MoveRep>) {
    (forall i :: 0 <= i < |ms| ==> ms[i].Mv?) &&
    (forall i, j :: 0 <= i < j < |ms| ==> ms[i].Mv? && ms[j].Mv? && Precedes(ms[i], ms[j]))
  }

  lemma SortedConcat(a: seq<MoveRep>, b: seq<MoveRep>)
    requires Sorted(a) && Sorted(b)
    requires forall x, y :: x in a && y in b ==> x.Mv? && y.Mv? && Precedes(x, y)
    ensures Sorted(a + b)
  {
    var ab := a + b;
    forall i | 0 <= i < |ab| ensures ab[i].Mv? {
      if i < |a| {
        assert ab[i] == a[i];
      } else {
        assert ab[i] == b[i - |a|];
      }
    }
    forall i, j | 0 <= i < j < |ab| ensures Precedes(ab[i], ab[j]) {
      if j < |a| {
        assert ab[i] == a[i] && ab[j] == a[j];
      } else if i < |a| {
        assert ab[i] == a[i] && ab[j] == b[j - |a|];
        assert a[i] in a && b[j - |a|] in b;
      } else {
        assert ab[i] == b[i - |a|] && ab[j] == b[j - |a|];
      }
    }
  }

  // ---------------------------------------------------------------------
  // Membership, level by level

  // Each level is proved for one move m by induction (the ...Member lemmas)
  // and then stated for all moves (the ...Members lemmas).

  lemma TargetMember(g: Grid, c: int, r: int, dr: int, dc: int, m: Move)
    requires |g| == SIZE && OnBoard(c, r) && -2 <= dr <= 2 && -2 <= dc <= 2
    ensures m in Target(g, c, r, dr, dc) <==>
            m.Mv? && m.c0 == c && m.r0 == r && m.r1 == r + dr && m.c1 == c + dc && g[ToIndex(m)] == Empty
  {
    assert Neighbor(Index(c, r), dc, dr) == Index(c + dc, r + dr);
  }

  lemma {:induction false} ColOffsetsMember(g: Grid, c: int, r: int, dr: int, k: nat, m: Move)
    requires |g| == SIZE && OnBoard(c, r) && -2 <= dr <= 2 && k <= 5
    ensures m in ColOffsets(g, c, r, dr, k) <==>
            m.Mv? && m.c0 == c && m.r0 == r && m.r1 == r + dr && m.c1 < c + k - 2 && g[ToIndex(m)] == Empty
  {
    if k > 0 {
      ColOffsetsMember(g, c, r, dr, k - 1, m);
      TargetMember(g, c, r, dr, k - 3, m);
    }
  }

  lemma ColOffsetsMembers(g: Grid, c: int, r: int, dr: int, k: nat)
    requires |g| == SIZE && OnBoard(c, r) && -2 <= dr <= 2 && k <= 5
    ensures forall m :: m in ColOffsets(g, c, r, dr, k) <==>
              m.Mv? && m.c0 == c && m.r0 == r && m.r1 == r + dr && m.c1 < c + k - 2 && g[ToIndex(m)] == Empty
  {
    forall m ensures m in ColOffsets(g, c, r, dr, k) <==>
        m.Mv? && m.c0 == c && m.r0 == r && m.r1 == r + dr && m.c1 < c + k - 2 && g[ToIndex(m)] == Empty
    {
      ColOffsetsMember(g, c, r, dr, k, m);
    }
  }

  lemma {:induction false} RowOffsetsMember(g: Grid, c: int, r: int, k: nat, m: Move)
    requires |g| == SIZE && OnBoard(c, r) && k <= 5
    ensures m in RowOffsets(g, c, r, k) <==>
            m.Mv? && m.c0 == c && m.r0 == r && m.r1 < r + k - 2 && g[ToIndex(m)] == Empty
  {
    if k > 0 {
      RowOffsetsMember(g, c, r, k - 1, m);
      ColOffsetsMember(g, c, r, k - 3, 5, m);
    }
  }

  lemma RowOffsetsMembers(g: Grid, c: int, r: int, k: nat)
    requires |g| == SIZE && OnBoard(c, r) && k <= 5
    ensures forall m :: m in RowOffsets(g, c, r, k) <==>
              m.Mv? && m.c0 == c && m.r0 == r && m.r1 < r + k - 2 && g[ToIndex(m)] == Empty
  {
    forall m ensures m in RowOffsets(g, c, r, k) <==>
        m.Mv? && m.c0 == c && m.r0 == r && m.r1 < r + k - 2 && g[ToIndex(m)] == Empty
    {
      RowOffsetsMember(g, c, r, k, m);
    }
  }

  lemma {:induction false} ColumnMovesMember(g: Grid, who: PieceColor, c: int, k: nat, m: Move)
    requires |g| == SIZE && 0 <= c < SIDE && k <= SIDE
    ensures m in ColumnMoves(g, who, c, k) <==>
            m.Mv? && m.c0 == c && m.r0 < k && g[FromIndex(m)] == who && g[ToIndex(m)] == Empty
  {
    if k > 0 {
      ColumnMovesMember(g, who, c, k - 1, m);
      SourceMovesMember(g, who, c, k - 1, m);
    }
  }


  lemma SourceMovesMember(g: Grid, who: PieceColor, c: int, r: int, m: Move)
    requires |g| == SIZE && OnBoard(c, r)
    ensures m in SourceMoves(g, who, c, r) <==>
            m.Mv? && m.c0 == c && m.r0 == r && g[FromIndex(m)] == who && g[ToIndex(m)] == Empty
  {
    RowOffsetsMember(g, c, r, 5, m);
    if m.Mv? && m.c0 == c && m.r0 == r {
      assert FromIndex(m) == Index(c, r);
    }
  }

  lemma ColumnMovesMembers(g: Grid, who: PieceColor, c: int, k: nat)
    requires |g| == SIZE && 0 <= c < SIDE && k <= SIDE
    ensures forall m :: m in ColumnMoves(g, who, c, k) <==>
              m.Mv? && m.c0 == c && m.r0 < k && g[FromIndex(m)] == who && g[ToIndex(m)] == Empty
  {
    forall m ensures m in ColumnMoves(g, who, c, k) <==>
        m.Mv? && m.c0 == c && m.r0 < k && g[FromIndex(m)] == who && g[ToIndex(m)] == Empty
    {
      ColumnMovesMember(g, who, c, k, m);
    }
  }

  /** A whole column: every row of the board is a source row. */
  lemma ColumnMember(g: Grid, who: PieceColor, c: int, m: Move)
    requires |g| == SIZE && 0 <= c < SIDE
    ensures m in ColumnMoves(g, who, c, SIDE) <==>
            m.Mv? && m.c0 == c && g[FromIndex(m)] == who && g[ToIndex(m)] == Empty
  {
    ColumnMovesMember(g, who, c, SIDE, m);
  }

  lemma {:induction false} CandidatesMember(g: Grid, who: PieceColor, k: nat, m: Move)
    requires |g| == SIZE && k <= SIDE
    ensures m in Candidates(g, who, k) <==>
            m.Mv? && m.c0 < k && g[FromIndex(m)] == who && g[ToIndex(m)] == Empty
  {
    if k > 0 {
      ColumnMember(g, who, k - 1, m);
      CandidatesMember(g, who, k - 1, m);
    }
  }

  lemma CandidatesMembers(g: Grid, who: PieceColor, k: nat)
    requires |g| == SIZE && k <= SIDE
    ensures forall m :: m in Candidates(g, who, k) <==>
              m.Mv? && m.c0 < k && g[FromIndex(m)] == who && g[ToIndex(m)] == Empty
  {
    forall m ensures m in Candidates(g, who, k) <==>
        m.Mv? && m.c0 < k && g[FromIndex(m)] == who && g[ToIndex(m)] == Empty
    {
      CandidatesMember(g, who, k, m);
    }
  }

  /** The candidates are exactly the legal moves other than a pass. */
  lemma AllMovesMembers(p: Position)
    requires |p.grid| == SIZE
    ensures forall m :: m in AllMoves(p) <==> m.Mv? && Legal(p, m)
  {
    CandidatesMembers(p.grid, p.mover, SIDE);
  }

  // ---------------------------------------------------------------------
  // Order, level by level: each part ends before the next begins

  // Appending a sorted run whose moves all follow those of a sorted list,
  // split on the destination row or the destination column.

  lemma SortedByTargetRow(a: seq<MoveRep>, b: seq<MoveRep>, c: int, r: int, r1: int)
    requires Sorted(a) && Sorted(b)
    requires forall x :: x in a ==> x.Mv? && x.c0 == c && x.r0 == r && x.r1 < r1
    requires forall y :: y in b ==> y.Mv? && y.c0 == c && y.r0 == r && y.r1 == r1
    ensures Sorted(a + b)
  {
    SortedConcat(a, b);
  }

  lemma SortedByTargetColumn(a: seq<MoveRep>, b: seq<MoveRep>, c: int, r: int, r1: int, c1: int)
    requires Sorted(a) && Sorted(b)
    requires forall x :: x in a ==> x.Mv? && x.c0 == c && x.r0 == r && x.r1 == r1 && x.c1 < c1
    requires forall y :: y in b ==> y.Mv? && y.c0 == c && y.r0 == r && y.r1 == r1 && y.c1 == c1
    ensures Sorted(a + b)
  {
    SortedConcat(a, b);
  }

  lemma {:induction false} ColOffsetsSorted(g: Grid, c: int, r: int, dr: int, k: nat)
    requires |g| == SIZE && OnBoard(c, r) && -2 <= dr <= 2 && k <= 5
    ensures Sorted(ColOffsets(g, c, r, dr, k))
  {
    if k > 0 {
      var front, last := ColOffsets(g, c, r, dr, k - 1), Target(g, c, r, dr, k - 3);
      ColOffsetsSorted(g, c, r, dr, k - 1);
      forall x | x in front ensures x.Mv? && x.c0 == c && x.r0 == r && x.r1 == r + dr && x.c1 < c + k - 3 {
        ColOffsetsMember(g, c, r, dr, k - 1, x);
      }
      forall y | y in last ensures y.Mv? && y.c0 == c && y.r0 == r && y.r1 == r + dr && y.c1 == c + k - 3 {
        TargetMember(g, c, r, dr, k - 3, y);
      }
      SortedByTargetColumn(front, last, c, r, r + dr, c + k - 3);
    }
  }

  lemma {:induction false} RowOffsetsSorted(g: Grid, c: int, r: int, k: nat)
    requires |g| == SIZE && OnBoard(c, r) && k <= 5
    ensures Sorted(RowOffsets(g, c, r, k))
  {
    if k > 0 {
      var front, last := RowOffsets(g, c, r, k - 1), ColOffsets(g, c, r, k - 3, 5);
      RowOffsetsSorted(g, c, r, k - 1);
      ColOffsetsSorted(g, c, r, k - 3, 5);
      forall x | x in front ensures x.Mv? && x.c0 == c && x.r0 == r && x.r1 < r + k - 3 {
        RowOffsetsMember(g, c, r, k - 1, x);
      }
      forall y | y in last ensures y.Mv? && y.c0 == c && y.r0 == r && y.r1 == r + k - 3 {
        ColOffsetsMember(g, c, r, k - 3, 5, y);
      }
      SortedByTargetRow(front, last, c, r, r + k - 3);
    }
  }

  lemma SourceMovesSorted(g: Grid, who: PieceColor, c: int, r: int)
    requires |g| == SIZE && OnBoard(c, r)
    ensures Sorted(SourceMoves(g, who, c, r))
  {
    RowOffsetsSorted(g, c, r, 5);
  }

  /** The moves out of rows below r of column c come before those out of (c, r). */
  lemma ColumnMovesBeforeSource(g: Grid, who: PieceColor, c: int, r: int)
    requires |g| == SIZE && OnBoard(c, r)
    ensures forall x, y :: x in ColumnMoves(g, who, c, r) && y in SourceMoves(g, who, c, r) ==>
              x.Mv? && y.Mv? && Precedes(x, y)
  {
    var front, last := ColumnMoves(g, who, c, r), SourceMoves(g, who, c, r);
    forall x | x in front ensures x.Mv? && x.c0 == c && x.r0 < r {
      ColumnMovesMember(g, who, c, r, x);
    }
    forall y | y in last ensures y.Mv? && y.c0 == c && y.r0 == r {
      SourceMovesMember(g, who, c, r, y);
    }
  }

  lemma {:induction false} ColumnMovesSorted(g: Grid, who: PieceColor, c: int, k: nat)
    requires |g| == SIZE && 0 <= c < SIDE && k <= SIDE
    ensures Sorted(ColumnMoves(g, who, c, k))
  {
    if k > 0 {
      var front, last := ColumnMoves(g, who, c, k - 1), SourceMoves(g, who, c, k - 1);
      ColumnMovesSorted(g, who, c, k - 1);
      SourceMovesSorted(g, who, c, k - 1);
      ColumnMovesBeforeSource(g, who, c, k - 1);
      SortedConcat(front, last);
    }
  }

  /** The moves out of columns below k come before those out of column k. */
  lemma CandidatesBeforeColumn(g: Grid, who: PieceColor, k: nat)
    requires |g| == SIZE && k < SIDE
    ensures forall x, y :: x in Candidates(g, who, k) && y in ColumnMoves(g, who, k, SIDE) ==>
              x.Mv? && y.Mv? && Precedes(x, y)
  {
    var front, last := Candidates(g, who, k), ColumnMoves(g, who, k, SIDE);
    forall x | x in front ensures x.Mv? && x.c0 < k {
      CandidatesMember(g, who, k, x);
    }
    forall y | y in last ensures y.Mv? && y.c0 == k {
      ColumnMovesMember(g, who, k, SIDE, y);
    }
  }

  lemma {:induction false} CandidatesSorted(g: Grid, who: PieceColor, k: nat)
    requires |g| == SIZE && k <= SIDE
    ensures Sorted(Candidates(g, who, k))
  {
    if k > 0 {
      var front, last := Candidates(g, who, k - 1), ColumnMoves(g, who, k - 1, SIDE);
      CandidatesSorted(g, who, k - 1);
      ColumnMovesSorted(g, who, k - 1, SIDE);
      CandidatesBeforeColumn(g, who, k - 1);
      SortedConcat(front, last);
    }
  }

  /** The candidates come in strictly increasing enumeration order, so each
      legal move appears once, and in the order of the loops. */
  lemma AllMovesSorted(p: Position)
    requires |p.grid| == SIZE
    ensures Sorted(AllMoves(p))
  {
    CandidatesSorted(p.grid, p.mover, SIDE);
  }

  // ---------------------------------------------------------------------
  // The pass fallback

  /** A piece of the mover with an EMPTY square in reach yields a candidate. */
  lemma RoomGivesMove(p: Position, sq: int, dc: int, dr: int)
    requires WellFormed(p) && 0 <= sq < SIZE && p.grid[sq] == p.mover
    requires -2 <= dc <= 2 && -2 <= dr <= 2 && 0 <= Neighbor(sq, dc, dr) < SIZE
    requires p.grid[Neighbor(sq, dc, dr)] == Empty
    ensures AllMoves(p) != []
  {
    assert Playable(sq);
    NeighborCoords(sq, dc, dr);
    var to := Neighbor(sq, dc, dr);
    assert Playable(to);
    PlayableRange(sq);
    var m: Move := Mv(Col(sq), Row(sq), Col(to), Row(to));
    assert Legal(p, m);
    AllMovesMembers(p);
  }

  /** A candidate shows a piece of the mover with an EMPTY square in reach. */
  lemma MoveGivesRoom(p: Position, m: Move)
    requires |p.grid| == SIZE && m in AllMoves(p)
    ensures CanMove(p.grid, p.mover)
  {
    AllMovesMembers(p);
    var from := FromIndex(m);
    IndexCoords(m.c0, m.r0);
    NeighborCoords(from, m.c1 - m.c0, m.r1 - m.r0);
    assert HasRoom(p.grid, p.mover, from);
  }

  /** There are no candidates exactly when the mover cannot move. */
  lemma AllMovesEmpty(p: Position)
    requires WellFormed(p)
    ensures AllMoves(p) == [] <==> !CanMove(p.grid, p.mover)
  {
    if CanMove(p.grid, p.mover) {
      var sq, dc, dr :| 0 <= sq < SIZE && HasRoom(p.grid, p.mover, sq) &&
                        -2 <= dc <= 2 && -2 <= dr <= 2 && 0 <= Neighbor(sq, dc, dr) < SIZE &&
                        p.grid[Neighbor(sq, dc, dr)] == Empty;
      RoomGivesMove(p, sq, dc, dr);
    }
    if AllMoves(p) != [] {
      MoveGivesRoom(p, AllMoves(p)[0]);
    }
  }

  /** Every move minMax tries is legal, and there is at least one. */
  lemma MoveListLegal(p: Position)
    requires WellFormed(p)
    ensures |MoveList(p)| > 0
    ensures forall m :: m in MoveList(p) ==> Legal(p, m)
  {
    AllMovesMembers(p);
    AllMovesEmpty(p);
  }
}
