/** The contents of Board's linear array as a value, and piece tallies over it. */
module Grids {
  import opened Pieces
  import opened Squares

  type Grid = seq<PieceColor>

  /** The array has the full 11x11 size and every border square is BLOCKED. */
  predicate BorderBlocked(g: Grid) {
    |g| == SIZE && forall k {:trigger Playable(k)} :: 0 <= k < SIZE && !Playable(k) ==> g[k] == Blocked
  }

  /** Squares of g holding c. */
  function Holding(g: Grid, c: PieceColor): set<int> {
    set k | 0 <= k < |g| && g[k] == c
  }

  /** Number of squares of g holding c. */
  function Count(g: Grid, c: PieceColor): nat {
    |Holding(g, c)|
  }

  /** Writing v into square k moves that square from the tally of its old
      colour to the tally of v. */
  lemma CountUpdate(g: Grid, k: int, v: PieceColor, c: PieceColor)
    requires 0 <= k < |g|
    ensures Count(g[k := v], c) == Count(g, c) - (if g[k] == c then 1 else 0) + (if v == c then 1 else 0)
  {
    var before := Holding(g, c);
    var after := Holding(g[k := v], c);
    var rest := before - {k};
    assert after == if v == c then rest + {k} else rest;
    assert before == if g[k] == c then rest + {k} else rest;
  }

  /** The indices 0..n-1. */
  function IndicesBelow(n: nat): (s: set<int>)
    ensures |s| == n && forall x :: x in s <==> 0 <= x < n
  {
    if n == 0 then {} else IndicesBelow(n - 1) + {n - 1}
  }

  /** No colour occupies more squares than the grid has. */
  lemma CountBound(g: Grid, c: PieceColor)
    ensures Count(g, c) <= |g|
  {
    var all := IndicesBelow(|g|);
    assert Holding(g, c) <= all;
    assert all == Holding(g, c) + (all - Holding(g, c));
  }
}
