/** Square arithmetic of Board: an 11x11 linear array whose two outer rows
    and columns on every side are a permanently blocked border.
    Columns are counted from 'a' and rows from '1', so column c stands for
    the character 'a' + c and row r for '1' + r; the border is c or r in
    -2..-1 and 7..8. */
module Squares {
  /** Squares on a side of the playing area. */
  const SIDE := 7
  /** A side plus the two-deep border on each end. */
  const EXTENDED_SIDE := 11
  /** Length of the linear array. */
  const SIZE := 121

  predicate OnBoard(c: int, r: int) {
    0 <= c < SIDE && 0 <= r < SIDE
  }

  /** The coordinates Board.get accepts: the playing area and its border. */
  predicate InExtended(c: int, r: int) {
    -2 <= c < SIDE + 2 && -2 <= r < SIDE + 2
  }

  function Col(sq: int): int {
    sq % EXTENDED_SIDE - 2
  }

  function Row(sq: int): int {
    sq / EXTENDED_SIDE - 2
  }

  /** A linear index inside the playing area (not in the border). */
  predicate Playable(sq: int) {
    0 <= sq < SIZE && OnBoard(Col(sq), Row(sq))
  }

  /** Linearized index of square (c, r). */
  function Index(c: int, r: int): (sq: int)
    ensures InExtended(c, r) ==> 0 <= sq < SIZE
    ensures OnBoard(c, r) ==> 24 <= sq <= 96
  {
    (r + 2) * EXTENDED_SIDE + (c + 2)
  }

  /** Index and (Col, Row) are inverse on the extended board, and the
      squares of the playing area are exactly the playable ones. */
  lemma IndexCoords(c: int, r: int)
    requires InExtended(c, r)
    ensures Col(Index(c, r)) == c && Row(Index(c, r)) == r
    ensures Playable(Index(c, r)) <==> OnBoard(c, r)
  {
  }

  /** Index of the square dc columns and dr rows away from sq. */
  function Neighbor(sq: int, dc: int, dr: int): int {
    sq + dc + dr * EXTENDED_SIDE
  }

  lemma PlayableRange(sq: int)
    requires Playable(sq)
    ensures 24 <= sq <= 96 && sq == Index(Col(sq), Row(sq))
  {
  }

  /** From a playable square, offsets of at most two columns and two rows
      stay inside the array and move the coordinates by exactly those offsets. */
  lemma NeighborCoords(sq: int, dc: int, dr: int)
    requires Playable(sq) && -2 <= dc <= 2 && -2 <= dr <= 2
    ensures 0 <= Neighbor(sq, dc, dr) < SIZE
    ensures Col(Neighbor(sq, dc, dr)) == Col(sq) + dc
    ensures Row(Neighbor(sq, dc, dr)) == Row(sq) + dr
    ensures Neighbor(sq, dc, dr) == Index(Col(sq) + dc, Row(sq) + dr)
  {
    PlayableRange(sq);
    assert Neighbor(sq, dc, dr) == Index(Col(sq) + dc, Row(sq) + dr);
  }
}
