/** Stand-in for PieceColor: the contents of one square. */
module Pieces {
  datatype PieceColor = Empty | Red | Blue | Blocked

  /** The two colours that take turns. */
  predicate IsPlayer(c: PieceColor) {
    c == Red || c == Blue
  }

  /** The other player. Only the two players have an opposite. */
  function Opposite(c: PieceColor): (r: PieceColor)
    requires IsPlayer(c)
    ensures IsPlayer(r) && r != c
  {
    if c == Red then Blue else Red
  }
}
