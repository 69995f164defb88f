/** Stand-in for Move: a pass or a pair of on-board endpoints at most two
    columns and two rows apart (the only moves the Move factory builds). */
module Moves {
  import opened Squares

  datatype MoveRep = Pass | Mv(c0: int, r0: int, c1: int, r1: int)

  function Abs(x: int): nat {
    if x < 0 then -x else x
  }

  /** Chebyshev distance between the endpoints. */
  function Distance(m: MoveRep): nat
    requires m.Mv?
  {
    var dc := Abs(m.c1 - m.c0);
    var dr := Abs(m.r1 - m.r0);
    if dc < dr then dr else dc
  }

  /** Written with bounds on the offsets rather than with Distance: the two
      say the same (NearIsDistance), and the bounds need no case split. */
  predicate Constructible(m: MoveRep) {
    m.Pass? ||
    (OnBoard(m.c0, m.r0) && OnBoard(m.c1, m.r1) &&
     -2 <= m.c1 - m.c0 <= 2 && -2 <= m.r1 - m.r0 <= 2)
  }

  lemma NearIsDistance(m: MoveRep)
    requires m.Mv?
    ensures (-2 <= m.c1 - m.c0 <= 2 && -2 <= m.r1 - m.r0 <= 2) <==> Distance(m) <= 2
  {
  }

  type Move = m: MoveRep | Constructible(m) witness Pass

  /** Moves to an adjacent square: a new piece, the source stays. */
  predicate IsExtend(m: Move) {
    m.Mv? && Distance(m) <= 1
  }

  /** Moves two squares away: the piece relocates, the source is vacated. */
  predicate IsJump(m: Move) {
    m.Mv? && Distance(m) == 2
  }

  function FromIndex(m: Move): (sq: int)
    requires m.Mv?
    ensures 24 <= sq <= 96
  {
    Index(m.c0, m.r0)
  }

  function ToIndex(m: Move): (sq: int)
    requires m.Mv?
    ensures 24 <= sq <= 96
  {
    Index(m.c1, m.r1)
  }

  /** Every constructible move other than a pass is an extend or a jump, never both. */
  lemma ExtendOrJump(m: Move)
    requires m.Mv?
    ensures IsExtend(m) != IsJump(m)
  {
  }
}
