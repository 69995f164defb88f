/** The rules of Board as functions of a position value. The Board class
    proves each of its methods against these functions. */
module Rules {
  import opened Optional
  import opened Pieces
  import opened Squares
  import opened Moves
  import opened Grids

  /** Consecutive non-extending moves after which the game is over. */
  const JUMP_LIMIT := 25

  /** What Board keeps besides its history: the grid, the player to move,
      the jump streak, the two piece counters and the cached winner. */
  datatype Position = Position(grid: Grid, mover: PieceColor, numJumps: int,
                               red: int, blue: int, winner: Option<PieceColor>)

  predicate WellFormed(p: Position) {
    BorderBlocked(p.grid) && IsPlayer(p.mover)
  }

  /** The incremental counters agree with the grid. */
  predicate CountsMatch(p: Position) {
    |p.grid| == SIZE && p.red == Count(p.grid, Red) && p.blue == Count(p.grid, Blue)
  }

  /** Square sq holds `who` and some square at most two columns and two rows
      away is EMPTY. */
  predicate HasRoom(g: Grid, who: PieceColor, sq: int)
    requires |g| == SIZE
  {
    0 <= sq < SIZE && g[sq] == who &&
    exists dc, dr :: -2 <= dc <= 2 && -2 <= dr <= 2 && 0 <= Neighbor(sq, dc, dr) < SIZE &&
                     g[Neighbor(sq, dc, dr)] == Empty
  }

  /** Board.canMove: some piece of `who` has an EMPTY square within
      Chebyshev distance 2. */
  predicate CanMove(g: Grid, who: PieceColor)
    requires |g| == SIZE
  {
    exists sq :: 0 <= sq < SIZE && HasRoom(g, who, sq)
  }

  /** Board.legalMove on a (non-null) move: a pass is legal when the mover
      cannot move; any other move when its destination is EMPTY and its
      source holds the mover. */
  predicate Legal(p: Position, m: Move)
    requires |p.grid| == SIZE
  {
    match m
    case Pass => !CanMove(p.grid, p.mover)
    case Mv(_, _, _, _) => p.grid[ToIndex(m)] == Empty && p.grid[FromIndex(m)] == p.mover
  }

  /** The n-th square visited by the capture loop around `to`: the outer loop
      runs over the columns to-1..to+1, the inner one over the rows. */
  function CaptureSquare(to: int, n: nat): int {
    Neighbor(to, n / 3 - 1, n % 3 - 1)
  }

  /** The eight neighbours of `to` and `to` itself. */
  predicate Around(to: int, sq: int) {
    exists n :: 0 <= n < 9 && CaptureSquare(to, n) == sq
  }

  /** The grid and the list of captured squares after the capture loop has
      visited its first n squares: every visited square holding the
      opponent turns to the mover. */
  function CaptureSteps(g: Grid, to: int, mover: PieceColor, n: nat): (res: (Grid, seq<int>))
    requires |g| == SIZE && Playable(to) && IsPlayer(mover) && n <= 9
    ensures |res.0| == SIZE
    decreases n
  {
    if n == 0 then (g, [])
    else
      var prev := CaptureSteps(g, to, mover, n - 1);
      var sq := CaptureSquare(to, n - 1);
      PlayableRange(to);
      if prev.0[sq] == Opposite(mover) then (prev.0[sq := mover], prev.1 + [sq])
      else prev
  }

  /** The capture loop only turns opponent pieces into the mover's, and
      records exactly such squares. */
  lemma {:induction false} CaptureStepsShape(g: Grid, to: int, mover: PieceColor, n: nat)
    requires |g| == SIZE && Playable(to) && IsPlayer(mover) && n <= 9
    ensures var res := CaptureSteps(g, to, mover, n);
            (forall k :: 0 <= k < SIZE && res.0[k] != g[k] ==>
               g[k] == Opposite(mover) && res.0[k] == mover) &&
            (forall i :: 0 <= i < |res.1| ==> 0 <= res.1[i] < SIZE) &&
            (forall i :: 0 <= i < |res.1| ==>
               g[res.1[i]] == Opposite(mover) && res.0[res.1[i]] == mover)
    decreases n
  {
    if n > 0 {
      CaptureStepsShape(g, to, mover, n - 1);
      PlayableRange(to);
    }
  }

  /** The grid after placing the moving piece, before captures. */
  function Placed(p: Position, m: Move): (g: Grid)
    requires WellFormed(p) && m.Mv?
    ensures |g| == SIZE
  {
    if IsExtend(m) then p.grid[ToIndex(m) := p.mover]
    else p.grid[FromIndex(m) := Empty][ToIndex(m) := p.mover]
  }

  /** Grid and captured squares of a non-pass move. */
  function Captures(p: Position, m: Move): (Grid, seq<int>)
    requires WellFormed(p) && m.Mv?
  {
    IndexCoords(m.c1, m.r1);
    CaptureSteps(Placed(p, m), ToIndex(m), p.mover, 9)
  }

  /** Board.makeMove on a legal move: the new position. */
  function Apply(p: Position, m: Move): (q: Position)
    requires WellFormed(p)
    ensures WellFormed(q) && q.winner == p.winner && q.mover == Opposite(p.mover)
  {
    match m
    case Pass => p.(mover := Opposite(p.mover))
    case Mv(_, _, _, _) =>
      var (g, caps) := Captures(p, m);
      var k := |caps|;
      var gain := if IsExtend(m) then 1 + k else k;
      assert BorderBlocked(g) by {
        IndexCoords(m.c0, m.r0);
        IndexCoords(m.c1, m.r1);
        CaptureStepsShape(Placed(p, m), ToIndex(m), p.mover, 9);
        forall sq | 0 <= sq < SIZE && !Playable(sq) ensures g[sq] == Blocked {
          assert Placed(p, m)[sq] == p.grid[sq];
        }
      }
      Position(g, Opposite(p.mover),
               if IsExtend(m) then 0 else p.numJumps + 1,
               if p.mover == Red then p.red + gain else p.red - k,
               if p.mover == Blue then p.blue + gain else p.blue - k,
               p.winner)
  }

  /** Board.getWinner: when the jump streak has reached its limit, neither
      colour can move, or a colour has no pieces, the colour with strictly
      more pieces (EMPTY on a tie); otherwise the cached value. */
  predicate GameOver(p: Position)
    requires |p.grid| == SIZE
  {
    p.numJumps >= JUMP_LIMIT || (!CanMove(p.grid, Red) && !CanMove(p.grid, Blue)) ||
    p.red == 0 || p.blue == 0
  }

  function Winner(p: Position): Option<PieceColor>
    requires |p.grid| == SIZE
  {
    if GameOver(p) then
      Some(if p.red > p.blue then Red else if p.blue > p.red then Blue else Empty)
    else p.winner
  }

  // ---------------------------------------------------------------------
  // Undo log

  /** The sentinel that opens each move's group in the square stack. */
  const SENTINEL := -2

  /** Shape of the two parallel undo stacks (top at the end): equal length,
      the bottom entry a sentinel, sentinels exactly where the piece stack
      holds null, and every other entry a playable square with its previous
      non-BLOCKED contents. */
  predicate UndoWf(sqs: seq<int>, pcs: seq<Option<PieceColor>>) {
    |sqs| == |pcs| && (|sqs| > 0 ==> sqs[0] == SENTINEL) &&
    forall k :: 0 <= k < |sqs| ==>
      (sqs[k] == SENTINEL <==> pcs[k].None?) &&
      (sqs[k] != SENTINEL ==> Playable(sqs[k]) && pcs[k].value != Blocked)
  }

  /** Popping entries keeps the stacks well formed. */
  lemma UndoWfPrefix(sqs: seq<int>, pcs: seq<Option<PieceColor>>, n: nat)
    requires UndoWf(sqs, pcs) && n <= |sqs|
    ensures UndoWf(sqs[..n], pcs[..n])
  {
  }

  function Repeat<T>(x: T, n: nat): (s: seq<T>)
    ensures |s| == n && forall i :: 0 <= i < n ==> s[i] == x
  {
    if n == 0 then [] else Repeat(x, n - 1) + [x]
  }

  /** Squares makeMove pushes for a non-pass move: the sentinel, the source,
      the destination, then each captured square. */
  function PushedSquares(p: Position, m: Move): seq<int>
    requires WellFormed(p) && m.Mv?
  {
    [SENTINEL, FromIndex(m), ToIndex(m)] + Captures(p, m).1
  }

  /** The previous contents pushed alongside PushedSquares. */
  function PushedPieces(p: Position, m: Move): seq<Option<PieceColor>>
    requires WellFormed(p) && m.Mv?
  {
    [None, Some(p.mover), Some(Empty)] + Repeat(Some(Opposite(p.mover)), |Captures(p, m).1|)
  }

  /** Board.undo's loop: pop entries, writing each saved colour back, until
      the sentinel has been popped. */
  function Unwind(g: Grid, sqs: seq<int>, pcs: seq<Option<PieceColor>>)
    : (res: (Grid, seq<int>, seq<Option<PieceColor>>))
    requires |g| == SIZE && UndoWf(sqs, pcs) && |sqs| > 0
    ensures |res.0| == SIZE && UndoWf(res.1, res.2)
    ensures BorderBlocked(g) ==> BorderBlocked(res.0)
    decreases |sqs|
  {
    var n := |sqs| - 1;
    if sqs[n] == SENTINEL then (g, sqs[..n], pcs[..n])
    else Unwind(g[sqs[n] := pcs[n].value], sqs[..n], pcs[..n])
  }

  // ---------------------------------------------------------------------
  // Starting layout

  /** Board.clear's choice for square i. The remainders are only compared
      with zero, where Java's truncating % and Dafny's Euclidean % agree. */
  function InitialCell(i: int): PieceColor {
    if i % 11 == 0 || (i - 1) % 11 == 0
       || i < EXTENDED_SIDE * 2 + 2 || i > EXTENDED_SIDE * 9 - 2
       || (i - 9) % 11 == 0 || (i - 10) % 11 == 0 then Blocked
    else if i == EXTENDED_SIDE * 8 + 2 || i == EXTENDED_SIDE * 3 - 3 then Red
    else if i == EXTENDED_SIDE * 2 + 2 || i == EXTENDED_SIDE * 9 - 3 then Blue
    else Empty
  }

  function InitialGrid(): (g: Grid)
    ensures |g| == SIZE
  {
    seq(SIZE, i => InitialCell(i))
  }

  function InitialPosition(): Position {
    Position(InitialGrid(), Red, 0, 2, 2, None)
  }

  // ---------------------------------------------------------------------
  // Blocks

  /** Board.legalBlock/setBlock: the square (c, r) and its reflections
      through d4. Board.java names the column offset `row` and the row
      offset `col`. */
  function BlockSquares(c: int, r: int): set<int> {
    var colOff := Abs(c - 3);
    var rowOff := Abs(3 - r);
    var center := Index(3, 3);
    {center - EXTENDED_SIDE * rowOff + colOff, center - EXTENDED_SIDE * rowOff - colOff,
     center + EXTENDED_SIDE * rowOff + colOff, center + EXTENDED_SIDE * rowOff - colOff}
  }

  /** Blocks may be placed before any move, on squares that are all EMPTY. */
  predicate LegalBlock(g: Grid, noMoves: bool, c: int, r: int)
    requires |g| == SIZE && InExtended(c, r)
  {
    BlockSquaresInRange(c, r);
    g[Index(c, r)] == Empty && (forall sq :: sq in BlockSquares(c, r) ==> g[sq] == Empty) && noMoves
  }

  lemma BlockSquaresInRange(c: int, r: int)
    requires InExtended(c, r)
    ensures forall sq :: sq in BlockSquares(c, r) ==> 0 <= sq < SIZE
  {
  }

  function WithBlocks(g: Grid, c: int, r: int): (g': Grid)
    requires |g| == SIZE && InExtended(c, r)
    ensures |g'| == SIZE
  {
    BlockSquaresInRange(c, r);
    seq(SIZE, k requires 0 <= k < SIZE => if k in BlockSquares(c, r) then Blocked else g[k])
  }
}
