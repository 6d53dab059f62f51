/**
 * The checkers rules engine: the 8x8 board, per-square move generation (simple diagonal
 * steps and single jumps), applying a move with capture and king promotion, the
 * multi-jump rule that keeps the turn with the side that just captured, and the
 * black computer opponent's candidate collection with its capture priority.
 */
module Checkers {
  import opened Wrappers

  datatype Player = Red | Black

  /** A piece object `{ player, king }`. */
  datatype Piece = Piece(player: Player, king: bool)

  /** A board cell: `null` or a piece. */
  datatype Square = Empty | Occupied(piece: Piece)

  datatype Pos = Pos(row: int, col: int)

  /** A generated move `{ row, col, capture? }`: the destination and, for a jump, the jumped square. */
  datatype Move = Move(row: int, col: int, capture: Option<Pos>)

  /** A move of the computer opponent, tagged with the square it starts from. */
  datatype Candidate = Candidate(fromRow: int, fromCol: int, move: Move)

  datatype Mode = Pvp | Ai

  /** What the computer opponent did: nothing ("Red Wins!"), or one move and the further captures it may chain. */
  datatype AiResult = RedWins | Played(choice: Candidate, more: seq<Move>)

  type Board = seq<seq<Square>>

  const BoardSize: int := 8

  function Opponent(p: Player): (q: Player)
    ensures q != p
  {
    if p == Red then Black else Red
  }

  predicate IsInsideBoard(row: int, col: int) {
    0 <= row < BoardSize && 0 <= col < BoardSize
  }

  predicate WellFormed(b: Board) {
    |b| == BoardSize && forall r | 0 <= r < BoardSize :: |b[r]| == BoardSize
  }

  /** On an 8x8 board, `isInsideBoard(row, col)` holds exactly when (row, col) names a cell of it. */
  lemma InsideBoardIndexes(b: Board, row: int, col: int)
    requires WellFormed(b)
    ensures IsInsideBoard(row, col) <==> 0 <= row < |b| && 0 <= col < |b[row]|
  {
  }

  /** Only the dark squares, those whose coordinate sum is odd, ever hold a piece. */
  ghost predicate DarkSquaresOnly(b: Board)
    requires WellFormed(b)
  {
    forall r, c | IsInsideBoard(r, c) && b[r][c].Occupied? :: (r + c) % 2 == 1
  }

  function SetSquare(b: Board, row: int, col: int, s: Square): (r: Board)
    requires WellFormed(b) && IsInsideBoard(row, col)
    ensures WellFormed(r) && r[row][col] == s
    ensures forall rr, cc | IsInsideBoard(rr, cc) && (rr != row || cc != col) :: r[rr][cc] == b[rr][cc]
  {
    b[row := b[row][col := s]]
  }

  // ---------------------------------------------------------------------------
  // Initial layout

  function InitialSquare(row: int, col: int): Square {
    if (row + col) % 2 == 1 then
      if row < 3 then Occupied(Piece(Black, false))
      else if row > 4 then Occupied(Piece(Red, false))
      else Empty
    else Empty
  }

  function InitialBoard(): (b: Board)
    ensures WellFormed(b)
  {
    seq(BoardSize, row => seq(BoardSize, col => InitialSquare(row, col)))
  }

  // ---------------------------------------------------------------------------
  // Counting pieces

  function Owns(s: Square, p: Player): nat {
    if s.Occupied? && s.piece.player == p then 1 else 0
  }

  function CountRow(line: seq<Square>, p: Player): nat {
    if |line| == 0 then 0 else CountRow(line[..|line| - 1], p) + Owns(line[|line| - 1], p)
  }

  /** The number of `p`'s pieces on the board. */
  function Count(b: seq<seq<Square>>, p: Player): nat {
    if |b| == 0 then 0 else Count(b[..|b| - 1], p) + CountRow(b[|b| - 1], p)
  }

  lemma {:induction false} CountRowUpdate(line: seq<Square>, c: int, s: Square, p: Player)
    requires 0 <= c < |line|
    ensures CountRow(line[c := s], p) == CountRow(line, p) - Owns(line[c], p) + Owns(s, p)
  {
    var n := |line|;
    var u := line[c := s];
    if c == n - 1 {
      assert u[..n - 1] == line[..n - 1];
    } else {
      assert u[..n - 1] == line[..n - 1][c := s];
      CountRowUpdate(line[..n - 1], c, s, p);
    }
  }

  lemma {:induction false} CountUpdate(b: seq<seq<Square>>, r: int, line: seq<Square>, p: Player)
    requires 0 <= r < |b|
    ensures Count(b[r := line], p) == Count(b, p) - CountRow(b[r], p) + CountRow(line, p)
  {
    var n := |b|;
    var u := b[r := line];
    if r == n - 1 {
      assert u[..n - 1] == b[..n - 1];
    } else {
      assert u[..n - 1] == b[..n - 1][r := line];
      CountUpdate(b[..n - 1], r, line, p);
    }
  }

  /** Writing one square changes a side's count by what was removed and what was put there. */
  lemma SetSquareCount(b: Board, row: int, col: int, s: Square, p: Player)
    requires WellFormed(b) && IsInsideBoard(row, col)
    ensures Count(SetSquare(b, row, col, s), p) == Count(b, p) - Owns(b[row][col], p) + Owns(s, p)
  {
    CountRowUpdate(b[row], col, s, p);
    CountUpdate(b, row, b[row][col := s], p);
  }

  lemma CountRowPrefix(line: seq<Square>, k: int, p: Player)
    requires 1 <= k <= |line|
    ensures CountRow(line[..k], p) == CountRow(line[..k - 1], p) + Owns(line[k - 1], p)
  {
    assert line[..k][..k - 1] == line[..k - 1];
  }

  lemma CountPrefix(b: seq<seq<Square>>, k: int, p: Player)
    requires 1 <= k <= |b|
    ensures Count(b[..k], p) == Count(b[..k - 1], p) + CountRow(b[k - 1], p)
  {
    assert b[..k][..k - 1] == b[..k - 1];
  }

  /** Whether side p starts with pieces on `row`: black on rows 0-2, red on rows 5-7. */
  predicate StartsOn(p: Player, row: int) {
    (p == Black && row < 3) || (p == Red && row > 4)
  }

  /** p's pieces among the first 2j squares of starting row `row`: one on every dark square. */
  lemma {:induction false} InitialRowPrefix(row: int, j: int, p: Player)
    requires 0 <= row < BoardSize && 0 <= 2 * j <= BoardSize
    ensures CountRow(InitialBoard()[row][..2 * j], p) == if StartsOn(p, row) then j else 0
  {
    var line := InitialBoard()[row];
    if j == 0 {
      assert line[..0] == [];
    } else {
      InitialRowPrefix(row, j - 1, p);
      CountRowPrefix(line, 2 * j, p);
      CountRowPrefix(line, 2 * j - 1, p);
      InitialPairOwns(row, 2 * j - 2, p);
      assert line[2 * j - 2] == InitialSquare(row, 2 * j - 2) && line[2 * j - 1] == InitialSquare(row, 2 * j - 1);
    }
  }

  /** Of two neighbouring squares of a starting row, exactly one is dark. */
  lemma InitialPairOwns(row: int, c: int, p: Player)
    ensures Owns(InitialSquare(row, c), p) + Owns(InitialSquare(row, c + 1), p) ==
            if StartsOn(p, row) then 1 else 0
  {
    var x := row + c;
    assert (x % 2 == 1) != ((x + 1) % 2 == 1);
  }

  lemma InitialRowCount(row: int, p: Player)
    requires 0 <= row < BoardSize
    ensures CountRow(InitialBoard()[row], p) == if StartsOn(p, row) then 4 else 0
  {
    InitialRowPrefix(row, 4, p);
    assert InitialBoard()[row][..BoardSize] == InitialBoard()[row];
  }

  /** p's pieces on the first k rows of the starting position. */
  lemma {:induction false} InitialPrefixCount(k: int, p: Player)
    requires 0 <= k <= BoardSize
    ensures Count(InitialBoard()[..k], p) ==
            if p == Black then 4 * (if k < 3 then k else 3) else 4 * (if k > 5 then k - 5 else 0)
  {
    var b := InitialBoard();
    if k == 0 {
      assert b[..0] == [];
    } else {
      InitialPrefixCount(k - 1, p);
      CountPrefix(b, k, p);
      InitialRowCount(k - 1, p);
    }
  }

  /**
   * The starting position: pieces only on dark squares, black on rows 0-2, red on rows 5-7,
   * rows 3 and 4 empty, and no kings.
   */
  lemma InitialLayout()
    ensures var b := InitialBoard();
      && WellFormed(b) && DarkSquaresOnly(b)
      && forall r, c | IsInsideBoard(r, c) ::
           && (b[r][c].Occupied? <==> (r + c) % 2 == 1 && (r < 3 || r > 4))
           && (b[r][c].Occupied? ==> !b[r][c].piece.king && b[r][c].piece.player == (if r < 3 then Black else Red))
  {
  }

  /** The starting position has twelve pieces a side. */
  lemma InitialCounts(p: Player)
    ensures Count(InitialBoard(), p) == 12
  {
    InitialPrefixCount(BoardSize, p);
    assert InitialBoard()[..BoardSize] == InitialBoard();
  }

  // ---------------------------------------------------------------------------
  // Move generation

  /** The diagonal directions a piece may move in: all four for a king, forward only otherwise. */
  function Directions(p: Piece): (r: seq<(int, int)>)
    ensures |r| == if p.king then 4 else 2
    ensures p.king ==> forall d :: d in r <==> Dist(d.0, 1) && Dist(d.1, 1)
    ensures !p.king ==> forall d :: d in r <==> d.0 == (if p.player == Red then -1 else 1) && Dist(d.1, 1)
  {
    if p.king then [(1, 1), (1, -1), (-1, 1), (-1, -1)]
    else if p.player == Red then [(-1, 1), (-1, -1)]
    else [(1, 1), (1, -1)]
  }

  /**
   * The move, if any, that `piece` at (row, col) has in direction d: the step onto the adjacent
   * square when it is empty, otherwise the jump over it when it holds an opposing piece and the
   * square beyond is empty.
   */
  function StepMove(b: Board, row: int, col: int, piece: Piece, d: (int, int)): (r: Option<Move>)
    requires WellFormed(b)
    ensures forall m :: r == Some(m) <==> IsSimpleStep(b, row, col, d, m) || IsJump(b, row, col, piece, d, m)
  {
    var newRow, newCol := row + d.0, col + d.1;
    if IsInsideBoard(newRow, newCol) && b[newRow][newCol].Empty? then
      Some(Move(newRow, newCol, None))
    else if IsInsideBoard(newRow, newCol) && b[newRow][newCol].piece.player != piece.player then
      var jumpRow, jumpCol := newRow + d.0, newCol + d.1;
      if IsInsideBoard(jumpRow, jumpCol) && b[jumpRow][jumpCol].Empty? then
        Some(Move(jumpRow, jumpCol, Some(Pos(newRow, newCol))))
      else None
    else None
  }

  function AsSeq(o: Option<Move>): seq<Move> {
    if o.Some? then [o.value] else []
  }

  /** The moves generated by scanning `dirs` in order, at most one per direction. */
  function MovesAlong(b: Board, row: int, col: int, piece: Piece, dirs: seq<(int, int)>): (r: seq<Move>)
    requires WellFormed(b)
    ensures |r| <= |dirs|
    ensures forall m | m in r :: IsInsideBoard(m.row, m.col) && b[m.row][m.col].Empty?
                               && (m.capture.Some? ==> IsInsideBoard(m.capture.value.row, m.capture.value.col))
  {
    if |dirs| == 0 then []
    else MovesAlong(b, row, col, piece, dirs[..|dirs| - 1]) + AsSeq(StepMove(b, row, col, piece, dirs[|dirs| - 1]))
  }

  lemma MovesAlongStep(b: Board, row: int, col: int, piece: Piece, dirs: seq<(int, int)>, i: int)
    requires WellFormed(b) && 0 <= i < |dirs|
    ensures MovesAlong(b, row, col, piece, dirs[..i + 1]) ==
            MovesAlong(b, row, col, piece, dirs[..i]) + AsSeq(StepMove(b, row, col, piece, dirs[i]))
  {
    assert dirs[..i + 1][..i] == dirs[..i];
  }

  /** `getValidMoves(row, col)`: the moves of the piece on (row, col); none for an empty square. */
  function ValidMoves(b: Board, row: int, col: int): (r: seq<Move>)
    requires WellFormed(b) && IsInsideBoard(row, col)
    ensures b[row][col].Empty? ==> r == []
    ensures b[row][col].Occupied? ==> |r| <= if b[row][col].piece.king then 4 else 2
    ensures forall m | m in r :: IsInsideBoard(m.row, m.col) && b[m.row][m.col].Empty?
                               && (m.capture.Some? ==> IsInsideBoard(m.capture.value.row, m.capture.value.col))
  {
    if b[row][col].Empty? then []
    else MovesAlong(b, row, col, b[row][col].piece, Directions(b[row][col].piece))
  }

  /** A one-square diagonal step in direction d onto an empty square. */
  predicate IsSimpleStep(b: Board, row: int, col: int, d: (int, int), m: Move)
    requires WellFormed(b)
  {
    && m.capture.None? && m.row == row + d.0 && m.col == col + d.1
    && IsInsideBoard(m.row, m.col) && b[m.row][m.col].Empty?
  }

  /** A jump in direction d over an adjacent opposing piece onto the empty square beyond it. */
  predicate IsJump(b: Board, row: int, col: int, piece: Piece, d: (int, int), m: Move)
    requires WellFormed(b)
  {
    && m.capture == Some(Pos(row + d.0, col + d.1))
    && m.row == row + 2 * d.0 && m.col == col + 2 * d.1
    && IsInsideBoard(row + d.0, col + d.1)
    && b[row + d.0][col + d.1].Occupied? && b[row + d.0][col + d.1].piece.player != piece.player
    && IsInsideBoard(m.row, m.col) && b[m.row][m.col].Empty?
  }

  /** A legal single-step move of `piece` from (row, col), in one of its directions. */
  ghost predicate LegalStep(b: Board, row: int, col: int, piece: Piece, m: Move)
    requires WellFormed(b)
  {
    exists d :: d in Directions(piece) && (IsSimpleStep(b, row, col, d, m) || IsJump(b, row, col, piece, d, m))
  }

  lemma {:induction false} MovesAlongMembers(b: Board, row: int, col: int, piece: Piece, dirs: seq<(int, int)>, m: Move)
    requires WellFormed(b)
    ensures m in MovesAlong(b, row, col, piece, dirs) <==>
            exists i :: 0 <= i < |dirs| && StepMove(b, row, col, piece, dirs[i]) == Some(m)
  {
    if |dirs| > 0 {
      var init := dirs[..|dirs| - 1];
      MovesAlongMembers(b, row, col, piece, init, m);
      if exists i :: 0 <= i < |dirs| && StepMove(b, row, col, piece, dirs[i]) == Some(m) {
        var i :| 0 <= i < |dirs| && StepMove(b, row, col, piece, dirs[i]) == Some(m);
        if i < |dirs| - 1 {
          assert init[i] == dirs[i];
        }
      }
      if exists i :: 0 <= i < |init| && StepMove(b, row, col, piece, init[i]) == Some(m) {
        var i :| 0 <= i < |init| && StepMove(b, row, col, piece, init[i]) == Some(m);
        assert init[i] == dirs[i];
      }
    }
  }

  /**
   * The generated moves are exactly the legal single steps of the piece on (row, col): simple
   * diagonal steps and single jumps in the piece's directions; an empty square has none.
   */
  lemma ValidMovesExact(b: Board, row: int, col: int, m: Move)
    requires WellFormed(b) && IsInsideBoard(row, col)
    ensures m in ValidMoves(b, row, col) <==> b[row][col].Occupied? && LegalStep(b, row, col, b[row][col].piece, m)
  {
    if b[row][col].Occupied? {
      var piece := b[row][col].piece;
      var dirs := Directions(piece);
      MovesAlongMembers(b, row, col, piece, dirs, m);
      if m in ValidMoves(b, row, col) {
        var i :| 0 <= i < |dirs| && StepMove(b, row, col, piece, dirs[i]) == Some(m);
      }
      if LegalStep(b, row, col, piece, m) {
        var d :| d in dirs && (IsSimpleStep(b, row, col, d, m) || IsJump(b, row, col, piece, d, m));
        assert StepMove(b, row, col, piece, d) == Some(m);
        var i :| 0 <= i < |dirs| && dirs[i] == d;
      }
    }
  }

  /** |x| == k. */
  predicate Dist(x: int, k: int) {
    x == k || x == -k
  }

  /**
   * Geometry of a generated move: it lands inside the board on an empty square; a plain move
   * goes one square diagonally, a capture two, over its midpoint, which holds an opposing piece;
   * a non-king red piece only goes up (to lower rows), a non-king black piece only down.
   */
  lemma MoveGeometry(b: Board, row: int, col: int, m: Move)
    requires WellFormed(b) && IsInsideBoard(row, col) && m in ValidMoves(b, row, col)
    ensures b[row][col].Occupied?
    ensures IsInsideBoard(m.row, m.col) && b[m.row][m.col].Empty?
    ensures var p := b[row][col].piece;
      && (!p.king && p.player == Red ==> m.row < row)
      && (!p.king && p.player == Black ==> m.row > row)
    ensures m.capture.None? ==> Dist(m.row - row, 1) && Dist(m.col - col, 1)
    ensures m.capture.Some? ==>
      var cap := m.capture.value;
      && Dist(m.row - row, 2) && Dist(m.col - col, 2)
      && 2 * cap.row == row + m.row && 2 * cap.col == col + m.col
      && IsInsideBoard(cap.row, cap.col)
      && b[cap.row][cap.col].Occupied? && b[cap.row][cap.col].piece.player != b[row][col].piece.player
  {
    ValidMovesExact(b, row, col, m);
    var p := b[row][col].piece;
    var d :| d in Directions(p) && (IsSimpleStep(b, row, col, d, m) || IsJump(b, row, col, p, d, m));
    StepGeometry(b, row, col, p, d, m);
  }

  /** The geometry of one step or jump in one of the piece's directions. */
  lemma StepGeometry(b: Board, row: int, col: int, p: Piece, d: (int, int), m: Move)
    requires WellFormed(b)
    requires d in Directions(p) && (IsSimpleStep(b, row, col, d, m) || IsJump(b, row, col, p, d, m))
    ensures (!p.king && p.player == Red ==> m.row < row) && (!p.king && p.player == Black ==> m.row > row)
    ensures m.capture.None? ==> Dist(m.row - row, 1) && Dist(m.col - col, 1)
    ensures m.capture.Some? ==>
      var cap := m.capture.value;
      && Dist(m.row - row, 2) && Dist(m.col - col, 2)
      && 2 * cap.row == row + m.row && 2 * cap.col == col + m.col
      && IsInsideBoard(cap.row, cap.col)
      && b[cap.row][cap.col].Occupied? && b[cap.row][cap.col].piece.player != p.player
  {
    UnitDirection(p, d);
  }

  /** Two generated moves of one piece never share a destination. */
  lemma DestinationsDistinct(b: Board, row: int, col: int, m1: Move, m2: Move)
    requires WellFormed(b) && IsInsideBoard(row, col)
    requires m1 in ValidMoves(b, row, col) && m2 in ValidMoves(b, row, col)
    requires m1.row == m2.row && m1.col == m2.col
    ensures m1 == m2
  {
    ValidMovesExact(b, row, col, m1);
    ValidMovesExact(b, row, col, m2);
    var p := b[row][col].piece;
    var d1 :| d1 in Directions(p) && (IsSimpleStep(b, row, col, d1, m1) || IsJump(b, row, col, p, d1, m1));
    var d2 :| d2 in Directions(p) && (IsSimpleStep(b, row, col, d2, m2) || IsJump(b, row, col, p, d2, m2));
    UnitDirection(p, d1);
    UnitDirection(p, d2);
    SameLandingSameMove(b, row, col, p, d1, d2, m1, m2);
  }

  /** Steps and jumps in unit diagonal directions that land on one square are the same move. */
  lemma SameLandingSameMove(b: Board, row: int, col: int, p: Piece, d1: (int, int), d2: (int, int), m1: Move, m2: Move)
    requires WellFormed(b)
    requires Dist(d1.0, 1) && Dist(d1.1, 1) && Dist(d2.0, 1) && Dist(d2.1, 1)
    requires IsSimpleStep(b, row, col, d1, m1) || IsJump(b, row, col, p, d1, m1)
    requires IsSimpleStep(b, row, col, d2, m2) || IsJump(b, row, col, p, d2, m2)
    requires m1.row == m2.row && m1.col == m2.col
    ensures m1 == m2
  {
    if IsSimpleStep(b, row, col, d1, m1) {
      assert IsSimpleStep(b, row, col, d2, m2);
    } else {
      assert IsJump(b, row, col, p, d2, m2);
      assert d1 == d2;
    }
  }

  lemma UnitDirection(p: Piece, d: (int, int))
    requires d in Directions(p)
    ensures Dist(d.0, 1) && Dist(d.1, 1)
  {
  }

  predicate IsCapture(m: Move) {
    m.capture.Some?
  }

  /** `moves.filter(m => m.capture)`. */
  function Captures(moves: seq<Move>): (r: seq<Move>)
    ensures forall m :: m in r <==> m in moves && m.capture.Some?
  {
    Filter(moves, IsCapture)
  }

  /** `moves.find(m => m.row === toRow && m.col === toCol)`. */
  function FindMove(moves: seq<Move>, toRow: int, toCol: int): (r: Option<Move>)
    ensures r.Some? ==> r.value in moves && r.value.row == toRow && r.value.col == toCol
    ensures r.None? <==> forall m | m in moves :: m.row != toRow || m.col != toCol
  {
    if |moves| == 0 then None
    else if moves[0].row == toRow && moves[0].col == toCol then Some(moves[0])
    else FindMove(moves[1..], toRow, toCol)
  }

  // ---------------------------------------------------------------------------
  // Applying a move

  /** Row 0 is red's crowning row, row 7 black's. */
  predicate ReachesBackRank(p: Player, toRow: int) {
    (p == Red && toRow == 0) || (p == Black && toRow == BoardSize - 1)
  }

  /** The piece after landing on `toRow`: it becomes a king on its crowning row and a king stays one. */
  function Promote(piece: Piece, toRow: int): (q: Piece)
    ensures q.player == piece.player
    ensures q.king <==> piece.king || (piece.player == Red && toRow == 0) || (piece.player == Black && toRow == BoardSize - 1)
  {
    if ReachesBackRank(piece.player, toRow) then piece.(king := true) else piece
  }

  /**
   * The board after `makeMove` moved the piece on (fromRow, fromCol) by m: the destination
   * holds the piece, crowned on its back rank; the origin and the jumped square are cleared;
   * nothing else changes. (The first clauses assume the three squares differ, as they do for a
   * generated move.)
   */
  function ApplyMove(b: Board, fromRow: int, fromCol: int, m: Move): (r: Board)
    requires WellFormed(b) && IsInsideBoard(fromRow, fromCol) && b[fromRow][fromCol].Occupied?
    requires IsInsideBoard(m.row, m.col)
    requires m.capture.Some? ==> IsInsideBoard(m.capture.value.row, m.capture.value.col)
    ensures WellFormed(r)
    ensures Pos(m.row, m.col) != Pos(fromRow, fromCol) && m.capture != Some(Pos(m.row, m.col)) ==>
      r[m.row][m.col] == Occupied(Promote(b[fromRow][fromCol].piece, m.row))
    ensures Pos(m.row, m.col) != Pos(fromRow, fromCol) ==> r[fromRow][fromCol].Empty?
    ensures m.capture.Some? && m.capture != Some(Pos(m.row, m.col)) ==>
      r[m.capture.value.row][m.capture.value.col].Empty?
    ensures forall rr, cc | IsInsideBoard(rr, cc) && Pos(rr, cc) != Pos(m.row, m.col) && Pos(rr, cc) != Pos(fromRow, fromCol)
                            && m.capture != Some(Pos(rr, cc)) :: r[rr][cc] == b[rr][cc]
  {
    var piece := b[fromRow][fromCol];
    var moved := SetSquare(SetSquare(b, m.row, m.col, piece), fromRow, fromCol, Empty);
    var cleared := if m.capture.Some? then SetSquare(moved, m.capture.value.row, m.capture.value.col, Empty) else moved;
    if ReachesBackRank(piece.piece.player, m.row) then
      SetSquare(cleared, m.row, m.col, Occupied(piece.piece.(king := true)))
    else cleared
  }

  /**
   * After a valid move the destination holds the (possibly promoted) piece, the origin and the
   * jumped square are empty, every other square is unchanged, and a king stays a king.
   */
  lemma MoveEffect(b: Board, fromRow: int, fromCol: int, m: Move)
    requires WellFormed(b) && IsInsideBoard(fromRow, fromCol) && m in ValidMoves(b, fromRow, fromCol)
    ensures var piece := b[fromRow][fromCol].piece;
      var r := ApplyMove(b, fromRow, fromCol, m);
      && r[m.row][m.col] == Occupied(Promote(piece, m.row))
      && (piece.king ==> r[m.row][m.col].piece.king)
      && r[fromRow][fromCol].Empty?
      && (m.capture.Some? ==> r[m.capture.value.row][m.capture.value.col].Empty?)
      && forall rr, cc | IsInsideBoard(rr, cc) && (rr != m.row || cc != m.col) && (rr != fromRow || cc != fromCol)
                         && (m.capture.None? || Pos(rr, cc) != m.capture.value) :: r[rr][cc] == b[rr][cc]
  {
    MoveGeometry(b, fromRow, fromCol, m);
  }

  /** A plain move keeps both sides' counts; a capture removes exactly one opposing piece. */
  lemma MoveCounts(b: Board, fromRow: int, fromCol: int, m: Move)
    requires WellFormed(b) && IsInsideBoard(fromRow, fromCol) && m in ValidMoves(b, fromRow, fromCol)
    ensures var p := b[fromRow][fromCol].piece.player;
      var r := ApplyMove(b, fromRow, fromCol, m);
      && Count(r, p) == Count(b, p)
      && Count(r, Opponent(p)) == Count(b, Opponent(p)) - (if m.capture.Some? then 1 else 0)
  {
    MoveGeometry(b, fromRow, fromCol, m);
    var piece := b[fromRow][fromCol];
    var p := piece.piece.player;
    var b1 := SetSquare(b, m.row, m.col, piece);
    var b2 := SetSquare(b1, fromRow, fromCol, Empty);
    var b3 := if m.capture.Some? then SetSquare(b2, m.capture.value.row, m.capture.value.col, Empty) else b2;
    CountsBeforePromotion(b, fromRow, fromCol, m, p);
    CountsBeforePromotion(b, fromRow, fromCol, m, Opponent(p));
    if ReachesBackRank(p, m.row) {
      var k := Occupied(piece.piece.(king := true));
      assert b3[m.row][m.col] == piece;
      SetSquareCount(b3, m.row, m.col, k, p);
      SetSquareCount(b3, m.row, m.col, k, Opponent(p));
    }
  }

  /** Moving the piece and clearing the jumped square changes only the opponent's count, by one per capture. */
  lemma CountsBeforePromotion(b: Board, fromRow: int, fromCol: int, m: Move, q: Player)
    requires WellFormed(b) && IsInsideBoard(fromRow, fromCol) && b[fromRow][fromCol].Occupied?
    requires IsInsideBoard(m.row, m.col) && b[m.row][m.col].Empty? && (m.row != fromRow || m.col != fromCol)
    requires m.capture.Some? ==>
      var cap := m.capture.value;
      && IsInsideBoard(cap.row, cap.col) && b[cap.row][cap.col].Occupied?
      && b[cap.row][cap.col].piece.player != b[fromRow][fromCol].piece.player
      && (cap.row != fromRow || cap.col != fromCol) && (cap.row != m.row || cap.col != m.col)
    ensures var piece := b[fromRow][fromCol];
      var b2 := SetSquare(SetSquare(b, m.row, m.col, piece), fromRow, fromCol, Empty);
      var b3 := if m.capture.Some? then SetSquare(b2, m.capture.value.row, m.capture.value.col, Empty) else b2;
      Count(b3, q) == Count(b, q) - (if m.capture.Some? && q != piece.piece.player then 1 else 0)
  {
    var piece := b[fromRow][fromCol];
    var b1 := SetSquare(b, m.row, m.col, piece);
    var b2 := SetSquare(b1, fromRow, fromCol, Empty);
    SetSquareCount(b, m.row, m.col, piece, q);
    SetSquareCount(b1, fromRow, fromCol, Empty, q);
    if m.capture.Some? {
      SetSquareCount(b2, m.capture.value.row, m.capture.value.col, Empty, q);
    }
  }

  /** Moves are diagonal, so a board with pieces only on dark squares keeps that property. */
  lemma MoveKeepsDarkSquares(b: Board, fromRow: int, fromCol: int, m: Move)
    requires WellFormed(b) && DarkSquaresOnly(b)
    requires IsInsideBoard(fromRow, fromCol) && m in ValidMoves(b, fromRow, fromCol)
    ensures DarkSquaresOnly(ApplyMove(b, fromRow, fromCol, m))
  {
    MoveEffect(b, fromRow, fromCol, m);
    MoveGeometry(b, fromRow, fromCol, m);
    var r: Board := ApplyMove(b, fromRow, fromCol, m);
    assert (fromRow + fromCol) % 2 == 1;
    DiagonalKeepsParity(fromRow, fromCol, m.row, m.col, if m.capture.None? then 1 else 2);
    forall rr: int, cc: int | IsInsideBoard(rr, cc) && r[rr][cc].Occupied?
      ensures (rr + cc) % 2 == 1
    {
      if rr != m.row || cc != m.col {
        assert r[rr][cc] == b[rr][cc];
      }
    }
  }

  /** A diagonal move by k squares in both coordinates keeps the colour of the square. */
  lemma DiagonalKeepsParity(fromRow: int, fromCol: int, toRow: int, toCol: int, k: int)
    requires (fromRow + fromCol) % 2 == 1 && Dist(toRow - fromRow, k) && Dist(toCol - fromCol, k)
    ensures (toRow + toCol) % 2 == 1
  {
    var sum := toRow + toCol - (fromRow + fromCol);
    assert sum == 2 * k || sum == 0 || sum == -2 * k;
  }

  // ---------------------------------------------------------------------------
  // Turn logic

  /**
   * Who plays after m landed: after a capture from whose landing square another capture is
   * available, the same side keeps the turn; otherwise it passes to the opponent.
   */
  function TurnAfter(player: Player, m: Move, after: Board): (r: Player)
    requires WellFormed(after) && IsInsideBoard(m.row, m.col)
    ensures r == player <==> m.capture.Some? && exists c :: c in ValidMoves(after, m.row, m.col) && c.capture.Some?
    ensures r != player ==> r == Opponent(player)
  {
    var more := Captures(ValidMoves(after, m.row, m.col));
    assert |more| > 0 ==> more[0] in more;
    if m.capture.Some? && |more| > 0 then player else Opponent(player)
  }

  /** A human click on black's turn in the game against the computer is ignored. */
  predicate Blocked(player: Player, mode: Mode, isAI: bool) {
    player == Black && mode == Ai && !isAI
  }

  /** The board and turn after `makeMove(fromRow, fromCol, toRow, toCol, isAI)`. */
  function MakeMoveResult(b: Board, player: Player, mode: Mode, fromRow: int, fromCol: int,
                          toRow: int, toCol: int, isAI: bool): (r: (Board, Player))
    requires WellFormed(b) && IsInsideBoard(fromRow, fromCol)
    ensures WellFormed(r.0)
  {
    var found := FindMove(ValidMoves(b, fromRow, fromCol), toRow, toCol);
    if Blocked(player, mode, isAI) || found.None? then (b, player)
    else
      var after := ApplyMove(b, fromRow, fromCol, found.value);
      (after, TurnAfter(player, found.value, after))
  }

  /** A destination that is not among the piece's generated moves leaves board and turn as they were. */
  lemma InvalidDestinationIsNoOp(b: Board, player: Player, mode: Mode, fromRow: int, fromCol: int,
                                 toRow: int, toCol: int, isAI: bool)
    requires WellFormed(b) && IsInsideBoard(fromRow, fromCol)
    requires forall m | m in ValidMoves(b, fromRow, fromCol) :: m.row != toRow || m.col != toCol
    ensures MakeMoveResult(b, player, mode, fromRow, fromCol, toRow, toCol, isAI) == (b, player)
  {
  }

  /**
   * A generated move m is applied exactly, and the turn stays with the mover iff m was a capture
   * and the moved piece has another capture from its new square.
   */
  lemma ValidMoveApplied(b: Board, player: Player, mode: Mode, fromRow: int, fromCol: int, m: Move, isAI: bool)
    requires WellFormed(b) && IsInsideBoard(fromRow, fromCol) && m in ValidMoves(b, fromRow, fromCol)
    requires !Blocked(player, mode, isAI)
    ensures var r := MakeMoveResult(b, player, mode, fromRow, fromCol, m.row, m.col, isAI);
      && r.0 == ApplyMove(b, fromRow, fromCol, m)
      && (r.1 == player <==> m.capture.Some? && exists c :: c in ValidMoves(r.0, m.row, m.col) && c.capture.Some?)
      && (r.1 != player ==> r.1 == Opponent(player))
  {
    var found := FindMove(ValidMoves(b, fromRow, fromCol), m.row, m.col);
    DestinationsDistinct(b, fromRow, fromCol, found.value, m);
  }

  // ---------------------------------------------------------------------------
  // The computer opponent (black)

  /**
   * `validMoves.forEach(m => moves.push({ fromRow, fromCol, ...m }))`: the moves in their order,
   * each tagged with the square it starts from, and nothing else.
   */
  function Tag(fromRow: int, fromCol: int, moves: seq<Move>): (r: seq<Candidate>)
    ensures |r| == |moves| && forall i | 0 <= i < |moves| :: r[i] == Candidate(fromRow, fromCol, moves[i])
    ensures forall c :: c in r <==> c.fromRow == fromRow && c.fromCol == fromCol && c.move in moves
  {
    var tagged := seq(|moves|, i requires 0 <= i < |moves| => Candidate(fromRow, fromCol, moves[i]));
    assert forall m | m in moves :: Candidate(fromRow, fromCol, m) in tagged by {
      forall m | m in moves
        ensures Candidate(fromRow, fromCol, m) in tagged
      {
        var i :| 0 <= i < |moves| && moves[i] == m;
        assert tagged[i] == Candidate(fromRow, fromCol, m);
      }
    }
    tagged
  }

  predicate OwnedBy(b: Board, row: int, col: int, p: Player)
    requires WellFormed(b) && IsInsideBoard(row, col)
  {
    b[row][col].Occupied? && b[row][col].piece.player == p
  }

  /** The candidates of the piece on (row, col) if p owns it; nothing off the board. */
  function SquareCandidates(b: Board, p: Player, row: int, col: int): seq<Candidate>
    requires WellFormed(b)
  {
    if IsInsideBoard(row, col) && OwnedBy(b, row, col, p) then Tag(row, col, ValidMoves(b, row, col)) else []
  }

  /** Square (r, k) comes before square (row, col) in the row-by-row scan. */
  predicate ScannedBefore(r: int, k: int, row: int, col: int) {
    r < row || (r == row && k < col)
  }

  /** What f yields for each square before (row, col), concatenated in row-by-row order. */
  function Scan<T>(f: (int, int) -> seq<T>, row: int, col: int): seq<T>
    requires 0 <= row <= BoardSize && 0 <= col <= BoardSize
    requires row == BoardSize ==> col == 0
    decreases row, col
  {
    if col == 0 then
      if row == 0 then [] else Scan(f, row - 1, BoardSize)
    else Scan(f, row, col - 1) + f(row, col - 1)
  }

  /** Every element f yields is on the board and names (through `at`) the square it came from. */
  ghost predicate Located<T>(f: (int, int) -> seq<T>, at: T -> (int, int)) {
    forall r, k, y | y in f(r, k) :: at(y) == (r, k) && IsInsideBoard(r, k)
  }

  /**
   * When every element f yields names the board square it came from (`at`), an element is
   * in the scan exactly when its square was scanned and yields it.
   */
  lemma {:induction false} ScanMembers<T>(f: (int, int) -> seq<T>, at: T -> (int, int), row: int, col: int, x: T)
    requires 0 <= row <= BoardSize && 0 <= col <= BoardSize
    requires row == BoardSize ==> col == 0
    requires Located(f, at)
    ensures x in Scan(f, row, col) <==> ScannedBefore(at(x).0, at(x).1, row, col) && x in f(at(x).0, at(x).1)
    decreases row, col
  {
    if col == 0 {
      if row > 0 {
        ScanMembers(f, at, row - 1, BoardSize, x);
      }
    } else {
      ScanMembers(f, at, row, col - 1, x);
      assert Scan(f, row, col) == Scan(f, row, col - 1) + f(row, col - 1);
    }
  }

  function SquareLists(b: Board, p: Player): (int, int) -> seq<Candidate>
    requires WellFormed(b)
  {
    (r, k) => SquareCandidates(b, p, r, k)
  }

  /** The candidates of p's pieces on the squares before (row, col), row by row. */
  function ScanCandidates(b: Board, p: Player, row: int, col: int): seq<Candidate>
    requires WellFormed(b) && 0 <= row <= BoardSize && 0 <= col <= BoardSize
    requires row == BoardSize ==> col == 0
  {
    Scan(SquareLists(b, p), row, col)
  }

  /**
   * Every move of every piece of side p, scanning the board row by row: exactly the generated
   * moves of p's pieces, tagged with their squares.
   */
  function Candidates(b: Board, p: Player): (r: seq<Candidate>)
    requires WellFormed(b)
    ensures forall c :: c in r <==> IsCandidateOf(b, p, c)
  {
    ScanCandidatesExact(b, p);
    ScanCandidates(b, p, BoardSize, 0)
  }

  predicate IsCandidateOf(b: Board, p: Player, c: Candidate)
    requires WellFormed(b)
  {
    IsInsideBoard(c.fromRow, c.fromCol) && OwnedBy(b, c.fromRow, c.fromCol, p) && c.move in ValidMoves(b, c.fromRow, c.fromCol)
  }

  function From(c: Candidate): (int, int) {
    (c.fromRow, c.fromCol)
  }

  lemma ScanUnfolds(b: Board, p: Player, row: int, col: int)
    requires WellFormed(b) && IsInsideBoard(row, col)
    ensures ScanCandidates(b, p, row, col + 1) == ScanCandidates(b, p, row, col) + SquareCandidates(b, p, row, col)
  {
  }

  lemma ScanRowEnds(b: Board, p: Player, row: int)
    requires WellFormed(b) && 0 <= row < BoardSize
    ensures ScanCandidates(b, p, row + 1, 0) == ScanCandidates(b, p, row, BoardSize)
  {
  }

  lemma SquareCandidatesMembers(b: Board, p: Player, row: int, col: int, c: Candidate)
    requires WellFormed(b)
    ensures c in SquareCandidates(b, p, row, col) <==>
            c.fromRow == row && c.fromCol == col && IsCandidateOf(b, p, c)
  {
  }

  /** The full scan yields exactly the generated moves of p's pieces. */
  lemma ScanCandidatesExact(b: Board, p: Player)
    requires WellFormed(b)
    ensures forall c :: c in ScanCandidates(b, p, BoardSize, 0) <==> IsCandidateOf(b, p, c)
  {
    var f := SquareLists(b, p);
    forall r, k, y | y in f(r, k)
      ensures From(y) == (r, k) && IsInsideBoard(r, k)
    {
      SquareCandidatesMembers(b, p, r, k, y);
    }
    assert Located(f, From);
    forall c
      ensures c in ScanCandidates(b, p, BoardSize, 0) <==> IsCandidateOf(b, p, c)
    {
      ScanMembers(f, From, BoardSize, 0, c);
      SquareCandidatesMembers(b, p, c.fromRow, c.fromCol, c);
    }
  }

  /** The opponent finds no candidate exactly when none of its pieces has a move ("Red Wins!"). */
  lemma NoCandidatesIffStuck(b: Board, p: Player)
    requires WellFormed(b)
    ensures Candidates(b, p) == [] <==>
            forall r, c | IsInsideBoard(r, c) && OwnedBy(b, r, c, p) :: ValidMoves(b, r, c) == []
  {
    var cands := Candidates(b, p);
    if cands != [] {
      var c := cands[0];
      assert c in cands && IsCandidateOf(b, p, c);
      var moves := ValidMoves(b, c.fromRow, c.fromCol);
      assert c.move in moves;
    }
    if exists r, c :: IsInsideBoard(r, c) && OwnedBy(b, r, c, p) && ValidMoves(b, r, c) != [] {
      var r, c :| IsInsideBoard(r, c) && OwnedBy(b, r, c, p) && ValidMoves(b, r, c) != [];
      var moves := ValidMoves(b, r, c);
      var cand := Candidate(r, c, moves[0]);
      assert IsCandidateOf(b, p, cand);
      assert cand in cands;
    }
  }

  predicate IsCaptureCandidate(c: Candidate) {
    c.move.capture.Some?
  }

  /** The candidates the opponent picks from: only the captures when there is any capture. */
  function AiChoices(cands: seq<Candidate>): (r: seq<Candidate>)
    ensures forall c | c in r :: c in cands
    ensures |cands| > 0 ==> |r| > 0
    ensures (exists c :: c in cands && c.move.capture.Some?) ==>
            forall c :: c in r <==> c in cands && c.move.capture.Some?
    ensures (forall c | c in cands :: c.move.capture.None?) ==> r == cands
  {
    var captureMoves := Filter(cands, IsCaptureCandidate);
    assert |captureMoves| > 0 ==> captureMoves[0] in captureMoves;
    if |captureMoves| > 0 then captureMoves else cands
  }

  // ---------------------------------------------------------------------------
  // The game state

  class Game {
    var board: Board
    var currentPlayer: Player
    var gameMode: Mode

    ghost predicate Valid()
      reads this
    {
      WellFormed(board) && DarkSquaresOnly(board)
    }

    /** `startGame(mode)`: a fresh board, red to move. */
    constructor (mode: Mode)
      ensures Valid() && board == InitialBoard() && currentPlayer == Red && gameMode == mode
    {
      gameMode := mode;
      board := [];
      currentPlayer := Red;
      new;
      CreateBoard();
      InitialLayout();
    }

    /** `startGame(mode)` / `resetGame()`. */
    method StartGame(mode: Mode)
      modifies this
      ensures Valid() && board == InitialBoard() && currentPlayer == Red && gameMode == mode
    {
      gameMode := mode;
      board := [];
      currentPlayer := Red;
      CreateBoard();
      InitialLayout();
    }

    /** `createBoard()`: fills the board row by row with the starting position. */
    method CreateBoard()
      modifies this
      ensures board == InitialBoard()
      ensures currentPlayer == old(currentPlayer) && gameMode == old(gameMode)
    {
      var rows: Board := [];
      for row := 0 to BoardSize
        invariant |rows| == row
        invariant forall r | 0 <= r < row :: rows[r] == InitialBoard()[r]
      {
        var line: seq<Square> := [];
        for col := 0 to BoardSize
          invariant |line| == col
          invariant forall c | 0 <= c < col :: line[c] == InitialSquare(row, c)
        {
          var square: Square;
          if (row + col) % 2 == 1 {
            if row < 3 {
              square := Occupied(Piece(Black, false));
            } else if row > 4 {
              square := Occupied(Piece(Red, false));
            } else {
              square := Empty;
            }
          } else {
            square := Empty;
          }
          line := line + [square];
        }
        rows := rows + [line];
      }
      board := rows;
    }

    /** `getValidMoves(row, col)`: scans the piece's directions, collecting at most one move each. */
    method GetValidMoves(row: int, col: int) returns (moves: seq<Move>)
      requires Valid() && IsInsideBoard(row, col)
      ensures moves == ValidMoves(board, row, col)
    {
      var b: Board := board;
      var square := b[row][col];
      if square.Empty? {
        return [];
      }
      var piece := square.piece;
      var directions := Directions(piece);
      moves := [];
      for i := 0 to |directions|
        invariant moves == MovesAlong(b, row, col, piece, directions[..i])
      {
        MovesAlongStep(b, row, col, piece, directions, i);
        var (dr, dc) := directions[i];
        ghost var before, step := moves, StepMove(b, row, col, piece, (dr, dc));
        var newRow, newCol := row + dr, col + dc;
        if IsInsideBoard(newRow, newCol) && b[newRow][newCol].Empty? {
          moves := moves + [Move(newRow, newCol, None)];
        } else if IsInsideBoard(newRow, newCol) && b[newRow][newCol].piece.player != piece.player {
          var jumpRow, jumpCol := newRow + dr, newCol + dc;
          if IsInsideBoard(jumpRow, jumpCol) && b[jumpRow][jumpCol].Empty? {
            moves := moves + [Move(jumpRow, jumpCol, Some(Pos(newRow, newCol)))];
          }
        }
        assert moves == before + AsSeq(step);
      }
      assert directions[..|directions|] == directions;
    }

    /** `switchTurn()`: the turn passes to the other side. */
    method SwitchTurn()
      modifies this
      ensures currentPlayer == Opponent(old(currentPlayer))
      ensures board == old(board) && gameMode == old(gameMode)
    {
      currentPlayer := if currentPlayer == Red then Black else Red;
    }

    /**
     * `makeMove(fromRow, fromCol, toRow, toCol, isAI)`: moves the piece if the destination is
     * one of its generated moves, removes a jumped piece, promotes, and keeps the turn for a
     * further capture or passes it.
     */
    method MakeMove(fromRow: int, fromCol: int, toRow: int, toCol: int, isAI: bool)
      requires Valid() && IsInsideBoard(fromRow, fromCol)
      modifies this
      ensures Valid() && gameMode == old(gameMode)
      ensures (board, currentPlayer) ==
              MakeMoveResult(old(board), old(currentPlayer), gameMode, fromRow, fromCol, toRow, toCol, isAI)
    {
      ghost var expected := MakeMoveResult(board, currentPlayer, gameMode, fromRow, fromCol, toRow, toCol, isAI);
      if currentPlayer == Black && gameMode == Ai && !isAI {
        return;
      }
      var piece := board[fromRow][fromCol];
      var validMoves := GetValidMoves(fromRow, fromCol);
      var found := FindMove(validMoves, toRow, toCol);
      if found.None? {
        return;
      }
      var move := found.value;
      MoveKeepsDarkSquares(board, fromRow, fromCol, move);

      var next := SetSquare(board, toRow, toCol, piece);
      next := SetSquare(next, fromRow, fromCol, Empty);
      if move.capture.Some? {
        next := SetSquare(next, move.capture.value.row, move.capture.value.col, Empty);
      }
      if ReachesBackRank(piece.piece.player, toRow) {
        next := SetSquare(next, toRow, toCol, Occupied(piece.piece.(king := true)));
      }
      assert next == ApplyMove(board, fromRow, fromCol, move);
      assert expected == (next, TurnAfter(currentPlayer, move, next));
      board := next;

      if move.capture.Some? {
        var moreMoves := GetValidMoves(toRow, toCol);
        if |Captures(moreMoves)| > 0 {
          return;
        }
      }
      SwitchTurn();
    }

    /** The candidate collection of `aiMove()`: every move of every black piece, row by row. */
    method CollectBlackMoves() returns (moves: seq<Candidate>)
      requires Valid()
      ensures moves == Candidates(board, Black)
    {
      moves := [];
      for row := 0 to BoardSize
        invariant moves == ScanCandidates(board, Black, row, 0)
      {
        for col := 0 to BoardSize
          invariant moves == ScanCandidates(board, Black, row, col)
        {
          ScanUnfolds(board, Black, row, col);
          if board[row][col].Occupied? && board[row][col].piece.player == Black {
            var validMoves := GetValidMoves(row, col);
            moves := moves + Tag(row, col, validMoves);
          }
        }
        ScanRowEnds(board, Black, row);
      }
    }

    /**
     * `executeAIMove(move)`: plays the move as the computer, then returns the captures that the
     * moved piece may chain from its landing square (none after a plain move).
     */
    method ExecuteAiMove(c: Candidate) returns (more: seq<Move>)
      requires Valid() && IsInsideBoard(c.fromRow, c.fromCol) && IsInsideBoard(c.move.row, c.move.col)
      modifies this
      ensures Valid() && gameMode == old(gameMode)
      ensures (board, currentPlayer) ==
              MakeMoveResult(old(board), old(currentPlayer), gameMode, c.fromRow, c.fromCol, c.move.row, c.move.col, true)
      ensures more == if c.move.capture.Some? then Captures(ValidMoves(board, c.move.row, c.move.col)) else []
    {
      MakeMove(c.fromRow, c.fromCol, c.move.row, c.move.col, true);
      more := [];
      if c.move.capture.Some? {
        var moreMoves := GetValidMoves(c.move.row, c.move.col);
        more := Captures(moreMoves);
      }
    }

    /**
     * `aiMove()`: collects black's moves; with none, red wins and nothing changes; otherwise an
     * arbitrary move among the captures (or among all moves when there is no capture) is played,
     * and after a capture the further captures from the landing square are returned.
     */
    method AiMove() returns (result: AiResult)
      requires Valid()
      modifies this
      ensures Valid() && gameMode == old(gameMode)
      ensures result.RedWins? <==> Candidates(old(board), Black) == []
      ensures result.RedWins? ==> board == old(board) && currentPlayer == old(currentPlayer)
      ensures result.Played? ==>
        && result.choice in AiChoices(Candidates(old(board), Black))
        && IsCandidateOf(old(board), Black, result.choice)
        && (board, currentPlayer) ==
           MakeMoveResult(old(board), old(currentPlayer), gameMode, result.choice.fromRow, result.choice.fromCol,
                          result.choice.move.row, result.choice.move.col, true)
        && result.more == if result.choice.move.capture.Some?
                          then Captures(ValidMoves(board, result.choice.move.row, result.choice.move.col))
                          else []
    {
      var moves := CollectBlackMoves();
      if |moves| == 0 {
        return RedWins;
      }
      var choices := AiChoices(moves);
      var move :| move in choices;
      var more := ExecuteAiMove(move);
      result := Played(move, more);
    }
  }
}
