/**
 * Connect Four on a 6-row by 7-column grid. Discs fall to the lowest empty cell of the chosen
 * column; a disc that completes four in a line (vertical, horizontal or either diagonal) wins,
 * a full grid is a draw. Row 0 is the top row.
 */
module ConnectFour {

  import opened Wrappers

  datatype Player = Red | Yellow

  datatype Cell = Empty | Taken(player: Player)

  datatype Mode = Pvp | Ai

  /** A disc on its way down: the animation started by a click, landing at (row, col). */
  datatype Drop = Drop(row: int, col: int, player: Player)

  type Board = seq<seq<Cell>>

  const Rows: int := 6
  const Cols: int := 7

  function Opponent(p: Player): (q: Player)
    ensures q != p
  {
    if p == Red then Yellow else Red
  }

  predicate InBounds(r: int, c: int) {
    0 <= r < Rows && 0 <= c < Cols
  }

  predicate WellFormed(b: Board) {
    |b| == Rows && forall r | 0 <= r < Rows :: |b[r]| == Cols
  }

  /** No disc floats: every cell below a disc holds a disc. */
  ghost predicate Gravity(b: Board)
    requires WellFormed(b)
  {
    forall r, k, c | 0 <= r <= k < Rows && 0 <= c < Cols :: b[r][c].Taken? ==> b[k][c].Taken?
  }

  function EmptyBoard(): (b: Board)
    ensures WellFormed(b) && Gravity(b)
    ensures forall r, c | InBounds(r, c) :: b[r][c] == Empty
  {
    seq(Rows, r => seq(Cols, c => Empty))
  }

  /**
   * `gameBoard[row][col] === ""`: a column outside the grid reads as `undefined`, which is not
   * the empty string.
   */
  predicate IsEmptyAt(b: Board, row: int, col: int)
    requires WellFormed(b) && 0 <= row < Rows
  {
    0 <= col < Cols && b[row][col] == Empty
  }

  /** The first empty cell of column col scanning upwards from row, or -1. */
  function LowestEmptyRowFrom(b: Board, col: int, row: int): (r: int)
    requires WellFormed(b) && -1 <= row < Rows
    ensures -1 <= r <= row && (r >= 0 ==> IsEmptyAt(b, r, col))
    decreases row + 1
  {
    if row < 0 then -1
    else if IsEmptyAt(b, row, col) then row
    else LowestEmptyRowFrom(b, col, row - 1)
  }

  /** The row a disc dropped into column col lands in, or -1 for a full (or missing) column. */
  function LowestEmptyRow(b: Board, col: int): (r: int)
    requires WellFormed(b)
    ensures -1 <= r < Rows && (r >= 0 ==> InBounds(r, col) && b[r][col] == Empty)
  {
    LowestEmptyRowFrom(b, col, Rows - 1)
  }

  lemma {:induction false} LowestEmptyRowFromMeaning(b: Board, col: int, row: int)
    requires WellFormed(b) && -1 <= row < Rows
    ensures forall k | LowestEmptyRowFrom(b, col, row) < k <= row :: !IsEmptyAt(b, k, col)
    decreases row + 1
  {
    if row >= 0 && !IsEmptyAt(b, row, col) {
      LowestEmptyRowFromMeaning(b, col, row - 1);
    }
  }

  /**
   * The landing row is an empty cell with only discs below it; -1 means the column is outside
   * the grid or has no empty cell.
   */
  lemma LowestEmptyRowMeaning(b: Board, col: int)
    requires WellFormed(b)
    ensures var r := LowestEmptyRow(b, col);
      && -1 <= r < Rows
      && (r >= 0 ==> 0 <= col < Cols && b[r][col] == Empty && forall k | r < k < Rows :: b[k][col].Taken?)
      && (r == -1 <==> !(0 <= col < Cols) || forall k | 0 <= k < Rows :: b[k][col].Taken?)
  {
    var r := LowestEmptyRow(b, col);
    LowestEmptyRowFromMeaning(b, col, Rows - 1);
    if 0 <= col < Cols {
      forall k | r < k < Rows
        ensures b[k][col].Taken?
      {
        assert !IsEmptyAt(b, k, col);
      }
    }
  }

  /** Under gravity a column can take another disc exactly when its top cell is empty. */
  lemma PlayableIffTopEmpty(b: Board, col: int)
    requires WellFormed(b) && Gravity(b) && 0 <= col < Cols
    ensures LowestEmptyRow(b, col) >= 0 <==> b[0][col] == Empty
  {
    LowestEmptyRowMeaning(b, col);
  }

  /** `gameBoard[row][col] = player`. */
  function Place(b: Board, row: int, col: int, p: Player): (r: Board)
    requires WellFormed(b) && InBounds(row, col)
    ensures WellFormed(r) && r[row][col] == Taken(p)
    ensures forall i, j | InBounds(i, j) && (i, j) != (row, col) :: r[i][j] == b[i][j]
  {
    b[row := b[row][col := Taken(p)]]
  }

  /** A disc placed in the landing row keeps every disc supported. */
  lemma PlaceKeepsGravity(b: Board, col: int, p: Player)
    requires WellFormed(b) && Gravity(b) && LowestEmptyRow(b, col) >= 0
    ensures Gravity(Place(b, LowestEmptyRow(b, col), col, p))
  {
    LowestEmptyRowMeaning(b, col);
  }

  // ---------------------------------------------------------------------------
  // Lines of four

  /** A step direction: each coordinate moves by -1, 0 or 1, and not both by 0. */
  predicate IsDirection(dr: int, dc: int) {
    -1 <= dr <= 1 && -1 <= dc <= 1 && (dr, dc) != (0, 0)
  }

  /** How many more steps of size d keep coordinate x inside 0..n-1. */
  function Reach(x: int, d: int, n: int): nat {
    if d > 0 then (if x < n then n - x else 0)
    else if d < 0 then (if x >= 0 then x + 1 else 0)
    else 0
  }

  /** Coordinate x moved i steps of size d. */
  function Off(x: int, i: nat, d: int): int
    requires -1 <= d <= 1
  {
    if d > 0 then x + i else if d < 0 then x - i else x
  }

  lemma OffNext(x: int, d: int, i: nat)
    requires -1 <= d <= 1
    ensures Off(x + d, i, d) == Off(x, i + 1, d)
  {
  }

  /** Going k steps back and then i <= k steps forward leaves k - i steps back. */
  lemma OffBack(x: int, d: int, k: nat, i: nat)
    requires -1 <= d <= 1 && i <= k
    ensures Off(Off(x, k, -d), i, d) == Off(x, k - i, -d)
  {
  }

  /** Going k steps back and then i >= k steps forward leaves i - k steps forward. */
  lemma OffAhead(x: int, d: int, k: nat, i: nat)
    requires -1 <= d <= 1 && k <= i
    ensures Off(Off(x, k, -d), i, d) == Off(x, i - k, d)
  {
  }

  /** The number of consecutive cells equal to cell from (r, c) on, stepping by (dr, dc). */
  function Run(b: Board, r: int, c: int, dr: int, dc: int, cell: Cell): nat
    requires WellFormed(b) && IsDirection(dr, dc)
    decreases Reach(r, dr, Rows) + Reach(c, dc, Cols)
  {
    if InBounds(r, c) && b[r][c] == cell then 1 + Run(b, r + dr, c + dc, dr, dc, cell) else 0
  }

  /** A run starting on a matching cell is one longer than the run from the next cell, which is nearer the edge. */
  lemma RunStep(b: Board, r: int, c: int, dr: int, dc: int, cell: Cell)
    requires WellFormed(b) && IsDirection(dr, dc) && InBounds(r, c) && b[r][c] == cell
    ensures Run(b, r, c, dr, dc, cell) == 1 + Run(b, r + dr, c + dc, dr, dc, cell)
    ensures Reach(r + dr, dr, Rows) + Reach(c + dc, dc, Cols) < Reach(r, dr, Rows) + Reach(c, dc, Cols)
  {
  }

  /**
   * One `while` loop of `checkDirection`: from (r, c) on, adds one to count for every matching
   * cell until the line leaves the grid or meets another cell.
   */
  method CountAlong(b: Board, r: int, c: int, dr: int, dc: int, cell: Cell, count: int) returns (total: int)
    requires WellFormed(b) && IsDirection(dr, dc)
    ensures total == count + Run(b, r, c, dr, dc, cell)
  {
    total := count;
    var i, j := r, c;
    while InBounds(i, j) && b[i][j] == cell
      invariant total + Run(b, i, j, dr, dc, cell) == count + Run(b, r, c, dr, dc, cell)
      decreases Reach(i, dr, Rows) + Reach(j, dc, Cols)
    {
      RunStep(b, i, j, dr, dc, cell);
      total := total + 1;
      i, j := i + dr, j + dc;
    }
  }

  /** The n cells from (r, c) stepping by (dr, dc) all lie on the grid and equal cell. */
  ghost predicate Segment(b: Board, r: int, c: int, dr: int, dc: int, n: nat, cell: Cell)
    requires WellFormed(b) && IsDirection(dr, dc)
  {
    forall i: nat | i < n :: Holds(b, Off(r, i, dr), Off(c, i, dc), cell)
  }

  /** (r, c) lies on the grid and holds cell. */
  predicate Holds(b: Board, r: int, c: int, cell: Cell)
    requires WellFormed(b)
  {
    InBounds(r, c) && b[r][c] == cell
  }

  /** A run is at least n long exactly when the n cells it starts with match. */
  lemma {:induction false} RunSegment(b: Board, r: int, c: int, dr: int, dc: int, n: nat, cell: Cell)
    requires WellFormed(b) && IsDirection(dr, dc)
    ensures Run(b, r, c, dr, dc, cell) >= n <==> Segment(b, r, c, dr, dc, n, cell)
    decreases n
  {
    if n > 0 {
      RunSegment(b, r + dr, c + dc, dr, dc, n - 1, cell);
      if Holds(b, r, c, cell) {
        if Segment(b, r, c, dr, dc, n, cell) {
          SegmentTail(b, r, c, dr, dc, n, cell);
        }
        if Segment(b, r + dr, c + dc, dr, dc, n - 1, cell) {
          SegmentCons(b, r, c, dr, dc, n, cell);
        }
      } else {
        assert !Holds(b, Off(r, 0, dr), Off(c, 0, dc), cell);
      }
    }
  }

  /** Dropping the first cell of a segment leaves a segment one shorter. */
  lemma SegmentTail(b: Board, r: int, c: int, dr: int, dc: int, n: nat, cell: Cell)
    requires WellFormed(b) && IsDirection(dr, dc) && n > 0 && Segment(b, r, c, dr, dc, n, cell)
    ensures Segment(b, r + dr, c + dc, dr, dc, n - 1, cell)
  {
    var r1, c1 := r + dr, c + dc;
    forall i: nat | i < n - 1
      ensures Holds(b, Off(r1, i, dr), Off(c1, i, dc), cell)
    {
      OffNext(r, dr, i);
      OffNext(c, dc, i);
    }
  }

  /** A matching cell followed by a segment is a segment one longer. */
  lemma SegmentCons(b: Board, r: int, c: int, dr: int, dc: int, n: nat, cell: Cell)
    requires WellFormed(b) && IsDirection(dr, dc) && n > 0 && Holds(b, r, c, cell)
    requires Segment(b, r + dr, c + dc, dr, dc, n - 1, cell)
    ensures Segment(b, r, c, dr, dc, n, cell)
  {
    forall i: nat | i < n
      ensures Holds(b, Off(r, i, dr), Off(c, i, dc), cell)
    {
      if i > 0 {
        OffNext(r, dr, i - 1);
        OffNext(c, dc, i - 1);
      }
    }
  }

  /** The cell at (row, col) is part of four equal cells in a line in direction (dr, dc). */
  ghost predicate FourThrough(b: Board, row: int, col: int, dr: int, dc: int, cell: Cell)
    requires WellFormed(b) && IsDirection(dr, dc)
  {
    exists k: nat | k < 4 :: FourAt(b, row, col, dr, dc, k, cell)
  }

  /** Four equal cells in direction (dr, dc) of which (row, col) is the k-th, counting from 0. */
  ghost predicate FourAt(b: Board, row: int, col: int, dr: int, dc: int, k: nat, cell: Cell)
    requires WellFormed(b) && IsDirection(dr, dc)
  {
    Segment(b, Off(row, k, -dr), Off(col, k, -dc), dr, dc, 4, cell)
  }

  /** The disc itself plus the matching cells ahead of it and behind it. */
  function LineCount(b: Board, row: int, col: int, dr: int, dc: int, cell: Cell): nat
    requires WellFormed(b) && IsDirection(dr, dc)
  {
    1 + Run(b, row + dr, col + dc, dr, dc, cell) + Run(b, row - dr, col - dc, -dr, -dc, cell)
  }

  /**
   * The test of `checkDirection`: at least four matching cells counted both ways. From a cell
   * that holds `cell`, this finds four exactly when a line of four goes through it.
   */
  predicate RunTest(b: Board, row: int, col: int, dr: int, dc: int, cell: Cell): (r: bool)
    requires WellFormed(b) && IsDirection(dr, dc)
    ensures InBounds(row, col) && b[row][col] == cell ==> (r <==> FourThrough(b, row, col, dr, dc, cell))
  {
    LineCountMeaning(b, row, col, dr, dc, cell);
    LineCount(b, row, col, dr, dc, cell) >= 4
  }

  lemma LineCountMeaning(b: Board, row: int, col: int, dr: int, dc: int, cell: Cell)
    requires WellFormed(b) && IsDirection(dr, dc)
    ensures InBounds(row, col) && b[row][col] == cell ==>
      (LineCount(b, row, col, dr, dc, cell) >= 4 <==> FourThrough(b, row, col, dr, dc, cell))
  {
    if InBounds(row, col) && b[row][col] == cell {
      if LineCount(b, row, col, dr, dc, cell) >= 4 {
        CountFindsFour(b, row, col, dr, dc, cell);
      }
      if FourThrough(b, row, col, dr, dc, cell) {
        var k: nat :| k < 4 && FourAt(b, row, col, dr, dc, k, cell);
        FourGivesCount(b, row, col, dr, dc, k, cell);
      }
    }
  }

  lemma CountFindsFour(b: Board, row: int, col: int, dr: int, dc: int, cell: Cell)
    requires WellFormed(b) && IsDirection(dr, dc) && InBounds(row, col) && b[row][col] == cell
    requires LineCount(b, row, col, dr, dc, cell) >= 4
    ensures FourThrough(b, row, col, dr, dc, cell)
  {
    var fwd := Run(b, row + dr, col + dc, dr, dc, cell);
    var bwd := Run(b, row - dr, col - dc, -dr, -dc, cell);
    var k: nat := if bwd >= 3 then 3 else bwd;
    assert 3 - k <= fwd;
    RunSegment(b, row + dr, col + dc, dr, dc, 3 - k, cell);
    RunSegment(b, row - dr, col - dc, -dr, -dc, k, cell);
    SegmentsJoin(b, row, col, dr, dc, k, cell);
    assert FourAt(b, row, col, dr, dc, k, cell);
  }

  lemma FourGivesCount(b: Board, row: int, col: int, dr: int, dc: int, k: nat, cell: Cell)
    requires WellFormed(b) && IsDirection(dr, dc) && k < 4
    requires FourAt(b, row, col, dr, dc, k, cell)
    ensures LineCount(b, row, col, dr, dc, cell) >= 4
  {
    SegmentsSplit(b, row, col, dr, dc, k, cell);
    RunSegment(b, row + dr, col + dc, dr, dc, 3 - k, cell);
    RunSegment(b, row - dr, col - dc, -dr, -dc, k, cell);
  }

  /** k matching cells behind (row, col), the cell itself and 3 - k ahead make a line of four. */
  lemma SegmentsJoin(b: Board, row: int, col: int, dr: int, dc: int, k: nat, cell: Cell)
    requires WellFormed(b) && IsDirection(dr, dc) && InBounds(row, col) && b[row][col] == cell && k < 4
    requires Segment(b, row + dr, col + dc, dr, dc, 3 - k, cell)
    requires Segment(b, row - dr, col - dc, -dr, -dc, k, cell)
    ensures Segment(b, Off(row, k, -dr), Off(col, k, -dc), dr, dc, 4, cell)
  {
    var r0, c0 := Off(row, k, -dr), Off(col, k, -dc);
    forall i: nat | i < 4
      ensures Holds(b, Off(r0, i, dr), Off(c0, i, dc), cell)
    {
      if i < k {
        OffBack(row, dr, k, i);
        OffBack(col, dc, k, i);
        OffNext(row, -dr, k - 1 - i);
        OffNext(col, -dc, k - 1 - i);
      } else if i == k {
        OffBack(row, dr, k, i);
        OffBack(col, dc, k, i);
      } else {
        OffAhead(row, dr, k, i);
        OffAhead(col, dc, k, i);
        OffNext(row, dr, i - k - 1);
        OffNext(col, dc, i - k - 1);
      }
    }
  }

  /** A line of four with (row, col) at position k gives k matching cells behind and 3 - k ahead. */
  lemma SegmentsSplit(b: Board, row: int, col: int, dr: int, dc: int, k: nat, cell: Cell)
    requires WellFormed(b) && IsDirection(dr, dc) && k < 4
    requires Segment(b, Off(row, k, -dr), Off(col, k, -dc), dr, dc, 4, cell)
    ensures Segment(b, row + dr, col + dc, dr, dc, 3 - k, cell)
    ensures Segment(b, row - dr, col - dc, -dr, -dc, k, cell)
  {
    SegmentAhead(b, row, col, dr, dc, k, cell);
    SegmentBehind(b, row, col, dr, dc, k, cell);
  }

  lemma SegmentAhead(b: Board, row: int, col: int, dr: int, dc: int, k: nat, cell: Cell)
    requires WellFormed(b) && IsDirection(dr, dc) && k < 4
    requires Segment(b, Off(row, k, -dr), Off(col, k, -dc), dr, dc, 4, cell)
    ensures Segment(b, row + dr, col + dc, dr, dc, 3 - k, cell)
  {
    var rf, cf := row + dr, col + dc;
    forall i: nat | i < 3 - k
      ensures Holds(b, Off(rf, i, dr), Off(cf, i, dc), cell)
    {
      OffAhead(row, dr, k, k + 1 + i);
      OffAhead(col, dc, k, k + 1 + i);
      OffNext(row, dr, i);
      OffNext(col, dc, i);
    }
  }

  lemma SegmentBehind(b: Board, row: int, col: int, dr: int, dc: int, k: nat, cell: Cell)
    requires WellFormed(b) && IsDirection(dr, dc) && k < 4
    requires Segment(b, Off(row, k, -dr), Off(col, k, -dc), dr, dc, 4, cell)
    ensures Segment(b, row - dr, col - dc, -dr, -dc, k, cell)
  {
    var rb, cb, ndr, ndc := row - dr, col - dc, -dr, -dc;
    forall i: nat | i < k
      ensures Holds(b, Off(rb, i, ndr), Off(cb, i, ndc), cell)
    {
      OffBack(row, dr, k, k - 1 - i);
      OffBack(col, dc, k, k - 1 - i);
      OffNext(row, -dr, i);
      OffNext(col, -dc, i);
    }
  }

  /** The four directions `checkWin` tries: vertical, horizontal and the two diagonals. */
  ghost predicate WinsThrough(b: Board, row: int, col: int, cell: Cell)
    requires WellFormed(b)
  {
    FourThrough(b, row, col, 1, 0, cell) || FourThrough(b, row, col, 0, 1, cell) ||
    FourThrough(b, row, col, 1, 1, cell) || FourThrough(b, row, col, 1, -1, cell)
  }

  /**
   * `checkWin(row, col)` as a value: some direction's run test succeeds for the disc's colour,
   * that is, a line of four through the disc.
   */
  predicate CheckWinSpec(b: Board, row: int, col: int): (r: bool)
    requires WellFormed(b) && InBounds(row, col)
    ensures r <==> WinsThrough(b, row, col, b[row][col])
  {
    var cell := b[row][col];
    RunTest(b, row, col, 1, 0, cell) || RunTest(b, row, col, 0, 1, cell) ||
    RunTest(b, row, col, 1, 1, cell) || RunTest(b, row, col, 1, -1, cell)
  }

  /** `isFull()`: no cell is empty. */
  predicate IsFull(b: Board)
    requires WellFormed(b)
  {
    forall r, c | 0 <= r < Rows && 0 <= c < Cols :: b[r][c].Taken?
  }

  /** Under gravity the grid is full exactly when the whole top row is taken. */
  lemma FullIffTopRowTaken(b: Board)
    requires WellFormed(b) && Gravity(b)
    ensures IsFull(b) <==> forall c | 0 <= c < Cols :: b[0][c].Taken?
  {
    if forall c | 0 <= c < Cols :: b[0][c].Taken? {
      forall r, c | 0 <= r < Rows && 0 <= c < Cols
        ensures b[r][c].Taken?
      {
        assert b[0][c].Taken?;
      }
    }
  }

  // ---------------------------------------------------------------------------
  // The game state

  class Game {
    var board: Board
    var currentPlayer: Player
    var gameMode: Mode
    var gameOver: bool
    /** Input is refused while a disc is falling. */
    var lockInput: bool
    /** The disc whose drop animation is running, if any. */
    var pending: Option<Drop>

    ghost predicate Valid()
      reads this
    {
      && WellFormed(board) && Gravity(board)
      && (lockInput <==> pending.Some?)
      && (pending.Some? ==>
            && !gameOver
            && pending.value.player == currentPlayer
            && pending.value.row == LowestEmptyRow(board, pending.value.col)
            && pending.value.row >= 0)
    }

    /** `startGame(mode)`: an empty grid, red to move. */
    constructor (mode: Mode)
      ensures Valid() && board == EmptyBoard() && currentPlayer == Red && gameMode == mode
      ensures !gameOver && !lockInput && pending == None
    {
      gameMode := mode;
      gameOver := false;
      currentPlayer := Red;
      lockInput := false;
      pending := None;
      board := EmptyBoard();
    }

    /** `startGame(mode)` / `restart()`. */
    method StartGame(mode: Mode)
      modifies this
      ensures Valid() && board == EmptyBoard() && currentPlayer == Red && gameMode == mode
      ensures !gameOver && !lockInput && pending == None
    {
      gameMode := mode;
      gameOver := false;
      currentPlayer := Red;
      lockInput := false;
      pending := None;
      board := EmptyBoard();
    }

    /** The scan of `handleClick`: from the bottom row up, the first empty cell of the column. */
    method FindRowToFill(col: int) returns (rowToFill: int)
      requires WellFormed(board)
      ensures rowToFill == LowestEmptyRow(board, col)
    {
      rowToFill := -1;
      var row := Rows - 1;
      while row >= 0
        invariant -1 <= row < Rows
        invariant LowestEmptyRow(board, col) == LowestEmptyRowFrom(board, col, row)
      {
        if IsEmptyAt(board, row, col) {
          rowToFill := row;
          break;
        }
        row := row - 1;
      }
    }

    /**
     * `handleClick(col)`: ignored while the game is over or a disc is falling, and for a full
     * column or one outside the grid; otherwise input is locked and the current player's disc
     * starts falling to the landing row.
     */
    method HandleClick(col: int)
      requires Valid()
      modifies this
      ensures Valid()
      ensures board == old(board) && currentPlayer == old(currentPlayer) && gameMode == old(gameMode)
      ensures gameOver == old(gameOver)
      ensures if old(gameOver) || old(lockInput) || LowestEmptyRow(board, col) == -1
              then lockInput == old(lockInput) && pending == old(pending)
              else lockInput && pending == Some(Drop(LowestEmptyRow(board, col), col, currentPlayer))
    {
      if gameOver || lockInput {
        return;
      }
      var rowToFill := FindRowToFill(col);
      if rowToFill == -1 {
        return;
      }
      lockInput := true;
      pending := Some(Drop(rowToFill, col, currentPlayer));
    }

    /** `checkDirection(row, col, rowDir, colDir, player)`: counts matching cells both ways. */
    method CheckDirection(row: int, col: int, rowDir: int, colDir: int, player: Cell) returns (win: bool)
      requires WellFormed(board) && IsDirection(rowDir, colDir)
      ensures win == RunTest(board, row, col, rowDir, colDir, player)
    {
      var count := 1;
      count := CountAlong(board, row + rowDir, col + colDir, rowDir, colDir, player, count);
      count := CountAlong(board, row - rowDir, col - colDir, -rowDir, -colDir, player, count);
      win := count >= 4;
    }

    /** `checkWin(row, col)`: a line of four through the disc at (row, col), in any direction. */
    method CheckWin(row: int, col: int) returns (win: bool)
      requires WellFormed(board) && InBounds(row, col)
      ensures win == CheckWinSpec(board, row, col)
      ensures win <==> WinsThrough(board, row, col, board[row][col])
    {
      var player := board[row][col];
      win := CheckDirection(row, col, 1, 0, player);
      if win { return; }
      win := CheckDirection(row, col, 0, 1, player);
      if win { return; }
      win := CheckDirection(row, col, 1, 1, player);
      if win { return; }
      win := CheckDirection(row, col, 1, -1, player);
    }

    /** `isFull()`, checking every cell. */
    method CheckFull() returns (full: bool)
      requires WellFormed(board)
      ensures full == IsFull(board)
    {
      full := true;
      for r := 0 to Rows
        invariant full == forall i, j | 0 <= i < r && 0 <= j < Cols :: board[i][j].Taken?
      {
        for c := 0 to Cols
          invariant full == ((forall i, j | 0 <= i < r && 0 <= j < Cols :: board[i][j].Taken?) &&
                             forall j | 0 <= j < c :: board[r][j].Taken?)
        {
          full := full && board[r][c].Taken?;
        }
      }
    }

    /**
     * The end of the drop animation: the disc is placed; a line of four through it ends the
     * game with its player as winner, a full grid ends it as a draw, and otherwise the turn
     * passes. Input is unlocked. The result says whether the computer, playing yellow, now
     * takes its turn.
     */
    method FinishDrop() returns (aiTurn: bool)
      requires Valid() && pending.Some?
      modifies this
      ensures Valid() && !lockInput && pending == None && gameMode == old(gameMode)
      ensures var d := old(pending).value;
        && board == Place(old(board), d.row, d.col, d.player)
        && (gameOver <==> WinsThrough(board, d.row, d.col, Taken(d.player)) || IsFull(board))
        && currentPlayer == (if gameOver then old(currentPlayer) else Opponent(old(currentPlayer)))
      ensures aiTurn <==> gameMode == Ai && currentPlayer == Yellow && !gameOver
    {
      var d := pending.value;
      PlaceKeepsGravity(board, d.col, d.player);
      board := Place(board, d.row, d.col, d.player);
      pending := None;
      var win := CheckWin(d.row, d.col);
      if win {
        gameOver := true;
        lockInput := false;
        return false;
      }
      var full := CheckFull();
      if full {
        gameOver := true;
        lockInput := false;
        return false;
      }
      currentPlayer := if currentPlayer == Red then Yellow else Red;
      lockInput := false;
      aiTurn := gameMode == Ai && currentPlayer == Yellow && !gameOver;
    }

    /**
     * `aiMove()`: a column whose top cell is empty, chosen arbitrarily, or -1 when there is none.
     */
    method AiMove() returns (col: int)
      requires WellFormed(board)
      ensures col == -1 <==> forall c | 0 <= c < Cols :: board[0][c].Taken?
      ensures col != -1 ==> 0 <= col < Cols && board[0][col] == Empty
    {
      var availableCols: seq<int> := [];
      for c := 0 to Cols
        invariant forall x :: x in availableCols <==> 0 <= x < c && board[0][x] == Empty
      {
        if board[0][c] == Empty {
          availableCols := availableCols + [c];
        }
      }
      if |availableCols| == 0 {
        forall c | 0 <= c < Cols
          ensures board[0][c].Taken?
        {
          assert c !in availableCols;
        }
        return -1;
      }
      var i :| 0 <= i < |availableCols|;
      col := availableCols[i];
      assert col in availableCols;
    }
  }

  /** The computer's column always takes a disc, and it has none exactly when the grid is full. */
  lemma AiColumnIsPlayable(b: Board, col: int)
    requires WellFormed(b) && Gravity(b)
    requires col == -1 <==> forall c | 0 <= c < Cols :: b[0][c].Taken?
    requires col != -1 ==> 0 <= col < Cols && b[0][col] == Empty
    ensures col == -1 <==> IsFull(b)
    ensures col != -1 ==> LowestEmptyRow(b, col) >= 0
  {
    FullIffTopRowTaken(b);
    if col != -1 {
      PlayableIffTopEmpty(b, col);
    }
  }
}
