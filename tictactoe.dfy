/**
 * Tic-tac-toe on a 3-by-3 board stored as nine cells, row by row. X moves first; three equal
 * marks along a row, a column or a diagonal win; a board without empty cells is a draw. In the
 * single-player mode the computer plays O: it takes a winning cell, else blocks X, else plays
 * anywhere.
 */
module TicTacToe {

  import opened Wrappers

  datatype Player = X | O

  datatype Cell = Empty | Mark(player: Player)

  datatype Mode = Pvp | Ai

  const Size: int := 9

  function Other(p: Player): (q: Player)
    ensures q != p
  {
    if p == X then O else X
  }

  /** The eight winning triples of cell indices: three rows, three columns, two diagonals. */
  const WinPatterns: seq<(int, int, int)> :=
    [(0, 1, 2), (3, 4, 5), (6, 7, 8),
     (0, 3, 6), (1, 4, 7), (2, 5, 8),
     (0, 4, 8), (2, 4, 6)]

  predicate Matches(s: seq<Cell>, pattern: (int, int, int), p: Player)
    requires |s| == Size
    requires 0 <= pattern.0 < Size && 0 <= pattern.1 < Size && 0 <= pattern.2 < Size
  {
    s[pattern.0] == Mark(p) && s[pattern.1] == Mark(p) && s[pattern.2] == Mark(p)
  }

  /** The cell in row r and column c. */
  function At(s: seq<Cell>, r: int, c: int): Cell
    requires |s| == Size && 0 <= r < 3 && 0 <= c < 3
  {
    s[3 * r + c]
  }

  /** The k-th cell of the diagonal from the top-right corner to the bottom-left corner. */
  function AntiDiagonal(s: seq<Cell>, k: int): Cell
    requires |s| == Size && 0 <= k < 3
  {
    At(s, k, 2 - k)
  }

  predicate RowFilled(s: seq<Cell>, r: int, p: Player)
    requires |s| == Size && 0 <= r < 3
  {
    forall c | 0 <= c < 3 :: At(s, r, c) == Mark(p)
  }

  predicate ColumnFilled(s: seq<Cell>, c: int, p: Player)
    requires |s| == Size && 0 <= c < 3
  {
    forall r | 0 <= r < 3 :: At(s, r, c) == Mark(p)
  }

  /** Three in a row, column or diagonal, written with board coordinates instead of a table. */
  ghost predicate ThreeInLine(s: seq<Cell>, p: Player)
    requires |s| == Size
  {
    (exists r | 0 <= r < 3 :: RowFilled(s, r, p)) ||
    (exists c | 0 <= c < 3 :: ColumnFilled(s, c, p)) ||
    (forall k | 0 <= k < 3 :: At(s, k, k) == Mark(p)) ||
    (forall k | 0 <= k < 3 :: AntiDiagonal(s, k) == Mark(p))
  }

  /** Some pattern of the table is filled with p's mark. */
  predicate PatternFilled(s: seq<Cell>, p: Player)
    requires |s| == Size
  {
    exists i | 0 <= i < |WinPatterns| :: Matches(s, WinPatterns[i], p)
  }

  /**
   * `checkWin(player)`: some winning pattern is filled with the player's mark. The pattern
   * table lists exactly the rows, the columns and the two diagonals, so this is three in a line.
   */
  predicate Wins(s: seq<Cell>, p: Player): (r: bool)
    requires |s| == Size
    ensures r <==> ThreeInLine(s, p)
  {
    PatternIffLine(s, p);
    PatternFilled(s, p)
  }

  lemma PatternIffLine(s: seq<Cell>, p: Player)
    requires |s| == Size
    ensures PatternFilled(s, p) <==> ThreeInLine(s, p)
  {
    if PatternFilled(s, p) {
      PatternGivesLine(s, p);
    }
    if ThreeInLine(s, p) {
      LineGivesPattern(s, p);
    }
  }

  lemma PatternGivesLine(s: seq<Cell>, p: Player)
    requires |s| == Size && PatternFilled(s, p)
    ensures ThreeInLine(s, p)
  {
    var i :| 0 <= i < |WinPatterns| && Matches(s, WinPatterns[i], p);
    if i < 3 {
      assert At(s, i, 0) == Mark(p) && At(s, i, 1) == Mark(p) && At(s, i, 2) == Mark(p);
      assert RowFilled(s, i, p);
    } else if i < 6 {
      assert At(s, 0, i - 3) == Mark(p) && At(s, 1, i - 3) == Mark(p) && At(s, 2, i - 3) == Mark(p);
      assert ColumnFilled(s, i - 3, p);
    } else if i == 6 {
      assert At(s, 0, 0) == Mark(p) && At(s, 1, 1) == Mark(p) && At(s, 2, 2) == Mark(p);
    } else {
      assert AntiDiagonal(s, 0) == Mark(p) && AntiDiagonal(s, 1) == Mark(p) && AntiDiagonal(s, 2) == Mark(p);
    }
  }

  lemma LineGivesPattern(s: seq<Cell>, p: Player)
    requires |s| == Size && ThreeInLine(s, p)
    ensures PatternFilled(s, p)
  {
    if exists r | 0 <= r < 3 :: RowFilled(s, r, p) {
      var r :| 0 <= r < 3 && RowFilled(s, r, p);
      assert At(s, r, 0) == Mark(p) && At(s, r, 1) == Mark(p) && At(s, r, 2) == Mark(p);
      assert Matches(s, WinPatterns[r], p);
    } else if exists c | 0 <= c < 3 :: ColumnFilled(s, c, p) {
      var c :| 0 <= c < 3 && ColumnFilled(s, c, p);
      assert At(s, 0, c) == Mark(p) && At(s, 1, c) == Mark(p) && At(s, 2, c) == Mark(p);
      assert Matches(s, WinPatterns[3 + c], p);
    } else if forall k | 0 <= k < 3 :: At(s, k, k) == Mark(p) {
      assert At(s, 0, 0) == Mark(p) && At(s, 1, 1) == Mark(p) && At(s, 2, 2) == Mark(p);
      assert Matches(s, WinPatterns[6], p);
    } else {
      assert AntiDiagonal(s, 0) == Mark(p) && AntiDiagonal(s, 1) == Mark(p) && AntiDiagonal(s, 2) == Mark(p);
      assert Matches(s, WinPatterns[7], p);
    }
  }

  /** Placing p's mark in cell i completes a line for p. */
  predicate WinsAt(s: seq<Cell>, p: Player, i: int)
    requires |s| == Size && 0 <= i < Size
  {
    s[i] == Empty && Wins(s[i := Mark(p)], p)
  }

  /** The first empty cell from index `from` on where p's mark would win, if any. */
  function FirstWinningMove(s: seq<Cell>, p: Player, from: int): (r: Option<int>)
    requires |s| == Size && 0 <= from <= Size
    ensures r.Some? ==> from <= r.value < Size && WinsAt(s, p, r.value)
    ensures r.Some? ==> forall j | from <= j < r.value :: !WinsAt(s, p, j)
    ensures r.None? <==> forall j | from <= j < Size :: !WinsAt(s, p, j)
    decreases Size - from
  {
    if from == Size then None
    else if WinsAt(s, p, from) then Some(from)
    else FirstWinningMove(s, p, from + 1)
  }

  /**
   * The computer's choice: its own first winning cell, else the first cell where X would win,
   * else any empty cell, and nothing (JavaScript's `undefined`) on a full board.
   */
  ghost predicate IsBestMove(s: seq<Cell>, move: Option<int>)
    requires |s| == Size
  {
    var win := FirstWinningMove(s, O, 0);
    var block := FirstWinningMove(s, X, 0);
    if win.Some? then move == win
    else if block.Some? then move == block
    else if Empty in s then move.Some? && 0 <= move.value < Size && s[move.value] == Empty
    else move == None
  }

  /** The computer completes a line whenever it can, and otherwise takes a cell where X would win. */
  lemma BestMoveWinsOrBlocks(s: seq<Cell>, move: Option<int>)
    requires |s| == Size && IsBestMove(s, move)
    ensures (exists i | 0 <= i < Size :: WinsAt(s, O, i)) ==>
            move.Some? && 0 <= move.value < Size && s[move.value] == Empty && Wins(s[move.value := Mark(O)], O)
    ensures (forall i | 0 <= i < Size :: !WinsAt(s, O, i)) && (exists i | 0 <= i < Size :: WinsAt(s, X, i)) ==>
            move.Some? && 0 <= move.value < Size && WinsAt(s, X, move.value)
    ensures move.None? <==> Empty !in s
    ensures move.Some? ==> 0 <= move.value < Size && s[move.value] == Empty
  {
  }

  // ---------------------------------------------------------------------------
  // The game state

  class Game {
    var cells: array<Cell>
    var currentPlayer: Player
    var gameMode: Mode
    var gameOver: bool

    ghost predicate Valid()
      reads this
    {
      cells.Length == Size
    }

    /** `startGame(mode)`: nine empty cells, X to move. */
    constructor (mode: Mode)
      ensures Valid() && cells[..] == seq(Size, i => Empty)
      ensures currentPlayer == X && gameMode == mode && !gameOver
    {
      gameMode := mode;
      cells := new Cell[Size](i => Empty);
      currentPlayer := X;
      gameOver := false;
    }

    /** `startGame(mode)` / `restart()`: a fresh array of empty cells. */
    method StartGame(mode: Mode)
      modifies this
      ensures Valid() && fresh(cells) && cells[..] == seq(Size, i => Empty)
      ensures currentPlayer == X && gameMode == mode && !gameOver
    {
      gameMode := mode;
      cells := new Cell[Size](i => Empty);
      currentPlayer := X;
      gameOver := false;
    }

    /**
     * `handleClick(e)` on cell `index`: ignored for a taken cell or a finished game; otherwise the
     * current player's mark goes in, a win or a full board ends the game, and else the turn
     * passes. The result says whether the computer, playing O, now takes its turn.
     */
    method HandleClick(index: int) returns (aiTurn: bool)
      requires Valid() && 0 <= index < Size
      modifies this, cells
      ensures Valid() && cells == old(cells) && gameMode == old(gameMode)
      ensures if old(cells[index]) != Empty || old(gameOver)
              then cells[..] == old(cells[..]) && currentPlayer == old(currentPlayer) &&
                   gameOver == old(gameOver) && !aiTurn
              else && cells[..] == old(cells[..])[index := Mark(old(currentPlayer))]
                   && (gameOver <==> Wins(cells[..], old(currentPlayer)) || Empty !in cells[..])
                   && currentPlayer == (if gameOver then old(currentPlayer) else Other(old(currentPlayer)))
                   && (aiTurn <==> gameMode == Ai && currentPlayer == O && !gameOver)
    {
      if cells[index] != Empty || gameOver {
        return false;
      }
      cells[index] := Mark(currentPlayer);
      if Wins(cells[..], currentPlayer) {
        gameOver := true;
        return false;
      }
      if Empty !in cells[..] {
        gameOver := true;
        return false;
      }
      currentPlayer := if currentPlayer == X then O else X;
      aiTurn := gameMode == Ai && currentPlayer == O && !gameOver;
    }

    /**
     * One trial loop of `findBestMove()`: puts p's mark in every empty cell in index order,
     * undoing each trial, and stops at the first cell where the mark wins.
     */
    method FirstWinningCell(p: Player) returns (found: Option<int>)
      requires Valid()
      modifies cells
      ensures cells[..] == old(cells[..])
      ensures found == FirstWinningMove(cells[..], p, 0)
    {
      ghost var s := cells[..];
      for i := 0 to Size
        invariant cells[..] == s
        invariant FirstWinningMove(s, p, 0) == FirstWinningMove(s, p, i)
      {
        if cells[i] == Empty {
          cells[i] := Mark(p);
          assert cells[..] == s[i := Mark(p)];
          if Wins(cells[..], p) {
            cells[i] := Empty;
            assert cells[..] == s;
            return Some(i);
          }
          cells[i] := Empty;
          assert cells[..] == s;
        }
      }
      found := None;
    }

    /** `cells.map(...).filter(...)` in `findBestMove()`: the indices of the empty cells. */
    method EmptyCells() returns (available: seq<int>)
      requires Valid()
      ensures forall x :: x in available <==> 0 <= x < Size && cells[x] == Empty
    {
      available := [];
      for i := 0 to Size
        invariant forall x :: x in available <==> 0 <= x < i && cells[x] == Empty
      {
        if cells[i] == Empty {
          available := available + [i];
        }
      }
    }

    /**
     * `findBestMove()`: a winning cell for O, else one for X, and otherwise an arbitrary
     * empty cell.
     */
    method FindBestMove() returns (move: Option<int>)
      requires Valid()
      modifies cells
      ensures cells[..] == old(cells[..])
      ensures IsBestMove(cells[..], move)
    {
      var win := FirstWinningCell(O);
      if win.Some? {
        return win;
      }
      var block := FirstWinningCell(X);
      if block.Some? {
        return block;
      }
      var available := EmptyCells();
      if |available| == 0 {
        assert Empty !in cells[..] by {
          forall j | 0 <= j < Size
            ensures cells[..][j] != Empty
          {
            assert j !in available;
          }
        }
        return None;
      }
      var k :| 0 <= k < |available|;
      assert available[k] in available;
      move := Some(available[k]);
    }

    /**
     * `aiMove()`: O goes in the chosen cell; a win or a full board ends the game, and otherwise
     * it is X's turn. On a full board there is no cell: the handler stops when it looks up the
     * cell to draw, leaving the game state as it was.
     */
    method AiMove() returns (move: Option<int>)
      requires Valid()
      modifies this, cells
      ensures Valid() && cells == old(cells) && gameMode == old(gameMode)
      ensures IsBestMove(old(cells[..]), move)
      ensures cells[..] == if move.Some? then old(cells[..])[move.value := Mark(O)] else old(cells[..])
      ensures move.None? ==> gameOver == old(gameOver) && currentPlayer == old(currentPlayer)
      ensures move.Some? ==>
              if Wins(cells[..], O) || Empty !in cells[..]
              then gameOver && currentPlayer == old(currentPlayer)
              else gameOver == old(gameOver) && currentPlayer == X
    {
      move := FindBestMove();
      if move.None? {
        return;
      }
      cells[move.value] := Mark(O);
      if Wins(cells[..], O) {
        gameOver := true;
        return;
      }
      if Empty !in cells[..] {
        gameOver := true;
        return;
      }
      currentPlayer := X;
    }
  }
}
