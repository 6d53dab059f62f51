# Browser mini-games: verified rule engines

This project models the rule engines of five browser mini-games in Dafny and proves
properties of them. The games are checkers, connect four, tic-tac-toe, snake and memory.
Each game is one module:

- **Checkers** (`checkers.dfy`). The 8x8 starting position and per-square move generation:
  diagonal steps and single jumps, forward only for a non-king. Applying a move moves the
  piece, removes the jumped piece and crowns a piece on its back rank. After a capture the
  side keeps the turn when another capture is available; otherwise the turn passes. The
  black computer opponent collects every move of its pieces row by row, prefers captures,
  and reports "Red Wins" when it has no move. The board is a field of the `Game` class that
  each move reassigns. `getValidMoves`, `createBoard` and the candidate collection stay
  loops, proved against specification functions.
- **ConnectFour** (`connectfour.dfy`). A 6x7 grid where a disc falls to the lowest empty row
  of its column. The model proves that the filled cells of each column stay one contiguous
  block at the bottom. The win test counts a run both ways from the placed disc along four
  directions. Its loops are proved equal to "four in a row through that disc". The model
  also covers the full-board draw, turn alternation and the computer's column choice. The
  falling animation is modelled as two steps:
  - `HandleClick` locks input and records the pending drop;
  - `FinishDrop` is the animation's completion handler.
- **TicTacToe** (`tictactoe.dfy`). The board is an `array` of nine cells. The model covers
  the 8-pattern win check, proved equal to "a full row, column or diagonal", and the click
  handler. It also covers the one-ply opponent: its own first winning cell, else the first
  cell where X would win, else any empty cell. The opponent writes trial marks into the
  array and is proved to undo every one.
- **Snake** (`snake.dfy`). Direction changes that refuse the exact reverse, and a step of
  one 20-pixel square that wraps around the canvas edges. On a canvas whose sides are whole
  multiples of 20 pixels, a step from a grid square is proved to be a step modulo the canvas
  size. Eating grows the snake and may add an obstacle; otherwise the snake moves
  on. The game ends on an obstacle, on the snake's own body, or when the 60-second
  countdown runs out, and the best score is kept as a maximum.
- **Memory** (`memory.dfy`). Deck sizes per difficulty, and a deck that holds every chosen
  icon exactly twice. The flip, lock and match state machine keeps this invariant: the turned
  cards and the matched cards are distinct deck positions, there are at most two turned
  cards, and the matched cards come in equal-icon pairs. Winning means every card is matched.

`wrappers.dfy` holds the shared `Option` type and a `Filter` function.

Randomness is nondeterministic choice (`:|`) from the set the code computes. This covers
`Math.random` picks, `shuffle`, `randomPosition` and `getRandomColor`. The canvas size and
the stored best score are parameters.

## Model

| member | source | states |
|---|---|---|
| Checkers.InitialLayout | games/checkers.js:19-36 | In the starting position only dark squares (row+col odd) hold pieces. Black fills the dark squares of rows 0-2 and red those of rows 5-7. Rows 3-4 are empty and no piece is a king. |
| Checkers.InitialCounts | games/checkers.js:19-36 | The starting position has exactly twelve pieces of each side. |
| Checkers.Game.CreateBoard | games/checkers.js:19-36 | The nested loops build exactly the starting position; turn and mode are unchanged. |
| Checkers.Game.constructor | games/checkers.js:6-17 | A new game has the starting board, red to move, and the chosen mode. |
| Checkers.Game.StartGame | games/checkers.js:6-17 | Restarting gives the starting board, red to move, the chosen mode, and the board invariant. |
| Checkers.InsideBoardIndexes | games/checkers.js:130-132 | On an 8x8 board, `isInsideBoard(row, col)` holds exactly when (row, col) names one of its cells. |
| Checkers.Directions | games/checkers.js:107-109 | A king has the four diagonal directions. A non-king has two: the diagonals one row up (toward row 0) for red, one row down for black. |
| Checkers.ValidMoves | games/checkers.js:103-128 | An empty square has no moves. A piece has at most 2 moves (4 for a king). Every destination is inside the board and empty. |
| Checkers.ValidMovesExact | games/checkers.js:107-125 | A move is generated exactly when the square holds a piece and the move is a legal simple step or single jump in one of the piece's directions. |
| Checkers.MoveGeometry | games/checkers.js:107-123 | A plain move goes one square diagonally. A capture goes two squares, and its capture square is the midpoint, holding an opposing piece. A non-king red piece lowers its row and a non-king black piece raises it. |
| Checkers.DestinationsDistinct | games/checkers.js:112-140 | Two generated moves of one piece with the same destination are the same move, so the `find` by destination is unambiguous. |
| Checkers.StepMove | games/checkers.js:113-124 | One direction yields a move m exactly when m is the step onto the adjacent empty square, or the jump over an adjacent opposing piece onto the empty square beyond it. |
| Checkers.Game.GetValidMoves | games/checkers.js:103-128 | The direction loop returns exactly `ValidMoves`. |
| Checkers.Captures | games/checkers.js:159 | The filtered moves are exactly the capture moves. |
| Checkers.FindMove | games/checkers.js:139-140 | The result is a move with the requested destination; there is none exactly when no move has that destination. |
| Checkers.Promote | games/checkers.js:151-153 | The piece keeps its side. It is a king afterwards iff it was one, or it is red landing on row 0, or it is black landing on row 7. |
| Checkers.SetSquare | games/checkers.js:142-146 | The written square holds the new content and every other square is unchanged. |
| Checkers.ApplyMove | games/checkers.js:142-153 | When destination, origin and jumped square differ: the destination holds the moving piece, crowned iff it lands on its back rank or was a king; the origin and the jumped square are empty. Every other square is unchanged. |
| Checkers.MoveEffect | games/checkers.js:142-153 | After a valid move the destination holds the piece, promoted on the back rank. The origin and any jumped square are empty and every other square is unchanged. A king stays a king. |
| Checkers.MoveCounts | games/checkers.js:142-153 | A plain move keeps both sides' piece counts. A capture removes exactly one opposing piece and keeps the mover's count. |
| Checkers.SetSquareCount | games/checkers.js:142-146 | Writing one square changes a side's count by the piece removed and the piece put there. |
| Checkers.MoveKeepsDarkSquares | games/checkers.js:142-153 | A valid move keeps every piece on a dark square. |
| Checkers.MakeMoveResult | games/checkers.js:134-168 | The board and turn after `makeMove` remain a well-formed 8x8 board. |
| Checkers.InvalidDestinationIsNoOp | games/checkers.js:139-140 | A destination that is not among the piece's generated moves leaves board and turn unchanged. |
| Checkers.ValidMoveApplied | games/checkers.js:142-167 | An allowed generated move is applied exactly. The mover keeps the turn iff the move captured and the moved piece has another capture from its landing square; otherwise the turn passes to the opponent. |
| Checkers.TurnAfter | games/checkers.js:157-167 | The mover keeps the turn iff the move captured and the piece has a further capture from its landing square; otherwise the turn goes to the opponent. |
| Checkers.Game.MakeMove | games/checkers.js:134-168 | The new board and turn are `MakeMoveResult` of the old ones. A human click during the computer's turn is ignored (line 136). Pieces stay on dark squares. |
| Checkers.Game.SwitchTurn | games/checkers.js:181-182 | The turn passes to the other side; board and mode are unchanged. |
| Checkers.Tag | games/checkers.js:200 | A candidate is in the tagged list iff it starts on the given square and its move is one of the given moves; the list keeps the moves' order. |
| Checkers.ScanMembers | games/checkers.js:196-203 | A row-by-row scan contains an element exactly when the element's square was scanned and yields it. |
| Checkers.Candidates | games/checkers.js:192-203 | A candidate is collected iff it starts on a square holding the side's own piece and its move is one of that piece's generated moves. |
| Checkers.NoCandidatesIffStuck | games/checkers.js:196-208 | There are no candidates exactly when no piece of the side has a generated move. |
| Checkers.Game.CollectBlackMoves | games/checkers.js:193-203 | The nested loops collect exactly `Candidates(board, Black)`. |
| Checkers.AiChoices | games/checkers.js:210-214 | The choices are candidates, and a non-empty candidate list gives non-empty choices. When any capture exists the choices are exactly the captures; otherwise they are all the candidates. |
| Checkers.Game.ExecuteAiMove | games/checkers.js:221-227 | The move is played as the computer's `makeMove`. The result lists the captures available from the landing square after a capture, and nothing after a plain move. |
| Checkers.Game.AiMove | games/checkers.js:192-227 | "Red Wins" comes back exactly when black has no candidate, and then nothing changes. Otherwise the played move is one of `AiChoices` and a real move of a black piece, and board and turn follow `MakeMoveResult`. After a capture the returned continuation is exactly the captures from the landing square on the new board; after a plain move it is empty. |
| ConnectFour.EmptyBoard | games/connect-four.js:19 | The starting grid is 6x7, every cell empty, and satisfies gravity. |
| ConnectFour.Game.constructor | games/connect-four.js:12-27 | A new game: empty grid, red to move, not over, input unlocked, no disc falling. |
| ConnectFour.Game.StartGame | games/connect-four.js:12-27 | Restarting gives an empty grid, red to move, the game not over, input unlocked and no pending drop. |
| ConnectFour.LowestEmptyRow | games/connect-four.js:46-53 | The row is -1 or an empty in-bounds cell of the column. |
| ConnectFour.LowestEmptyRowMeaning | games/connect-four.js:46-53 | The landing row is the largest empty row of the column. It is -1 exactly when every cell of the column is taken. |
| ConnectFour.PlayableIffTopEmpty | games/connect-four.js:46-54 | Under gravity a column has a landing row iff its top cell is empty. |
| ConnectFour.Game.FindRowToFill | games/connect-four.js:46-53 | The downward loop finds exactly `LowestEmptyRow`. |
| ConnectFour.Place | games/connect-four.js:91 | The placed cell holds the disc and every other cell is unchanged. |
| ConnectFour.PlaceKeepsGravity | games/connect-four.js:48-91 | Dropping into the landing row keeps each column's filled cells contiguous down to row 5. |
| ConnectFour.Game.HandleClick | games/connect-four.js:43-58 | The click is ignored when the game is over, input is locked or the column is full. Otherwise input locks and the current player's disc is pending for the landing row. Board and turn are unchanged. |
| ConnectFour.RunSegment | games/connect-four.js:147-162 | The run length from a cell is at least n iff the n cells from there, in that direction, are inside the grid and hold the player. |
| ConnectFour.Game.CountAlong | games/connect-four.js:147-162 | One `while` loop adds exactly the run length. |
| ConnectFour.RunTest | games/connect-four.js:143-165 | From a cell holding the player, counting 1 plus both runs and comparing with 4 is true iff some four consecutive in-grid cells along that line through the cell all hold the player. |
| ConnectFour.Game.CheckDirection | games/connect-four.js:143-165 | The result is exactly the run test for that direction. |
| ConnectFour.CheckWinSpec | games/connect-four.js:133-141 | The four-direction test is true iff some vertical, horizontal or diagonal line of four through the cell holds its colour. |
| ConnectFour.Game.CheckWin | games/connect-four.js:133-141 | The result is true iff there is a line of four through the disc. |
| ConnectFour.FullIffTopRowTaken | games/connect-four.js:167-169 | Under gravity the grid is full iff every top cell is taken. |
| ConnectFour.Game.CheckFull | games/connect-four.js:167-169 | The loops return exactly `IsFull`: no cell is empty. |
| ConnectFour.Game.FinishDrop | games/connect-four.js:88-118 | The pending disc is placed. The game ends iff the disc completes a four or fills the grid. The turn passes only when the game goes on. Input unlocks, and the computer moves next iff the mode is "ai", yellow is to play and the game goes on. |
| ConnectFour.Game.AiMove | games/connect-four.js:172-179 | The result is -1 exactly when every top cell is taken; otherwise it is a column whose top cell is empty. |
| ConnectFour.AiColumnIsPlayable | games/connect-four.js:172-179 | Under gravity the computer returns -1 exactly when the grid is full, and any other column has a landing row. |
| TicTacToe.Wins | games/tic-tac-toe.js:107-117 | The eight patterns hold p iff some row, column or diagonal of the 3x3 grid is entirely p. |
| TicTacToe.FirstWinningMove | games/tic-tac-toe.js:89-95 | The result is the smallest index from `from` on where p's mark wins; it is none iff no such index exists. |
| TicTacToe.Game.constructor | games/tic-tac-toe.js:11-22 | A new game: nine empty cells, X to move, not over. |
| TicTacToe.Game.StartGame | games/tic-tac-toe.js:11-22 | Restarting gives a fresh array of nine empty cells, X to move, the chosen mode and the game not over. |
| TicTacToe.Game.HandleClick | games/tic-tac-toe.js:37-63 | A click on an occupied cell or after the end changes nothing. Otherwise the mark goes into exactly that cell; the game ends iff that wins or fills the board, and the turn passes only when it goes on. The computer moves next iff the mode is "ai", O is to play and the game goes on. |
| TicTacToe.Game.FirstWinningCell | games/tic-tac-toe.js:89-95 | The trial loop leaves the cells as it found them and returns `FirstWinningMove`. |
| TicTacToe.Game.EmptyCells | games/tic-tac-toe.js:103 | The list holds exactly the indices of the empty cells. |
| TicTacToe.Game.FindBestMove | games/tic-tac-toe.js:88-105 | The cells are restored exactly. The move is the first winning cell for O, else the first for X, else some empty cell, else none on a full board. |
| TicTacToe.BestMoveWinsOrBlocks | games/tic-tac-toe.js:88-105 | When O can win, the chosen cell is empty and wins for O. Otherwise, when X could win, it is a cell where X would win. There is no move exactly when the board is full, and any move is an empty cell. |
| TicTacToe.Game.AiMove | games/tic-tac-toe.js:65-86 | The chosen cell is a best move. O goes into it; an O win or a full board then ends the game, and otherwise X is to play. Without a cell (full board) the state is unchanged. |
| Snake.NextDirection | games/snake.js:65-70 | The new direction is never the reverse of the current one. It is the requested one iff that is not the reverse; otherwise the direction is unchanged. |
| Snake.TwoKeysReverse | games/snake.js:65-70 | From any direction, a perpendicular key and then the reverse key, pressed between ticks, turn the snake straight back, because each guard compares with the last request rather than the last step. |
| Snake.KeyDirection | games/snake.js:65-69 | Exactly the four arrow keys name a direction: ArrowLeft gives left, ArrowUp up, ArrowRight right and ArrowDown down. |
| Snake.SnakeGame.SetDirection | games/snake.js:228-233 | The direction becomes `NextDirection` of the request; nothing else changes. |
| Snake.SnakeGame.KeyDown | games/snake.js:65-70 | An arrow key applies `NextDirection`, any other key leaves the direction, and nothing else changes. |
| Snake.NextHead | games/snake.js:126-138 | On a canvas that is a whole number of squares, the wrapped head is the old head plus one square, modulo the canvas size, and stays a grid square. |
| Snake.WrapStep | games/snake.js:135-138 | One square's move along one side, wrapped, equals the move modulo the side length and stays on the grid. |
| Snake.Collision | games/snake.js:184-186 | The head collides iff it equals one of the given parts. |
| Snake.Advance | games/snake.js:144-163 | After eating, the snake is the new head followed by the whole old snake. Otherwise it is the new head followed by the old snake minus its last segment. |
| Snake.ReversalKills | games/snake.js:161-177 | For every snake, a head stepped back onto the neck collides with the body after `Advance` iff the neck stays in the body: always for three or more segments, and always after eating. It illustrates the self-collision test of `Draw` and is used by no other member. |
| Snake.SnakeGame.RandomPosition | games/snake.js:51-56 | The position is the corner of a square of the canvas. |
| Snake.SnakeGame.RandomColor | games/snake.js:82-85 | The colour is one of the seven palette colours. |
| Snake.SnakeGame.constructor | games/snake.js:27-48 | The snake is one segment at (200, 200), heading right, with score 0 and 60 seconds left. It has no body colours, one obstacle, and the stored best score. The start is a grid square iff both canvas sides exceed 200 pixels. |
| Snake.SnakeGame.InitGame | games/snake.js:27-48 | The same reset, with food and obstacles on grid squares. The snake's start is a grid square iff both canvas sides exceed 200 pixels. |
| Snake.SnakeGame.EndGame | games/snake.js:189-199 | The game ends. The best score becomes the maximum of itself and the score, and is saved iff the score beats it. |
| Snake.SnakeGame.UpdateTimer | games/snake.js:73-79 | One second is taken off. The game ends once the time is at most zero, and the best score is then updated. |
| Snake.SnakeGame.HitsObstacle | games/snake.js:166-171 | The scan finds a hit iff the head is on an obstacle. |
| Snake.SnakeGame.EatOrMove | games/snake.js:144-163 | On the food the score rises by one, the snake grows by one and gets one new body colour, and an obstacle is added iff the new score is even. Elsewhere the snake moves on and food, obstacles and colours are unchanged. |
| Snake.SnakeGame.Draw | games/snake.js:87-180 | A tick after the end changes nothing. Otherwise the head steps with wrap-around and the snake eats or moves. The game ends iff the head is on an obstacle or on the body, and the best score is updated when it ends. |
| Memory.AllIcons | games/memory.js:11-13 | The pool is the 36 listed glyphs in their order, and no two of them are equal. |
| Memory.GlyphsDistinct | games/memory.js:11-13 | Two different positions of the pool hold different glyphs. |
| Memory.LayoutFits | games/memory.js:37-46 | Easy, medium and hard give 8, 18 and 32 pairs. Twice the pairs equals the grid side squared, and the pool holds enough icons. |
| Memory.DoubledIsPaired | games/memory.js:52 | A shuffle of distinct icons doubled holds every icon exactly twice. |
| Memory.PrefixOfPoolDistinct | games/memory.js:51 | Any prefix of a permutation of the pool has no repeated icon. |
| Memory.DealIsPaired | games/memory.js:37-52 | The dealt deck holds every chosen icon exactly twice and has as many cards as the grid has cells. |
| Memory.Game.constructor | games/memory.js:11-19 | Before a difficulty is chosen there are no cards and nothing flipped, matched or locked. |
| Memory.Game.Shuffle | games/memory.js:21-23 | The result is a permutation of the input. |
| Memory.Game.StartGame | games/memory.js:25-52 | The pool is reshuffled. The deck is the first `Pairs(d)` pool icons twice, shuffled, with grid-side-squared cards, all face down. Nothing is flipped or matched and the board is unlocked. |
| Memory.Game.Restart | games/memory.js:109-113 | Nothing happens before a difficulty is chosen; otherwise a new game of that difficulty starts. |
| Memory.Game.ResetFlipped | games/memory.js:104-107 | The attempt is cleared and the board unlocked; nothing else changes. |
| Memory.Game.TurnOver | games/memory.js:73-79 | The card turns face up and is added to the attempt. The board locks iff two cards are turned, and the invariant is kept. |
| Memory.MatchRecorded | games/memory.js:85-88 | Appending a matching pair keeps the matched cards distinct, in range and in equal-icon pairs. |
| Memory.Game.CheckMatch | games/memory.js:82-101 | Equal icons join the matched cards, and the attempt is cleared and unlocked. Different icons leave the attempt turned and locked. The result is true iff every card is matched. |
| Memory.Game.ResolveMismatch | games/memory.js:89-94 | Both turned cards go face down, the attempt is cleared and unlocked, and the matched cards are unchanged. |
| Memory.Game.FlipCard | games/memory.js:68-80 | A click while locked or on a face-up card changes nothing. Otherwise the card joins the attempt, and a second card resolves it as in `CheckMatch`. |
| Memory.WonIffAllMatched | games/memory.js:97 | `matched.length === cards.length` holds iff every card is matched, and then every card is face up. |
| Memory.Covers | games/memory.js:97 | n distinct positions below n cover every position. |

## Left out

- Rendering and DOM wiring is not modelled: `drawBoard`, `selectPiece`, `highlightMoves`, `highlightCapture`, the connect-four `createBoard`/`updateBoard`/drop geometry, canvas drawing in snake, and the `classList` updates in memory and tic-tac-toe. These are presentation only.
- Timers are not modelled. Each delayed callback is an explicit operation the caller invokes:
  - the checkers computer's turn after `switchTurn` and its multi-jump chain in `executeAIMove`;
  - the tic-tac-toe and connect-four computer's turn;
  - the connect-four animation end (`FinishDrop`);
  - the memory mismatch turn-back (`ResolveMismatch`);
  - the snake intervals (`Draw`, `UpdateTimer`).

  Interleavings of a restart with a pending callback are therefore not modelled.
- Checkers.Game.ExecuteAiMove: returns the further captures instead of scheduling the next jump; the random pick among them and the repeated call are left to the caller.
- Checkers: the `board[fromRow][fromCol]` owner is not checked by `makeMove`. Click wiring in `drawBoard` restricts human clicks to the current player's pieces, and that wiring is rendering.
- `Math.random` is modelled as an arbitrary choice, so nothing is claimed about uniformity. This covers the shuffles, the computer's picks, food and obstacle placement, and the body colours.
- Memory.Game.Shuffle: `array.sort` with a random comparator is modelled as an arbitrary permutation. The in-place reordering of `iconsPool` is kept as the reassigned `pool` field.
- Memory icons are the 36 glyphs of `iconsPool`, each one code point, modelled as a `char` rather than a JavaScript string. `checkMatch` compares `dataset.icon` strings (games/memory.js:85); comparing the characters agrees with it because each glyph is its whole string, and `GlyphsDistinct` proves no two pool glyphs are equal.
- Memory: a difficulty other than easy, medium or hard (where `pairs` would be `undefined`) is not modelled; the type `Difficulty` has those three values.
- Snake: the `localStorage` read and write of the best score, and its string-to-number coercion, are not modelled. The stored best score is a parameter and `EndGame` reports whether it would be saved.
- Snake: `randomColor` (games/snake.js:59-62) is never called, so it is not modelled.
- Snake: `snakeColors` is a palette string per body segment; the colour used when drawing is rendering.
- Snake: the canvas width and height are parameters, the 20-pixel square size is a constant, and `canvas.focus` and the overlay are not modelled.
- TicTacToe.Game.AiMove: on a full board `findBestMove` returns `undefined`. `cells[undefined] = "O"` then adds a property that no cell reads, and `querySelector` finds no cell, so `cell.textContent` (games/tic-tac-toe.js:69) throws and the handler ends before it writes `gameOver` or `currentPlayer`. The model returns with the state unchanged and does not capture the stray property or the thrown error. `HandleClick` never schedules this call on a full board. A pending call can meet a board that clicks filled during the 500 ms delay, but then `HandleClick` has already ended the game, so the unchanged state is over as well.
- ConnectFour: a click on a column outside 0-6, where `gameBoard[row][col]` is `undefined`, is modelled as a no-op through `LowestEmptyRow` returning -1. That matches the JavaScript result of never finding an empty cell.
- Menus and navigation (`exitGame`, `capitalize`, the mode-select toggles) are not modelled.
- games/capybara.js is not part of this model: it is floating-point physics driven by animation frames.
