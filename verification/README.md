# 5x5 Tic Tac Toe: board canonicalisation and game state, in Dafny

This project models two parts of a 5x5 Tic Tac Toe program. Four tokens in a row win. A board is 5 rows of 5
cells, each holding 0 (empty), 1 (X) or 2 (O).

- **Board canonicalisation** (`game_states.dfy`, module `GameStates`, from `src/game_states.py`).
  - `rotate` turns a board by quarter-turns, with the count taken modulo 4.
  - `reflect` transposes it, with the count taken modulo 2.
  - The eight symmetries of the square are the pairs (ref, rot), with ref in 0..1 and rot in 0..3.
    The forward function of a pair is `rotate(reflect(b, ref), rot)` and its inverse is
    `reflect(rotate(b, -rot), -ref)`.
  - `board2state` scores each of the eight images. It flattens the image row-major and reads the 25
    cells as a base-3 number, most significant digit first. It keeps the image with the smallest score,
    taking the first one on ties, together with the inverse that maps it back to the board.
  - The Python lambdas become `Sym(ref, rot)` tags, applied by `Forward` and `Inverse`.
- **Game state** (`game_logic.dfy`, module `GameLogic`, from `game_logic.py`).
  - The module's globals become the fields of a class `Game`: `board`, `usedSquares`, `gameOver`,
    `winner`, `winningRow` and `boardHistory`.
  - `place_token` writes a token, counts the square and records a row-major snapshot. From the seventh
    token on, it runs the end-of-game scan.
  - The scan visits cells in row-major order and directions (i, j) in lexicographic order. It stops at
    the first four-in-a-row that starts on an occupied cell, sets the winner, appends the four coordinates
    and writes the game record. With no line found, a full board ends the game as a tie.
  - `reset` restores the initial state.
  - `record_game` builds the text `"{winner},{state_1},{state_2},...\n"`. `RecordGame` returns that
    string; `DeclareWinner`, `UpdateGameState` and `PlaceToken` pass it on as `Some(line)`, or return
    `None` when no record was written.

The loops of the source stay loops: `Rotate`, `Reflect`, `Tern2Int`, `RecordGame` and the scan. Each one is
proved equal to a specification function (`Rotated`, `Reflected`, `TernValue`, `RecordLine`, `FirstLine`).
The lemmas then state what the source promises about those functions.

## Model

| member | source | states |
|---|---|---|
| GameStates.QuarterTurn | src/game_states.py:16-21 | one quarter-turn moves cell (i, j) to (j, 4 - i) and keeps a 5x5 board |
| GameStates.Rotate | src/game_states.py:4-23 | the recursive nested-loop rotation returns exactly `Rotated(board, n)`: `n % 4` quarter-turns, Python-style modulo for negative `n` |
| GameStates.FourTurns | src/game_states.py:10-23 | four quarter-turns give the board back |
| GameStates.TurnsAdd | src/game_states.py:23 | j quarter-turns followed by k quarter-turns are j + k quarter-turns |
| GameStates.RotateAdd | src/game_states.py:10-23 | rotating by m and then by n is rotating by m + n |
| GameStates.RotationPeriod | src/game_states.py:96-97 | rotation has period 4: `rotate(b,0) == rotate(b,4) == rotate(b,-4) == b`, `rotate(b,1) == rotate(b,5) == rotate(b,-3)`, and four single turns give b back |
| GameStates.RotateKeepsCentre | src/game_states.py:98 | every rotation leaves the centre cell (2, 2) unchanged |
| GameStates.Transpose | src/game_states.py:33-38 | the transpose moves cell (i, j) to (j, i) |
| GameStates.Reflect | src/game_states.py:26-40 | the nested-loop reflection returns exactly `Reflected(board, n)`: the board for even n and its transpose for odd n |
| GameStates.TransposeTwice | src/game_states.py:33-40 | transposing twice gives the board back |
| GameStates.ReflectionInvolution | src/game_states.py:101-102 | `reflect(b,0) == reflect(b,2) == reflect(b,-2) == b`, `reflect(b,1) == reflect(b,3) == reflect(b,-1)`, and reflecting twice by the same count is the identity |
| GameStates.ReflectKeepsDiagonal | src/game_states.py:103-107 | a reflection leaves every diagonal cell b[i][i] unchanged |
| GameStates.ReflectRotate | src/game_states.py:50-51 | reflecting a rotated board equals rotating the reflected board the other way; this is the dihedral relation the inverse functions rely on |
| GameStates.MakeSymmetryFunctions | src/game_states.py:43-53 | exactly 8 symmetries, the one at index 4 * ref + rot being (ref, rot); every valid tag sits at that index |
| GameStates.InverseForward | src/game_states.py:50-51 | for every board and every tag, applying the inverse after the forward function gives the board back |
| GameStates.ForwardInverse | src/game_states.py:50-51 | applying the forward function after the inverse also gives the board back |
| GameStates.ComposeForward | src/game_states.py:48-51 | composing two symmetries is again one of the eight, the tag given by `Compose` |
| GameStates.InverseIsForward | src/game_states.py:51 | every inverse function is itself the forward function of one of the eight tags |
| GameStates.ForwardKeepsTrits | src/game_states.py:50 | every symmetry maps a board of 0/1/2 cells to a board of 0/1/2 cells |
| GameStates.FlattenRowMajor | src/game_states.py:56-57 | flattening rows of five gives 5 * rows cells, with cell (i, j) at index 5 * i + j |
| GameStates.FlattenInjective | src/game_states.py:56-57 | two boards with the same flattening are equal |
| GameStates.Tern2Int | src/game_states.py:60-67 | the loop over the reversed digits, adding digit * 3^i, returns the most-significant-first base-3 value `TernValue(digits)` |
| GameStates.TernValueBounds | src/game_states.py:60-67 | for digits in 0..2 the value lies in 0 .. 3^len - 1 |
| GameStates.TernValueInjective | src/game_states.py:60-67 | equal-length digit lists in 0..2 with the same value are equal |
| GameStates.ScoreBoundsAndInjective | src/game_states.py:82-84 | a board's score lies in 0 .. 3^25 - 1, and two trit boards with the same score are equal |
| GameStates.ArgMin | src/game_states.py:70-71 | the index returned holds an element no larger than any other, and no earlier index holds an equal one (the first minimum) |
| GameStates.Board2State | src/game_states.py:74-88 | the state is the image at the first index of minimal score, the returned tag is that index's tag, and its inverse maps the state back to the board |
| GameStates.ImageOfImage | src/game_states.py:43-53 | an image of an image is one of the eight images |
| GameStates.CanonicalIsImage | src/game_states.py:82-86 | the canonical state is one of the eight images of the board |
| GameStates.CanonicalScoreInvariant | src/game_states.py:82-86 | a board and any of its images have canonical states of the same score |
| GameStates.CanonicalKeepsTrits | src/game_states.py:82-86 | the canonical state of a trit board is a trit board |
| GameStates.CanonicalInvariant | src/game_states.py:74-88 | a trit board and every one of its eight images have the same canonical state |
| GameStates.CanonicalOfImages | src/game_states.py:112-117 | the returned inverse maps the state back to the board, and `rotate(b,-1)` and `reflect(b,-1)` have the board's canonical state |
| GameStates.EmptyBoardFixed | src/game_states.py:43-53 | every symmetry maps the empty board to itself |
| GameStates.EmptyBoardCanonical | src/game_states.py:70-88 | the empty board is its own state, reached by the first tag (0, 0), because ties go to the first index |
| GameLogic.WinningLineCells | game_logic.py:69-104 | all four cells of a winning line are on the board and hold the starting cell's token |
| GameLogic.FirstLineFromSpec | game_logic.py:67-118 | the scan from any position finds the winning line of smallest rank at or after that position, or there is none |
| GameLogic.FirstLineSpec | game_logic.py:67-118 | the scan result is a winning line, starts on an occupied cell and comes first in row-major cell then direction order; no result means no four-in-a-row exists anywhere |
| GameLogic.StateStringOfTrits | game_logic.py:171-175 | a board snapshot of 0/1/2 values is written one digit per cell |
| GameLogic.HistoryStringsOfTrits | game_logic.py:170-175 | every recorded snapshot of trits becomes a 25-digit string, digit c being cell c |
| GameLogic.JoinLayout | game_logic.py:178 | joining 25-character strings with commas puts string k at offset 26 * k, followed by a comma unless it is the last |
| GameLogic.RecordLineShape | game_logic.py:181-182 | the record line is the winner's digit, a comma, the joined snapshots and a line break |
| GameLogic.RecordLayout | game_logic.py:166-182 | the record line has 26 * n + 2 characters (3 when empty); it starts with the winner's digit and a comma, gives one digit per cell in recording order with commas between snapshots, and ends in a line break |
| GameLogic.Game.constructor | game_logic.py:17-35 | the initial globals: an empty 5x5 board, no used squares, game not over, no winner, no winning row, no history |
| GameLogic.Game.Reset | game_logic.py:129-148 | reset restores exactly the initial state |
| GameLogic.Game.RecordBoard | game_logic.py:154-159 | exactly one snapshot is appended to the history: the 25 cells in row-major order, cell (i, j) at 5 * i + j; nothing else changes |
| GameLogic.Game.RecordGame | game_logic.py:166-182 | the string built cell by cell and joined by commas is `RecordLine(winner, boardHistory)` |
| GameLogic.Game.CheckDirection | game_logic.py:73-104 | the direction test reports four in a row exactly when (i, j) is not (0, 0) and the cells 1, 2 and 3 steps away are on the board and hold the token |
| GameLogic.Game.DeclareWinner | game_logic.py:106-118 | on a winning line the game ends, the winner is the line's nonzero token, exactly its four coordinates are appended to the winning row, and the record line is produced |
| GameLogic.Game.UpdateGameState | game_logic.py:61-122 | the scan acts on the first winning line (game over, winner, four coordinates, record); otherwise winner and winning row stay, and the game ends only if it was over or 25 squares are used; the winner only ever changes to a nonzero token |
| GameLogic.Game.PlaceToken | game_logic.py:46-54 | only cell (x, y) changes, to the token; the square count grows by one; exactly one row-major snapshot of the new board is recorded; the scan runs only when more than 6 squares are used, and otherwise nothing else changes |

## Left out

- The window, buttons and event handling of `tictactoe5x5.py` are not part of this model; they are presentation only.
- The append to `games.log` in `record_game` is file output. `UpdateGameState`, `DeclareWinner` and `PlaceToken` return the line that would be appended, or `None`.
- `load_board` is not modelled. It stores string characters in the integer board and compares them with the integer 0.
- GameLogic.Game.PlaceToken: requires 0 <= x, y <= 4. The controller only supplies such coordinates, and Python's negative indexing is not modelled.
- GameStates.ArgMin: requires a nonempty list. Python's `min` raises on an empty one, and the only caller passes eight scores.
- GameStates.Board2State: takes one list of tags instead of two parallel lists of functions. The returned `back` tag names the inverse function, which `Inverse` applies.
- The inverse is modelled as a function on boards, as the code has it. It does not map single coordinates back from the canonical state.
- `deepcopy`, object identity and aliasing are not modelled. Boards are values, so `rotate(b, 0)` returning the same object is not observable.
- GameLogic.Game.CheckDirection and GameLogic.Game.DeclareWinner are the inner parts of `update_game_state`, split into their own methods. The early `return` after a win becomes the method returning right after `DeclareWinner`.
- The `__main__` demonstration block of `src/game_states.py` is not code in the model. Its assertions appear as lemmas, stated for every board rather than the one sample board.
