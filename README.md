# js-snake game engine in Dafny

A model of the game-state engine of `main.js`, a snake game on a fixed
10 x 10 board of cells numbered 0 to 99 in row-major order. On every timer
tick, `updateVariables` does the following:
- applies the player's last arrow key, unless it would reverse a snake
  longer than one segment;
- grows the snake by one segment when its tail is digesting;
- shifts every body segment onto its predecessor;
- ends the round on a wall or on a bite;
- otherwise moves the head, which eats the food cell it lands on.

The food is a list of five cells. `generateFood` draws it once at start-up,
and nothing ever refills it.

Modules, one per component of the engine:

- `Grid` (grid.dfy): directions and board arithmetic: `getNextPosition`, `isTouchingEdges`, `isOpposite`. Each is proved against a row/column description of the board.
- `Body` (body.dfy): segments, growth, the shift as a value, and `isBitingItself`.
- `Food` (food.dfy): `removeFromArray`, plus the cells that `generateFood` keeps from a given sequence of random draws.
- `Engine` (engine.dfy): one tick as a function `Step` on the game state (`snake`, `food`, `direction`, and the outcome `stop()` stands for). Also the invariant a round keeps, and its consequences.
- `SnakeGame` (game.dfy): class `Game`, whose fields are the globals of `main.js`. Its methods change them in place as the source does: a push and a field write for growth, a descending loop for the shift, field writes for the head. Each method is proved equal to functions of Body, Food and Engine: the growth and shift methods to `Grow` and `Shifted`, the food draws to `Filled`, and `UpdateVariables` and `Tick` to `Step`.

The model follows the order the code uses. The body is shifted before the
edge and bite checks. The bite check reads the shifted body `snake[1..]`, so
the head may move onto the cell its tail is leaving, unless the snake is
growing on that tick (`BiteAgainstOldBody`, `TailChaseExample`). On a losing
tick the body is left shifted and the head keeps its cell.

There is no failed-segment flag, and the food list is never refilled.

Main result: while a round is on, the snake's length plus the remaining food
plus the number of digesting segments never changes (`StepPreservesInv`).
The food is never refilled, so the snake never gets longer than six
segments. The win exit at main.js:108-111 therefore can never be reached
(`StepNeverWins`, `RunNeverWins`). This holds for the start main.js actually
builds, with food drawn even onto the head's cell (`AsWrittenStartNeverWins`),
as well as for the corrected start.

## Model

| member | source | states |
|---|---|---|
| Grid.NextPosition | main.js:135-146 | the next cell differs from the current one by the heading's row offset times 10 plus its column offset |
| Grid.IsTouchingEdges | main.js:152-175 | for a cell on the board, true exactly when the heading's row/column step would leave the 10 x 10 board |
| Grid.IsOpposite | main.js:181-188 | true exactly when the two headings' row and column offsets cancel |
| Grid.OppositeIsSymmetricAndIrreflexive | main.js:181-188 | being opposite is symmetric, and no heading is opposite to itself |
| Grid.OppositeUndoesStep | main.js:181-188 | two headings are opposite exactly when a step along the second undoes a step along the first |
| Grid.NextPositionStaysOnGrid | main.js:135-175 | a move from a board cell that touches no edge stays on the board, in the neighbouring row/column; left and right moves stay in the same row |
| Grid.EdgeExamples | main.js:152-175 | 9 moving right, 0 left, 5 up and 90 down all touch an edge; 8 moving right and 15 moving up do not |
| Body.Occupies | main.js:178 | true exactly when some segment sits on the cell |
| Body.IsBitingItself | main.js:177-179 | true exactly when a segment at index 1 or higher sits on the cell |
| Body.Grow | main.js:100-107 | a digesting tail means exactly one segment is appended and the old tail's flag is cleared, otherwise the snake is unchanged; length plus digesting count is unchanged; all segments but the tail are kept; the tail and the appended segment are on the old tail's cell and the last one is not digesting; the occupied cells are the same |
| Body.Shifted | main.js:113-116 | the length is kept, the head is unchanged, and each segment i > 0 holds what segment i - 1 held |
| Food.RemoveFromArray | main.js:148-150 | the result holds exactly the cells of the list other than the removed one |
| Food.RemoveCounts | main.js:148-150 | every other cell keeps its number of occurrences; the removed cell keeps none |
| Food.RemoveAbsent | main.js:148-150 | removing a cell that is not in the list leaves the list unchanged |
| Food.RemoveKeepsOrder | main.js:148-150 | in a list without duplicates, removing the cell at index k gives the list without index k, in order, one shorter and still without duplicates |
| Food.FilledProperties | main.js:63-69 | the food drawn keeps the old food as a prefix and has at most five distinct cells; each is old food or a draw outside the excluded cells; the list is full unless every usable draw was taken |
| Engine.Gate | main.js:97-99 | the selected heading is taken when the snake has one segment or the heading is not a reversal, otherwise the current one is kept; a longer snake never turns to the opposite of its heading |
| Engine.Step | main.js:96-133 | a tick never shortens the snake |
| Engine.Run | main.js:35-39 | a run of ticks never shortens the snake, and nothing happens once the round is over |
| Engine.StepDirection | main.js:97-99 | the heading after any tick is the one the gate chose |
| Engine.StepLength | main.js:100-107 | a tick that starts with a digesting tail makes the snake exactly one segment longer; any other tick keeps its length |
| Engine.StepWin | main.js:108-111 | the round is won exactly when growth brings the length to 100; the grown snake is then neither shifted nor moved |
| Engine.StepMoveOrLose | main.js:113-126 | the tick is lost exactly when the head faces an edge or the cell ahead is in the shifted body; a lost tick leaves the shifted body, the head on its cell and the food unchanged; otherwise the head moves one cell; each other segment holds what its predecessor held after growth |
| Engine.StepShiftsBody | main.js:113-116 | on a tick without growth the length is kept and each segment i > 0 holds what segment i - 1 held before the tick |
| Engine.StepEats | main.js:127-132 | a head landing on food becomes digesting and the food becomes the list with that cell filtered out; with duplicate-free food the list is one shorter and the rest keeps its order; a head landing elsewhere stops digesting and the food is unchanged |
| Engine.BiteAgainstOldBody | main.js:113-125 | relative to the body before the tick, a bite means the cell ahead is held by a segment other than the tail, or by the tail when it is digesting |
| Engine.StepPreservesInv | main.js:96-133 | a tick from a running state keeps the invariant: a non-empty snake on the board, duplicate-free food on the board; while running, also distinct cells, no food under the snake, and length + food + digesting count unchanged |
| Engine.LengthBounded | main.js:96-133 | while a round runs, the snake has at most six segments, and fewer when its tail is digesting |
| Engine.StepNeverWins | main.js:108-111 | from a running state in the invariant, no tick reaches the win exit |
| Engine.RunNeverWins | main.js:108-111 | however the player steers, no run of ticks from a running state in the invariant ends in a win, and the invariant holds throughout |
| Engine.InitialInv | main.js:16-19 | the starting snake (one segment on cell 55) with food that avoids cell 55 satisfies the invariant |
| Engine.StartStepKeepsInv | main.js:96-133 | from the start with any duplicate-free food on the board, even food under the head, the first tick does not win and leads to a state in the invariant |
| Engine.AsWrittenStartNeverWins | main.js:63-69 | a round started as main.js starts it, with food drawn without excluding the head's cell, is never won, whatever the draws and the steering |
| Engine.BiteExample | main.js:117-125 | head 12 with body 11, 1, 2 moving left bites the shifted body and loses with the head still on 12 |
| Engine.TailChaseExample | main.js:113-125 | head 11 with body 1, 2, 12 moving right onto the tail's cell 12 is not a bite: the head moves there |
| Engine.GateExamples | main.js:97-99 | heading right, a request for left is dropped at length 3 and taken at length 1 |
| SnakeGame.Game.constructor | main.js:16-33 | the start state (head on 55, heading left, round running) with the food drawn avoiding the head's cell; it satisfies the invariant |
| SnakeGame.Game.GenerateFood | main.js:63-70 | as written: the loop leaves exactly the food that Filled computes from the draws with no cell excluded |
| SnakeGame.Game.GenerateFoodAvoidingHead | main.js:63-70 | corrected: the loop leaves exactly the food that Filled computes from the draws, excluding the head's cell |
| SnakeGame.Game.GrowIfDigesting | main.js:100-107 | the push and the flag write leave the snake equal to Grow of the old snake, and report whether the tail was digesting |
| SnakeGame.Game.ShiftBody | main.js:113-116 | the descending loop leaves the snake equal to Shifted of the old snake |
| SnakeGame.Game.MoveHead | main.js:126-132 | the head takes the new cell and digests exactly when it was food; the food loses that cell and is otherwise unchanged |
| SnakeGame.Game.UpdateVariables | main.js:96-133 | the new snake, food, heading and outcome are those of Step on the old state |
| SnakeGame.Game.Tick | main.js:36-39 | one firing of the interval while the round runs: the new state is Step of the old one, and the invariant is kept |
| SnakeGame.HeadCellMayBecomeFood | main.js:66 | with first draw 55, the as-written draw puts food under the start head, which breaks the invariant; the corrected draw does not |

## Findings

| source | as written | input that shows it | evidently intended | confidence | as-written member | corrected member |
|---|---|---|---|---|---|---|
| main.js:66 | `snake[0] !== random` compares the head segment object with a number. It is always true, so no cell is excluded. | first random draw 55, the head's start cell: food is placed under the head | `snake[0].position !== random`: never place food under the head | high; not executed | SnakeGame.Game.GenerateFood, SnakeGame.HeadCellMayBecomeFood | SnakeGame.Game.GenerateFoodAvoidingHead |

The constructor uses the corrected draw. Only with it does "no food under the
snake" hold from the first tick.

## Left out

- Rendering: `container`, `generateGrid` and `updateHTML` (main.js:1, 72-94) only draw the state. The invariant's "every cell on the board" is what their indexing `cells[position]` relies on.
- Timer and keyboard: the `setInterval` and `keydown` wiring in `start` (main.js:35-56) are not modelled. The key handler's last write to `selectedDirection` is the `selected` parameter of each tick. Keys other than the arrows leave it unchanged, so the caller passes the same heading again.
- `stop` (main.js:58-61): `clearInterval` and `console.log` are modelled only as the `outcome` field. The boolean argument is unused by `stop`, so Won and Lost come from the call site. No tick follows a terminal outcome, which is why `Tick` and `UpdateVariables` require a running round.
- `Math.random` (main.js:65): modelled as a sequence of draws, each in [0, 100).
- SnakeGame.Game.GenerateFood: stops when the sequence of draws runs out. The source keeps drawing until it has five cells, which a real random source eventually supplies but which cannot be proved to terminate.
- Direction strings: only the four values the key handler stores are modelled. `getNextPosition`'s `undefined` for any other string cannot occur.
- JavaScript numbers: cell values stay in [0, 100), so floating point and overflow never arise. `%` is only compared with 0, where truncating and Euclidean remainders agree.
- Object identity: `head` and `tail` in `updateVariables` are references into the array. The model indexes the sequence instead. This is faithful because no segment object is shared between two indices. The one aliasing case, head and tail being the same object in a one-segment snake, is covered by writing the tail's flag at index 0.
