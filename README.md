# Lights Out engine

A model of the press-and-win engine of a React "Lights Out" board
(`src/Board.js`). The board is `nrows` rows of `ncols` lights. Each cell
is identified by a key string `"row-col"`. Clicking a cell hands that key
to `flipCellsAround`. The handler decodes the key into two numbers and
negates the cell and its four orthogonal neighbours in place, skipping any
coordinate that lies off the board. It then sets `hasWon` to whether every
light is off.

The project has four modules:

- `JsNumbers` (`js_numbers.dfy`): the part of JavaScript numbers the engine uses. A decoded
  coordinate is an integer or NaN. Adding to NaN gives NaN, and every
  comparison with NaN is false. An `undefined` coordinate, from a key with
  no `-`, behaves the same way here and is modelled as NaN.
- `CoordKey` (`coord_key.dfy`): building the key with a template literal, and decoding it with
  `split("-")`, `Number` and array destructuring. It proves the round
  trip: the key built for a cell decodes to that cell.
- `GridModel` (`grid_model.dfy`): the board as a value (`seq<seq<bool>>`). It defines `flipCell`
  (`Flip`), the five flips of a press (`Press`), `Array.prototype.every`
  and the win check (`AllOff`), and the starting board drawn by
  `createBoard` (`InitialGrid`). It holds the lemmas about them.
- `LightsOut` (`lights_out.dfy`): the component as a `Board` class over an `array2<bool>`. The
  `FlipCell` and `CreateBoard` methods and `Board.FlipCellsAround` change the
  array in place. Each is proved against the matching `GridModel` function.

In `flipCellsAround` the local `board` is the same array object as
`this.state.board`. The flips therefore change the stored board, and the
win check reads the board after the flips. `Board.FlipCellsAround` writes
this out: it flips through a local alias `b` of the `board` field and
computes the win from the field.

Two details of the code that the model keeps:

- The component's doc comment describes `hasWon` as "true when board is
  all off" (`src/Board.js:16`). The constructor sets `hasWon` to false
  whatever board was drawn (`src/Board.js:36`). A board that starts all
  off is therefore only reported as won after a press that leaves every
  cell off. `Board.constructor` ensures `!hasWon`, and
  `GridModel.NoLightDrawnIsWon` shows such a starting board satisfies the
  win check.
- The handler does not check the target itself. Each of the five flips
  checks its own bounds (`src/Board.js:62`). A target just off the board
  would still flip its on-board neighbours, and a NaN target changes
  nothing (`GridModel.PressNaN`). Keys built by the board always decode to
  on-board targets (`CoordKey.DecodeEncode`).

## Model

| member | source | states |
|---|---|---|
| `CoordKey.Decimal` | src/Board.js:104 | the printed text of a non-negative integer is non-empty, all digits, and has no leading zero |
| `CoordKey.DecimalValue` | src/Board.js:104 | `Number` reads the printed decimal of `n` back as `n` |
| `CoordKey.ToNumber` | src/Board.js:57 | `Number` of a key piece is a number exactly when the piece is all digits, the empty piece reads as 0, and the result is never negative |
| `CoordKey.ToNumberDecimal` | src/Board.js:57 | `Number` of the printed decimal of `n` is `n` |
| `CoordKey.Split` | src/Board.js:57 | `split("-")` gives at least one piece, no piece holds the separator, and joining the pieces with the separator gives back the string |
| `CoordKey.SplitJoin` | src/Board.js:57 | splitting undoes joining when no piece holds the separator |
| `CoordKey.Encode` | src/Board.js:104 | splitting the key of a cell at `-` gives exactly two pieces: its row text and its column text |
| `CoordKey.Decode` | src/Board.js:57 | a decoded coordinate is NaN or a non-negative integer, because `split` removes every minus sign |
| `CoordKey.DecodeEncode` | src/Board.js:57 | decoding the key built for `row`, `col` gives back `row` and `col` |
| `JsNumbers.Add` | src/Board.js:69-72 | defines `+` on a decoded coordinate: NaN (or `undefined`) plus anything is NaN; its effect on a press is carried by `GridModel.PressNaN` and `GridModel.TargetsAreNeighbourhood` |
| `JsNumbers.AtLeast` | src/Board.js:62 | defines `>=` on a decoded coordinate: false for NaN; its contract is carried by `GridModel.Flip` |
| `JsNumbers.Below` | src/Board.js:62 | defines `<` on a decoded coordinate: false for NaN; its contract is carried by `GridModel.Flip` |
| `GridModel.InBounds` | src/Board.js:62 | defines the bounds test of flipCell; `GridModel.Flip` states that it holds exactly for the numeric on-board coordinates it negates |
| `GridModel.Flip` | src/Board.js:60-65 | flipCell keeps the board's shape and negates cell `y`, `x` exactly when it is on the board; otherwise the whole board is unchanged |
| `GridModel.Press` | src/Board.js:67-72 | a press keeps the board's shape: `nrows` rows of `ncols` cells |
| `GridModel.PressIsFlipAll` | src/Board.js:68-72 | a press is the five flips of target, below, right, above, left, in that order |
| `GridModel.FlipAllCells` | src/Board.js:68-72 | flipping a duplicate-free list of coordinates negates exactly the on-board cells it names, each once |
| `GridModel.TargetsAreNeighbourhood` | src/Board.js:68-72 | for a numeric target the five coordinates are pairwise distinct and are exactly the cells at Manhattan distance at most 1 |
| `GridModel.PressCells` | src/Board.js:67-72 | a press at `y`, `x` negates each on-board cell within Manhattan distance 1 of it, and every other cell keeps its value |
| `GridModel.PressNaN` | src/Board.js:57-72 | a press whose decoded row or column is NaN leaves the board unchanged |
| `GridModel.PressTwice` | src/Board.js:60-72 | pressing the same coordinate twice restores the original board |
| `GridModel.PressOrderIrrelevant` | src/Board.js:68-72 | flipping the five target coordinates in any duplicate-free order gives the same board as the press |
| `GridModel.PressChanged` | src/Board.js:62-72 | the set of cells a press changes is exactly the on-board neighbourhood of the target |
| `GridModel.NeighbourhoodParts` | src/Board.js:68-72 | the on-board neighbourhood of an on-board cell is the cell itself plus each of the four neighbours that lies on the board |
| `GridModel.NeighbourhoodSize` | src/Board.js:62-72 | on a board of at least 2 by 2 the neighbourhood of an on-board cell has 5 cells minus one for each board edge it lies on |
| `GridModel.PressToggleCount` | src/Board.js:62-72 | on a board of at least 2 by 2 a press changes 3 cells at a corner, 4 on a non-corner edge and 5 in the interior |
| `GridModel.Every` | src/Board.js:76-77 | defines `Array.prototype.every`; `GridModel.EveryIff` states what it means |
| `GridModel.AllOff` | src/Board.js:76-77 | defines the win check `board.every(row => row.every(cell => !cell))`; `GridModel.AllOffIff` states what it means |
| `GridModel.EveryIff` | src/Board.js:76-77 | `every` is true exactly when each element satisfies the predicate |
| `GridModel.AllOffIff` | src/Board.js:76-77 | the win check is true exactly when no cell is lit |
| `GridModel.AllOffIsDark` | src/Board.js:75-77 | on a board of a given shape the win check holds exactly for the all-off board |
| `GridModel.WinningPress` | src/Board.js:67-77 | a press wins exactly when the board before it was that press's pattern on an all-off board |
| `GridModel.InitialGrid` | src/Board.js:42-49 | the starting board has `nrows` rows of `ncols` cells |
| `GridModel.InitialGridAt` | src/Board.js:44-47 | cell `i`, `j` of the starting board takes draw number `i * ncols + j`, so rows are filled in order, left to right |
| `GridModel.NoLightDrawnIsWon` | src/Board.js:44-47 | when no draw lights its cell, the starting board satisfies the win check |
| `GridModel.AllLightsDrawnIsLost` | src/Board.js:44-47 | when every draw lights its cell, every cell starts lit and the win check fails |
| `GridModel.CentrePressScenario` | src/Board.js:67-77 | pressing the centre of an all-off 3 by 3 board lights a plus sign, and the game is not won |
| `GridModel.CentrePressAgainScenario` | src/Board.js:67-77 | pressing the centre again restores the all-off board, which is won |
| `LightsOut.FlipCell` | src/Board.js:60-65 | flipping through the array changes it exactly as `GridModel.Flip` changes the board value |
| `LightsOut.CreateBoard` | src/Board.js:42-49 | the filling loop, which consumes one draw per cell, builds a fresh `nrows` by `ncols` array equal to `GridModel.InitialGrid` |
| `LightsOut.Board.constructor` | src/Board.js:34-38 | a new game holds the drawn starting board and `hasWon` is false |
| `LightsOut.Board.FlipCellsAround` | src/Board.js:53-81 | the stored array is the same object and now holds `GridModel.Press` of its old contents at the decoded key; `hasWon` is true exactly when every cell after the flips is off |
| `LightsOut.PressByKey` | src/Board.js:104-105 | pressing the key built for `row`, `col` negates exactly that cell and its on-board orthogonal neighbours |

## Left out

- Rendering: the JSX, the `Cell` component, the CSS class names and the win banner (`src/Board.js:85-115`). They are presentation only.
- Randomness: `Math.random() < chanceLightStartsOn` is floating point plus a random generator. The model takes the outcome of each draw as an input sequence `draws` of booleans, in the order the draws are made.
- `console.log` calls (`src/Board.js:54`, `src/Board.js:79`). They are output only.
- React lifecycle: `super`, `bind` and `setState`. `setState` is modelled as storing the board and the computed `hasWon` in the object's fields.
- `defaultProps`: 5 rows, 5 columns, light chance 0.25. This is configuration; the model takes `nrows`, `ncols` and the draws as parameters.
- The seed value of `let board = [this.props.nrows]` (`src/Board.js:43`). The loop overwrites it whenever there is at least one row. With no rows the board would stay `[0]`, and rendering it would throw (`0.map` is not a function, `src/Board.js:101`), so no cell could ever be pressed. The constructor therefore requires at least one row.
- `LightsOut.CreateBoard`: the source gives each row its own new array. The model fills one `array2<bool>`, so rows of different lengths and rows shared between boards cannot arise.
- `CoordKey.ToNumber`: the model covers only pieces of ASCII digits, the empty piece included. Everything else reads as NaN. In JavaScript, `Number` also trims white space and reads signs, fractions, exponents, hexadecimal and `Infinity`. Keys built by the board never contain any of these.
- Number precision: coordinates are unbounded integers. The 53-bit precision of JavaScript numbers does not arise for board coordinates.
