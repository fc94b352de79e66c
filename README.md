# Snake engine in Dafny

This project models the game engine of a Snake game for one or two players,
`src/logic.js`. The board is a 20 by 20 grid. Each player owns a snake, a
list of cells with the head first. Each player also owns a current
direction, a buffered direction for the next tick and a score. The game has
one food cell and a status: ready, playing, paused or over.

Every engine operation takes a state value and returns a new one, so the
model is written on values:

- `Geometry` (`geometry.dfy`) holds positions, the four directions and
  their unit steps, and the direction names `up`, `down`, `left`, `right`.
  It also holds the wall, equality, membership and opposite predicates.
- `Food` (`food.dfy`) holds food placement. The board is scanned row by row
  for free cells, and a random source picks one of them. The method
  `PlaceFood` keeps the source's nested loops. It is proved equal to the
  function `FoodChoice`, and the properties of the free-cell list are proved
  about `FoodChoice`.
- `Collision` (`collision.dfy`) holds the collision resolver of one tick.
  Its four checks are wall, head-to-head, swap and body. `DetectCollision`
  keeps the source's three loops and is proved to compute the predicate
  `Collides`.
- `Engine` (`engine.dfy`) holds the game state and the operations
  `InitialState`/`InitState`, `SetDirection`, `TogglePause`, `Restart` and
  `Advance`. The method `Advance` is proved equal to the function `Tick`.
- `Invariants` (`invariants.dfy`) holds what the transitions promise.
  Operations touch only the fields they should. A tick moves, grows and
  scores as described. Each collision check ends the game. Every reachable
  state is valid: the parallel lists agree in length, the snakes are on the
  board and do not cross themselves, and the food is on a free cell.
  `Session` ties these together over any sequence of inputs.
- `Scenarios` (`scenarios.dfy`) holds concrete games: the first bite at
  spawn, running into the wall, meeting head-on, and an ignored reversal.
- `Findings` (`findings.dfy`) holds the discrepancy described under
  "## Findings", with a corrected tick. The gap is latent: all heads start
  on cells of one chessboard colour and all change colour on every moving
  tick, so no head is ever next to another. In every game the two ticks
  agree (`Findings.SessionUnaffected`) and the snakes never share a cell
  (`Findings.SessionApart`). For the
  same reason the swap check at src/logic.js:89-93 never fires in a game
  (`Findings.SessionUnaffected`); it matters only for states built by hand.
  `Engine.Tick` and `Engine.Advance` keep the tick as written.

The random source `rng()` returns a float in [0, 1), and the source computes
`Math.floor(rng() * n)`. The model replaces it with a chooser function
`rng: nat -> nat` with `rng(n) < n` for every positive `n` (`Food.IsChooser`).
A direction is passed in as its name, a string, and looked up as in the
`DIRECTIONS` table. The mode is a string too: `"multi"` gives two players and
any other value gives one.

## Model

| member | source | states |
|---|---|---|
| Geometry.ParseDirection | src/logic.js:3-8 | a name resolves to a direction exactly when it is that direction's key in the table |
| Geometry.Delta | src/logic.js:3-8 | every step changes exactly one coordinate by one; vertical steps change y, horizontal steps change x |
| Geometry.Name | src/logic.js:4-7 | the table key of each direction; Geometry.NameRoundTrip proves it inverse to Geometry.ParseDirection |
| Geometry.Step | src/logic.js:66-68 | a position moved by a direction's unit step; Geometry.StepBack, Geometry.WallOnlyAtEdge and Findings.StepChangesColour characterise it |
| Geometry.NameRoundTrip | src/logic.js:3-8 | every direction's name resolves to that direction; a name that resolves is that direction's name |
| Geometry.StepBack | src/logic.js:3-8 | a step followed by the opposite step returns to the start, and no step stays in place |
| Geometry.HitsWall | src/logic.js:162-164 | true exactly when the position is off the 20 by 20 board |
| Geometry.WallOnlyAtEdge | src/logic.js:162-164 | from a board cell, a step hits the wall exactly when the cell lies on the edge the step faces |
| Geometry.HitsSelf | src/logic.js:166-168 | true exactly when the position is one of the segments |
| Geometry.PositionsEqual | src/logic.js:170-172 | true exactly when both coordinates agree |
| Geometry.IsOpposite | src/logic.js:174-181 | true exactly when the two unit steps cancel |
| Geometry.OppositeUnique | src/logic.js:174-181 | every direction has exactly one opposite; the relation is symmetric; the opposite of the opposite is the direction itself |
| Food.OccupiedAt | src/logic.js:146-148 | every segment of every snake is in the occupied set |
| Food.Occupied | src/logic.js:146-148 | the set of cells covered by some segment of some snake; characterised by Food.OccupiedAt and Food.EmptyCellsExact |
| Food.CellIndex | src/logic.js:150-155 | the row-major index of a board cell is below 400 and leads back to the cell |
| Food.IndexCell | src/logic.js:150-155 | every index below 400 names a board cell whose index it is |
| Food.Cell | src/logic.js:150-153 | the cell `{x, y}` the scan visits at row-major index `y * 20 + x`; Food.IndexCell and Food.CellIndex characterise it |
| Food.EmptyBelow | src/logic.js:150-155 | the scan of the first n cells lists only free board cells, in strictly increasing row-major order |
| Food.EmptyBelowComplete | src/logic.js:150-155 | every free board cell among the first n cells is listed by the scan |
| Food.EmptyCellsExact | src/logic.js:150-155 | a cell is in the empty list exactly when it is on the board and not occupied |
| Food.EmptyCellsDistinct | src/logic.js:150-155 | the empty list has no repeated cell |
| Food.EmptyBelowCount | src/logic.js:150-155 | the listed cells and the covered cells among the first n cells add up to n |
| Food.EmptyCellsCount | src/logic.js:145-157 | the empty list has 400 minus the number of occupied board cells |
| Food.EmptyCells | src/logic.js:150-155 | the row-by-row scan of the whole board for free cells; characterised by Food.EmptyCellsExact, Food.EmptyCellsDistinct and Food.EmptyCellsCount |
| Food.FoodChoice | src/logic.js:144-160 | no food exactly when every board cell is occupied; otherwise the food is a free board cell |
| Food.PlaceFood | src/logic.js:144-160 | the row-by-row scan and the random pick return the food of FoodChoice |
| Collision.CollisionBody | src/logic.js:75-78 | the segments after the head, in order, without the tail unless the snake grows; a one-cell snake has an empty body |
| Collision.Collides | src/logic.js:80-103 | the disjunction of the wall, head-to-head, swap and body checks; Collision.DetectCollision is proved to compute it |
| Collision.DetectCollision | src/logic.js:80-103 | the flag is raised exactly when some wall, head-to-head, swap or body check fires |
| Engine.InitialState | src/logic.js:12-49 | status ready, two or one players by mode, spawn heads at (6,10) and (14,10) or (9,10), each with its neck one step behind, zero scores, buffered directions equal to the current ones, and food placed against the spawn snakes |
| Engine.SpawnSnakes | src/logic.js:13-31 | the two-cell spawn snakes of each mode; characterised by Engine.InitialState and Invariants.SpawnOnBoard |
| Engine.SpawnDirections | src/logic.js:33 | right, and left for the second player; characterised by Engine.InitialState |
| Engine.InitState | src/logic.js:12-49 | builds the spawn state with the board-scanning food placement and returns InitialState |
| Engine.Restart | src/logic.js:140-142 | a new game in the old state's mode |
| Engine.SetDirection | src/logic.js:51-59 | only the requesting player's buffered direction can change; a known name for an existing player that does not reverse the current direction is stored; otherwise the state is returned unchanged |
| Engine.Accepted | src/logic.js:52-54 | the three guards of a direction request; Engine.SetDirection stores the request exactly when they hold, and Invariants.ReversalIgnored shows the reversal guard |
| Engine.TogglePause | src/logic.js:135-138 | only the status changes: playing becomes paused, paused becomes playing, ready and over stay |
| Engine.Frozen | src/logic.js:62 | over or paused; Invariants.FrozenTick proves such a tick changes nothing |
| Engine.Moved | src/logic.js:109-113 | the new head comes first, followed by the old body, which loses its tail unless the snake grows |
| Engine.Heads | src/logic.js:89-90 | the current head `snake[0]` of every snake, the cells the swap check compares against; used by Collision.Collides and Findings.OneColourNoEntry |
| Engine.NextHeads | src/logic.js:64-69 | each head moved one step in its player's buffered direction; characterised by Invariants.MoveGrowScore and Invariants.WallEndsGame |
| Engine.WillGrow | src/logic.js:71-73 | a player grows exactly when its next head is the food cell; characterised by Invariants.EatersGrow and Invariants.MoveGrowScore |
| Engine.AnyGrows | src/logic.js:120 | some growth flag is raised; Invariants.EatersGrow proves it holds exactly when some next head is the food |
| Engine.CollisionBodies | src/logic.js:75-78 | the collision body of every snake, each given by Collision.CollisionBody; used by Invariants.NoCollisionFacts |
| Engine.MovedSnakes | src/logic.js:109-113 | every snake moved as Engine.Moved states; characterised by Invariants.MoveGrowScore |
| Engine.BumpedScores | src/logic.js:115-117 | one more point for each player that grows; characterised by Invariants.MoveGrowScore |
| Engine.TickCollides | src/logic.js:80-103 | the collision verdict of the coming tick; Invariants.CollisionEndsGame, WallEndsGame, HeadOnEndsGame, SwapEndsGame and TwoEatersCollide state when it holds |
| Engine.Commit | src/logic.js:109-131 | the moving branch of a tick; characterised by Invariants.MoveGrowScore and Invariants.CommitValid |
| Engine.Tick | src/logic.js:61-133 | one tick: unchanged when frozen, over on a collision, otherwise the moving branch; Engine.Advance computes it, Invariants.FrozenTick, CollisionEndsGame, MoveGrowScore and TickValid characterise it |
| Engine.Advance | src/logic.js:61-133 | the step-by-step tick returns the state of Tick: unchanged when frozen, over on a collision, otherwise moved |
| Invariants.InitialStateValid | src/logic.js:12-49 | a fresh game in any mode satisfies the state invariant |
| Invariants.SpawnOnBoard | src/logic.js:13-31 | the spawn snakes lie on the board and do not cross themselves |
| Invariants.ReversalIgnored | src/logic.js:54 | a request for the opposite of a player's current direction leaves the state unchanged |
| Invariants.LastRequestWins | src/logic.js:51-59 | of two requests for one player before a tick, the later one wins when it is accepted, otherwise the earlier one stands |
| Invariants.RequestsCommute | src/logic.js:56-58 | requests of two different players can be applied in either order |
| Invariants.SetDirectionValid | src/logic.js:51-59 | buffering a direction keeps the state invariant |
| Invariants.PauseTwice | src/logic.js:135-138 | toggling a playing or paused game changes it, and toggling twice gives it back |
| Invariants.PausedGameHolds | src/logic.js:62 | a paused game does not move on a tick, and unpausing it gives back the game that was paused |
| Invariants.TogglePauseValid | src/logic.js:135-138 | pausing keeps the state invariant |
| Invariants.FrozenTick | src/logic.js:62 | a tick leaves an over or paused game unchanged |
| Invariants.CollisionEndsGame | src/logic.js:105-107 | on a collision the status becomes over and nothing else changes |
| Invariants.WallEndsGame | src/logic.js:82-84 | a candidate head off the board ends the game |
| Invariants.HeadOnEndsGame | src/logic.js:86-88 | two players heading into the same cell end the game |
| Invariants.SwapEndsGame | src/logic.js:89-93 | two players moving into each other's head cell end the game |
| Invariants.MoveGrowScore | src/logic.js:109-131 | without collision every snake gains its new head; an eater keeps its whole old body and scores one, any other snake drops its tail and keeps its score; buffered directions become current and the game is playing; the food stays unless someone eats it, and is then placed once against the moved snakes |
| Invariants.EatersGrow | src/logic.js:71-73 | some growth flag is raised exactly when some player's next head is the food cell |
| Invariants.TwoEatersCollide | src/logic.js:71-88 | two players cannot both eat in one tick: both would enter the food cell, which is a head-to-head collision |
| Invariants.NoCollisionFacts | src/logic.js:80-103 | after a tick that raised no collision, every candidate head is on the board and outside every collision body |
| Invariants.CommitValid | src/logic.js:109-131 | the moving branch keeps the snakes on the board, free of self-crossing, and the food off the snakes |
| Invariants.TickValid | src/logic.js:61-133 | every tick keeps the state invariant |
| Invariants.ApplyValid | src/logic.js:51-142 | every input keeps the state invariant, the mode and the number of players |
| Invariants.Run | src/logic.js:51-142 | after any sequence of inputs the state is valid, in the same mode, with the same number of players |
| Invariants.Session | src/logic.js:12-142 | every state a game reaches has its mode's number of players and scores, snakes on the board that do not cross themselves, and food on a free cell |
| Scenarios.GrownLeaves397 | src/logic.js:144-160 | a three-cell snake leaves 397 free cells |
| Scenarios.BaitedSpawnIsSpawn | src/logic.js:12-49 | the single-player spawn state with the food one cell ahead of the head |
| Scenarios.BaitedSpawnSafe | src/logic.js:64-103 | with the food one cell ahead the snake grows and no collision check fires |
| Scenarios.BaitedCommit | src/logic.js:109-131 | that tick grows the snake to three cells, scores one and places new food |
| Scenarios.SpawnBite | src/logic.js:61-133 | the full tick on that state has the same outcome |
| Scenarios.FirstBite | src/logic.js:61-160 | from spawn with the food one cell ahead, the first tick gives a three-cell snake, score one, and food drawn from the 397 free cells |
| Scenarios.IntoTheWall | src/logic.js:82-84 | a snake at the right edge heading right ends the game and stays where it was |
| Scenarios.HeadOnCollision | src/logic.js:86-88 | two snakes heading into the same cell end the game without moving |
| Scenarios.NoTurningBack | src/logic.js:51-59 | at spawn, a request to turn left is ignored and right stays buffered |
| Findings.ChaseRaisesNoCollision | src/logic.js:75-103 | in the chase game neither snake grows, both collision bodies are empty, and no check fires |
| Findings.ChaseValid | src/logic.js:12-49 | the chase game satisfies the state invariant and its snakes are apart |
| Findings.ChaseCommit | src/logic.js:109-113 | the chase game's moving branch puts player 0's head on player 1's new neck |
| Findings.ChaseOverlaps | src/logic.js:61-133 | the tick as written takes a valid game with apart snakes to a playing game in which two snakes share a cell |
| Findings.GuardedTickAgrees | src/logic.js:80-107 | the corrected tick differs from the tick as written only when a head enters another player's current head cell |
| Findings.GuardedHeadClear | src/logic.js:97-103 | under the corrected verdict, a new head meets no kept segment of another snake |
| Findings.MovedApart | src/logic.js:109-113 | under the corrected verdict, cells of two different moved snakes differ |
| Findings.GuardedTickKeepsApart | src/logic.js:61-133 | the corrected tick keeps a valid game valid and its snakes apart |
| Findings.StepChangesColour | src/logic.js:3-8 | every step lands on a cell of the other chessboard colour |
| Findings.OneColourNoEntry | src/logic.js:86-103 | when all heads share a colour, no head reaches another player's current head cell, so the swap check cannot fire |
| Findings.SpawnApart | src/logic.js:13-31 | the spawn snakes are apart and their heads share a colour |
| Findings.ApplyKeepsApart | src/logic.js:51-142 | every input keeps the snakes apart and their heads on one colour |
| Findings.StepKept | src/logic.js:51-142 | the first input of a sequence keeps the state valid, apart and one-coloured, and the rest of the sequence stays fair |
| Findings.RunKeepsApart | src/logic.js:51-142 | any sequence of inputs keeps the state valid, apart and one-coloured |
| Findings.SessionApart | src/logic.js:12-142 | in every game the snakes never share a cell |
| Findings.SessionUnaffected | src/logic.js:61-133 | in every game the corrected tick equals the tick as written, and the swap check never fires |

## Left out

- The browser front end (`src/game.js`): keyboard input, timers, drawing and the status text. It feeds the engine and is not part of this model.
- `Math.random` and the float arithmetic of `Math.floor(rng() * n)`: replaced by a chooser that returns an index below `n`. A random source that returns 1 or more, which would index past the list, is not modelled.
- The string keys `"x,y"` of the occupied set: modelled as a set of positions. The keys are equal exactly when the positions are.
- Unknown direction names: any name other than the four keys is rejected. Names that JavaScript finds on the object prototype, such as `"toString"`, are not modelled.
- The mode is kept as a string, and default arguments are not modelled; callers pass the mode and the random source.
- Engine.Advance: requires that every snake has a head and every player a buffered direction (`Movable`), unless the game is frozen. On a state without these, the source reads `undefined` and throws; every state the engine produces has them (`Invariants.Session`).
- Engine.SetDirection: requires `|snakes| <= |nextDirections|`. On a state that breaks this the source extends the array, with holes when the index is past its end; no state the engine produces does.
- Invariants.Run and Invariants.Session: each tick and each restart carries its own chooser, rather than sharing one stateful random source.
- Object identity: on an ignored input the source returns the very same object; the model returns an equal value.

## Findings

| source | as written | input that shows it | evidently intended | confidence | as-written member | corrected member |
|---|---|---|---|---|---|---|
| src/logic.js:75-103 | collision bodies drop index 0 of every snake, so no check forbids a head from entering another player's current head cell; when that player turns away instead of swapping, the cell becomes its neck and the two snakes overlap | a hand-built valid multi state, playing, snakes [(5,5),(4,5)] and [(6,5),(7,5)], directions right and left, buffered right and up, food at (0,0) | a head entering another snake's current head cell ends the game, so snakes never share a cell; latent, since no game reaches such a state (Findings.SessionApart) | not executed | Findings.ChaseOverlaps | Findings.GuardedTickKeepsApart |
