# A verified model of the game.js simulation

game.js is a small Dig Dug-like browser game. A player digs through a 14 × 15 dirt grid.
Pookas and Fygars step toward the player cell by cell. Fygars breathe fire along their row.
Lives, a start-of-round pause and a game-over state tie these together.

This project models the deterministic simulation of game.js in Dafny and proves what it
does. Rendering, input wiring and frame timing are left out.

The modules follow the structure of the script:

- `Grid` (grid.dfy) has the grid size, directions and Manhattan distance. It also has
  `RandomIndex`, the model of `Math.floor(Math.random() * n)`.
- `Entities` (entities.dfy) has the enemy, player and breath records, `createEnemy`, and
  the per-enemy reset done by `loseLife`.
- `Spawning` (spawning.dfy) has the enemy counts per level and the span a tunnel covers.
  It also has `getRandomSpawnPosition`, a loop over the retries and then a row-by-row
  scan.
- `Pathing` (pathing.dfy) has `calculateEnemyPath`. It filters the neighbours that are on
  the grid, takes the least Manhattan distance to the player, keeps the tied
  candidates, and draws one of them.
- `Hazards` (hazards.dfy) covers:
  - `getFireRange`;
  - the cells a breath covers, as searched by `checkFireCollision`;
  - the expiry filter of `updateFires`;
  - the trigger gate of `triggerFygarFire`.
- `Movement` (movement.dfy) has the discrete part of `updatePlayerMovement`: which held
  key wins, the step that starts, and the cell it digs.
- `Enemies` (enemies.dfy) has the body of `updateEnemies`' `forEach` as functions on enemy
  values. These are aging, the dirt flag, the Fygar firing state, `triggerFygarFire` and
  `moveEnemy`. `Fold` is the left-to-right `forEach` of any per-enemy update over the
  list; each enemy sees the breaths pushed before it. `TickAll` is that fold of the body.
- `Simulation` (game.dfy) holds the shared `game` object as the class `Game`. The dirt
  grid is an `array2<bool>` changed in place, indexed `dirt[y, x]`. The player, the
  enemies and the breaths are fields the methods reassign. Lives, level, score, the game
  state and the pause timer are fields too. The functions of the script that change
  the `game` object as a whole are methods of `Game`, proved against the functions above.
  The per-enemy functions `triggerFygarFire` and `moveEnemy`, and the body and loop of
  `updateEnemies`' `forEach`, are module-level methods on enemy values instead
  (`TriggerFygarFire`, `MoveEnemy`, `UpdateEnemy`, `EnemyPass`). They return the updated
  enemies and the pushed breaths, and `Game.UpdateEnemies` writes those back. Where the
  script loops, the model loops too, with invariants: `FillDirt`, the two tunnel
  methods, `SpawnEnemies` and `LoseLife` in the class, and `EnemyPass`, `FindEnemyHit`
  and `FindFireHit` beside it. `Spawning.RandomSpawnPosition` loops over the retries and
  the fallback scan.

Every call to `Math.random` becomes an injected value in [0, 1), of type `Grid.Unit`.
`spawnEnemies` reads a stream `rand: nat -> Unit`. `updateEnemies` reads the values in a
`Draws` record, indexed by the enemy's place in the list.

The interpolation of the drawn position, which uses `Math.sqrt`, is replaced by an
`arrived` flag. The flag says whether the entity reaches its target this frame; on
arrival it snaps to the target, as the source does. Times are exact reals. `lastTime` is
in milliseconds, and the current time in seconds is `lastTime / 1000`.

Some behaviours of the code are kept as written:

- Enemies path through dirt freely. `calculateEnemyPath` never reads the grid.
- A Fygar counts as firing while the first breath originating on its cell is young. That
  breath may be anyone's.
- `loseLife` leaves inflation, firing, the last fire time and the dirt flag alone.
- `restartGame` keeps the old breaths.
- On the last life, `checkEnemyCollision` ends the game without pausing the round.
  `checkFireCollision` runs next in the same frame and can take a second life, so lives
  can end at -1. `Simulation.Game.PlayFrame` states this possibility, and
  `Simulation.DoubleLifeLoss` shows it happening.

game.js has no rocks, pump, inflation combat, ghost-mode routing, aggression boost,
scoring or level-complete transition, so neither does the model.

## Model

| member | source | states |
|---|---|---|
| Grid.RandomIndex | game.js:259 | `Math.floor(Math.random() * n)` is an index below n |
| Grid.RandomIndexIsFloor | game.js:259 | the index is the floor of the draw times n: at most r·n and more than r·n − 1 |
| Pathing.DrawForIndex | game.js:259 | every index below n is produced by some draw in [0, 1) |
| Pathing.ValidDirections | game.js:242-244 | the filter keeps at most the candidates it is given |
| Pathing.ValidDirectionsMembers | game.js:234-244 | a direction survives the bounds filter exactly when it was a candidate and its neighbour is on the grid |
| Pathing.SomeNeighbourInBounds | game.js:242-244 | from every grid cell some neighbour is on the grid, so the minimum in `calculateEnemyPath` is over a non-empty list |
| Pathing.AllDirectionsListed | game.js:234-239 | the candidate list names all four directions |
| Pathing.MinDistanceIsMinimum | game.js:253 | `Math.min` over the candidates' distances is attained by a candidate and is at most every candidate's distance |
| Pathing.NearestDirectionsMembers | game.js:256 | the second filter keeps exactly the candidates at the minimum distance |
| Pathing.NearestDistanceIsMinimum | game.js:242-253 | the minimum is the least distance over all in-bounds neighbours, and some in-bounds neighbour attains it |
| Pathing.BestDirections | game.js:256 | the tied list is non-empty, and each of its directions leads onto the grid at the minimum distance |
| Pathing.BestDirectionsComplete | game.js:256 | every in-bounds direction at the minimum distance is in the tied list |
| Pathing.CalculateEnemyPath | game.js:230-262 | the chosen direction leads onto the grid, to a neighbour at the least distance to the player |
| Pathing.PathIsGreedy | game.js:230-262 | no in-bounds neighbour is closer to the player than the chosen one |
| Pathing.EveryNearestIsChosenBySomeDraw | game.js:256-260 | the random draw only breaks ties: every tied-nearest direction is returned for some draw |
| Pathing.PathApproachesPlayer | game.js:230-262 | a chosen step brings an enemy away from the player exactly one cell closer, and steps one cell off the player's own cell |
| Entities.CreateEnemy | game.js:82-105 | a new enemy rests on its spawn cell, facing down, with the id, type and tunnel speed given, in dirt, not inflated, not firing, and placed on the grid when its cell is |
| Entities.ResetToSpawn | game.js:600-612 | the reset enemy is back on its spawn cell at rest, facing down, with alive-time 0, and keeps its identity, inflation, firing state, last fire time and dirt flag |
| Entities.ResetRestoresCreation | game.js:600-612 | the reset gives exactly the enemy `createEnemy` built, apart from the four fields `loseLife` leaves alone |
| Entities.StartPlayer | game.js:586-594 | the player at the start of a life is on (7, 3), facing down, at rest |
| Spawning.PookaCount | game.js:117 | a level has `min(2 + level / 2, 4)` Pookas: 2 + level / 2 below level 4, and 4 from level 4 on |
| Spawning.FygarCount | game.js:118 | a level has `min(1 + level / 3, 2)` Fygars, between 1 and 2, and more than 1 exactly from level 3 on |
| Spawning.TunnelSpan | game.js:171-197 | the clipped span stays on the line, is never longer than asked, covers its centre, and has the full length when it fits |
| Spawning.FreeCellInFirstRow | game.js:147-156 | with fewer occupied cells than a row holds, the fallback scan finds a free cell |
| Spawning.RandomSpawnPosition | game.js:128-163 | the cell is on the grid; a free cell is returned and recorded whenever one exists; a cell it returns and records is more than 3 cells from the player, or is the first free cell in row order |
| Movement.HeldDirection | game.js:806-825 | up wins over down, down over left, left over right; no direction only when no key is held |
| Movement.NoDirectionHeld | game.js:806-825 | a key set holding none of the four directions is empty |
| Movement.PlayerMoveResult | game.js:777-840 | a moving player that has not arrived is unchanged; otherwise it is on its target and turns to the held direction, setting off exactly when the neighbour that way is on the grid |
| Movement.DugCell | game.js:826-838 | a cell is dug exactly when a step starts this frame, and it is the step's target, on the grid |
| Hazards.FireRange | game.js:469-493 | a breath reaches 0 cells below age 0.5, 1 on [0.5, 0.9), 2 on [0.9, 1.2), 1 on [1.2, 1.5) and 0 from 1.5 on |
| Hazards.FindFireHit | game.js:507-545 | the search succeeds exactly when some breath covers the player's cell at its current range |
| Hazards.LiveFires | game.js:454-462 | the kept breaths are exactly those younger than their duration, and no more than before |
| Hazards.LiveFiresAppend | game.js:458-461 | the filter commutes with concatenation, so kept breaths stay in their original order |
| Hazards.LiveFiresIdempotent | game.js:458-461 | filtering again at the same time removes nothing more |
| Hazards.SpentBreathIsHarmless | game.js:458-461 | a breath `updateFires` removes covers no cell |
| Hazards.BreathReach | game.js:348-406 | a breath let through the gate points along the row at a player 1 to 3 cells away, and covers the player's cell exactly when its range reaches that gap |
| Enemies.Arrive | game.js:295-301 | on arrival the enemy's cell becomes its target and it stops moving |
| Enemies.MoveResult | game.js:269-341 | `moveEnemy` keeps the enemy on the grid with its identity and dirt flag |
| Enemies.MoveResultSpec | game.js:269-341 | a firing enemy, or one still on its way, is unchanged; otherwise it ends on its target cell, drawn there on arrival, and sets off one step toward a neighbour nearest the player; a resting enemy keeps its drawn position; the timers, inflation and firing flag do not change |
| Enemies.FireAtIsFirstMatch | game.js:428-430 | `find` returns nothing exactly when no breath starts on the cell, else the first breath that does |
| Enemies.TriggerResult | game.js:348-406 | a breath is created exactly when every condition of the gate holds; then the cooldown restarts at now, and otherwise the enemy is unchanged |
| Enemies.Armed | game.js:425-443 | the firing update keeps the enemy placed with its identity and dirt flag; only a Fygar on the player's row breathes, and its breath is well formed and starts now |
| Enemies.ArmedSpec | game.js:425-443 | a Pooka passes unchanged; a Fygar's firing flag becomes whether it is still firing; a Fygar still firing keeps everything else and does not breathe; one not firing goes through `triggerFygarFire`, so it breathes exactly when the gate passes |
| Enemies.StillFiringIff | game.js:426-437 | a Fygar is still firing exactly when some breath starts on its cell and the first such breath is younger than 1.5 seconds |
| Enemies.EnemyStep | game.js:414-447 | one enemy's update keeps its identity and placement and records its cell's dirt flag; only a Fygar breathes, on the player's row, now |
| Enemies.EnemyStepSpec | game.js:414-447 | one enemy's update ages it by the frame time; a Fygar's firing flag becomes whether it is still firing, and one still firing keeps its cell, target, direction and moving flag and does not breathe |
| Enemies.FoldElement | game.js:412-448 | for any per-enemy update, the j-th enemy after the `forEach` is the j-th enemy's own update, seeing exactly the breaths the enemies before it pushed |
| Enemies.FoldBreathsGrow | game.js:412-448 | the breaths pushed by the first m enemies are a prefix of those pushed by the first n, for m ≤ n |
| Enemies.FoldBreathCount | game.js:412-448 | when only Fygars breathe, at most one breath is pushed per Fygar |
| Enemies.FoldBreathAt | game.js:412-448 | when each breath an update returns is new this frame, so is every breath pushed |
| Enemies.TickAllElement | game.js:412-448 | the j-th enemy after `updateEnemies` is the j-th enemy's own `EnemyStep`, seeing exactly the breaths the enemies before it pushed |
| Enemies.TickAllBreathsGrow | game.js:412-448 | in `updateEnemies`, the breaths pushed by the first m enemies are a prefix of those pushed by the first n |
| Enemies.TickAllKeepsEnemies | game.js:412-448 | `updateEnemies` keeps every enemy's identity and placement, and each enemy records its cell's dirt flag |
| Enemies.TickAllBreaths | game.js:393-448 | at most one breath per Fygar, each created now on the player's row, pointing along it |
| Simulation.FindEnemyHit | game.js:558-566 | the search succeeds exactly when some enemy stands on the player's cell |
| Simulation.TriggerFygarFire | game.js:348-406 | the method computes `TriggerResult`: the enemy after the call and the breath pushed, if any |
| Simulation.MoveEnemy | game.js:269-341 | the method computes `MoveResult` |
| Simulation.UpdateEnemy | game.js:414-447 | the body of the `forEach` computes `EnemyStep` for one enemy |
| Simulation.EnemyPass | game.js:412-448 | the `forEach` loop computes the fold `TickAll` over the whole list |
| Simulation.Game.constructor | game.js:705-717 | a new game has 3 lives, level 1, score 0, a round pause, the player at the start on a dug cell, no breaths, and the level-1 enemies: ids in order, Pookas then Fygars, at rest on distinct dug cells other than the player's; every cell holds dirt except the start cell and cells on a Pooka's spawn row or a Fygar's spawn column |
| Simulation.Game.DirtUnder | game.js:420-422 | each enemy's flag is the guarded read of the grid at its cell |
| Simulation.Game.FillDirt | game.js:675-680 | the nested loops fill every cell with dirt |
| Simulation.Game.ClearHorizontalTunnel | game.js:171-180 | exactly the cells of row y in the clipped span are dug, only when the row is on the grid; every other cell is unchanged |
| Simulation.Game.ClearVerticalTunnel | game.js:188-197 | exactly the cells of column x in the clipped span are dug, only when the column is on the grid; every other cell is unchanged |
| Simulation.Game.DigTunnel | game.js:205-218 | a Pooka's tunnel runs along its row and a Fygar's down its column: the spawn cell is dug, every cell dug lies on that line, and no cell gains dirt |
| Simulation.Game.PlaceEnemy | game.js:199-219 | one pass of the spawn loop: the enemy is created on a cell that was free and is now occupied, its cell is dug, and every cell dug lies on its tunnel line |
| Simulation.OnSomeTunnelIff | game.js:199-219 | a cell lies on some enemy's tunnel line exactly when some enemy of the list is a Pooka on that row or a Fygar on that column |
| Simulation.Game.SpawnEnemies | game.js:111-222 | the enemies become the level's Pookas then Fygars, with ids 0, 1, … created at rest; each on its own cell, not the player's cell, dug out; dirt is only removed, and only on a Pooka's spawn row or a Fygar's spawn column; nothing else changes |
| Simulation.Game.LoseLife | game.js:573-618 | lives drop by one. At zero or below, the game is over and nothing else changes. Otherwise player and enemies are reset to their starts, the start cell is dug, the round pauses, and no other cell changes |
| Simulation.Game.RestartGame | game.js:654-687 | lives 3, score 0, level 1, playing, paused with the timer at 0; the player at the start with its cell dug; the level-1 enemies, ids in order, Pookas then Fygars, at rest on distinct dug cells other than the player's; every cell holds dirt except the start cell and cells on a Pooka's spawn row or a Fygar's spawn column; the breaths and the timestamp kept |
| Simulation.Game.RequestRestart | game.js:758-764 | after game over the restart key gives exactly the state `RestartGame` promises; in any other state it changes nothing |
| Simulation.Game.UpdateEnemies | game.js:412-448 | the enemies and the pushed breaths are those of the fold at the current time; every enemy keeps its identity |
| Simulation.Game.UpdateFires | game.js:454-462 | the breaths become the live ones, in order; nothing else changes |
| Simulation.Game.CheckEnemyCollision | game.js:552-567 | outside the pause, a life is lost once exactly when an enemy stands on the player's cell; otherwise nothing changes |
| Simulation.Game.CheckFireCollision | game.js:499-546 | outside the pause, a life is lost once exactly when a breath covers the player's cell; otherwise nothing changes |
| Simulation.Game.UpdatePlayerMovement | game.js:777-840 | the player follows `PlayerMoveResult`; the cell of a step that starts is dug, and no other cell changes |
| Simulation.Game.PlayFrame | game.js:863-869 | a frame of play keeps level, score and every enemy's identity; it costs at most one life, or two on the last life; a lost life ends the game or pauses the round |
| Simulation.Game.GameLoop | game.js:843-874 | outside play only the timestamp changes; during the pause only the timer runs, until the pause ends at 2 seconds; otherwise the frame is `PlayFrame` |
| Simulation.DoubleLifeLoss | game.js:863-869 | on the last life, an enemy and a breath on the player's cell in one frame leave the game over with lives at -1 |

## Left out

- Rendering and the DOM are not modelled: `draw`, `showGameOver`, `resizeCanvas`, image
  loading, and the keyboard event wiring. Input is a set of held directions and a restart
  request.
- `requestAnimationFrame` and `performance.now` are not modelled. `GameLoop` takes the
  frame time as a parameter. The first-frame fallback for a missing time is not modelled.
- The interpolation of drawn positions, and with it the enemy and player speeds, is not
  modelled. It uses `Math.sqrt` on floats, and an `arrived` flag stands in for its
  outcome. Drawn positions in transit are not tracked.
- `Math.random` is not called; its values are parameters. `Date.now` breath ids and the
  `console.log` calls are not modelled.
- Floating-point rounding is not modelled: times and ages are exact reals.
- The `levelComplete` state is not modelled, because game.js never assigns it.
- Simulation.Game.UpdateEnemies: reads every enemy's dirt flag before the loop, not at
  each enemy. Nothing in the loop digs, so the flags are the same.
- Simulation.Game.UpdateEnemies: the enemy list is rebuilt rather than mutated in place.
  No other reference to an enemy object exists.
- Simulation.Game.SpawnEnemies: states that spawn cells are dug and that dug cells lie
  on the tunnel lines, not which cells of a line each tunnel covers. The exact cells are
  the contracts of `ClearHorizontalTunnel` and `ClearVerticalTunnel`.
- Simulation.Game.SpawnEnemies: the script's two loops, Pookas then Fygars, are one loop
  whose pass i spawns a Pooka while i is below the Pooka count. The enemies, the ids and
  the order of the random draws are the same.
- Simulation.Game.RestartGame: states that the grid holds dirt everywhere off the start
  cell and the tunnel lines, not which cells of a tunnel line are dug.
- Simulation.Game.constructor: states the grid as `RestartGame` does, with the same
  limit.
- Simulation.Game.PlayFrame: states the bookkeeping a frame keeps, not the composed new
  state. The composed state follows from the contracts of the five methods it calls, in
  order.
- Simulation.Game.GameLoop: for a frame of play, states the same bookkeeping as
  `PlayFrame`, not the composed new state.
