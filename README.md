# Alien Evolution Game — state machine model

This project models the game logic of `AlienEvolutionGame`, a one-screen
reflex game. A meteorite falls straight onto an alien. A tap inside a
window around the alien catches it and raises the level. Every five levels
the alien evolves to the next of five stages. A meteorite that reaches the
alien explodes it, which resets level and stage and adds one explosion.

The model has five parts:

- `GameConfig` (config.dfy): the configuration constants and the literal
  sizes and margins of the transition code.
- `Evolution` (evolution.dfy): level → evolution stage and level → speed
  multiplier, with their properties.
- `Sprites` (sprites.dfy): the sprite table keyed by (stage, action) and
  what a correct fallback to a lower stage returns.
- `GameRules` (rules.dfy): the state machine on values. `Game` holds every
  field the machine reads or writes. There is one function per transition:
  `StartRound`, `SpawnNewMeteorite`, `ContinueFalling`, `CheckCatch`,
  `HandleSuccess`, `HandleMiss`, `HandleExplosion`, `EnterResult`,
  `ResetRound`. `Tap`, `StartTap` and `Tick` are the handlers, and
  `Run` plays a sequence of events. `Inv` is the invariant of every
  reachable state. The lemmas state what the game promises.
- `AlienGame` (game.dfy): the class `AlienEvolutionGame`. Its fields are
  the object's fields. Its methods update them in place, as the object does,
  and each one is proved to change them exactly as its `GameRules` function
  says. The handlers also keep `Valid()`, which is `GameRules.Inv` of the
  fields. The sprite lookups are methods with the source's descending loop.

Time enters as a parameter. Each tap and frame takes the clock reading
`now` in milliseconds, where the source reads `Date.now()`. The source
moves from success to result, and from explosion to result, with a delayed
callback (app.js:574-577, app.js:613-616). The model does this with a
deadline check in `Tick`: 500 ms after `stateStartTime` for a success and
1000 ms for an explosion. This matches the source because no tap and no
frame changes a success or explosion state in the meantime. The one
difference is that the model stamps the result state with the clock
reading of the frame that sees the deadline, while the source stamps it
when the callback runs.

The meteorite and the alien are plain objects that only the game
reaches. The model holds them as datatype values in fields and replaces
them on update. Positions and speeds are `real`. Every speed and meteorite
height is an exact sum or product of the configuration constants. The alien
anchor is the canvas size times 0.5 or 0.75, so the model matches the
source's floating-point values for canvas sizes whose products are exactly
representable, which covers the usual whole-pixel sizes.

Two facts follow from the proofs and are worth knowing.

- A falling frame explodes the alien once the meteorite reaches
  alien.y + 40. The catch test's lower edge is alien.y + 50. So while the
  alien stays put, that edge never decides a verdict
  (`LowerCatchEdgeUnreached`, `FallingStaysAboveImpact`).
- Once a meteorite in the alien's column (x == alien.x, which holds from
  its spawn as long as the canvas is not resized) has come within 100 pixels
  above the alien, a tap always catches it (`LateTapCatches`). A late tap never produces a miss,
  only a success or, without a tap, an explosion.

## Model

The transition functions of `GameRules` (`StartRound`, `SpawnNewMeteorite`,
`ContinueFalling`, `CheckCatch`, `HandleSuccess`, `HandleMiss`,
`HandleExplosion`, `EnterResult`, `ResetRound`, `Tap`, `StartTap`, `Tick`,
`Resize`) are the reference definitions of the source lines cited in the
rows of the class methods of the same names, except that `Resize` pairs
with the method `UpdateCanvasSize`. Those rows, together with the
lemmas below, cover them.

| member | source | states |
|---|---|---|
| `Evolution.EvolutionStage` | app.js:192-194 | the stage lies in 1..5; it is 5 exactly from level 20 on; below 5 it is the stage s with 5(s−1) ≤ level < 5s |
| `Evolution.SpeedMultiplier` | app.js:196-198 | the multiplier is at least 1.0, and exactly 1.0 only at level 0 |
| `Evolution.SpawnSpeed` | app.js:511-513 | a spawned meteorite is never slower than the base speed 3.0 |
| `Evolution.EvolutionStageMonotone` | app.js:192-194 | the stage never decreases as the level grows |
| `Evolution.EvolutionStep` | app.js:192-194 | one more level raises the stage by at most one; it raises it exactly when the new level is 5, 10, 15 or 20 |
| `Evolution.FirstEvolution` | app.js:192-194 | levels 0..4 are stage 1 and level 5 is stage 2 |
| `Evolution.SpeedMultiplierIncreasing` | app.js:196-198 | the multiplier is strictly increasing, by exactly 0.5 per level |
| `Sprites.FallbackUnique` | app.js:206-213 | the fallback answer is determined by the table: two answers that both meet `IsFallback` are equal |
| `Sprites.FullTableFallsBackOneStage` | app.js:206-213 | when every stage up to some top has a sprite, the fallback for a stage is the sprite of the stage just below |
| `GameRules.Abs` | app.js:527 | the absolute value is non-negative and is the argument or its negation |
| `GameRules.Catches` | app.js:530-536 | a catch succeeds exactly when alien.x − 75 ≤ x ≤ alien.x + 75 and alien.y − 100 < y < alien.y + 50, both vertical bounds exclusive |
| `GameRules.ImpactLine` | app.js:312-313 | the impact line lies above the alien's bottom edge; for the 120-pixel alien it is alien.y + 40 |
| `GameRules.InitialInv` | app.js:26-33 | the initial state is waiting, at level 0, stage 1, no explosions, `justEvolved` false, meteorite hidden, with the alien anchored at (0.5·width, 0.75·height), and it meets the invariant |
| `GameRules.HandleSuccessInv` | app.js:543-563 | a catch during a fall keeps the invariant, including stage == EvolutionStage(level) |
| `GameRules.TapPreservesInv` | app.js:216-224 | a canvas tap in any state keeps the invariant |
| `GameRules.StepPreservesInv` | app.js:298-350 | every tap, button tap, frame or resize keeps the invariant |
| `GameRules.RunPreservesInv` | app.js:543-602 | after any sequence of events the invariant holds; in particular the latched stage equals the stage of the current level |
| `GameRules.StepProgress` | app.js:543-602 | level and explosion count change only by a success (level + 1, explosions kept) or an explosion (level 0, explosions + 1) |
| `GameRules.StepStageLatched` | app.js:549-563 | the latched stage goes down only through an explosion |
| `GameRules.RunExplosionsMonotone` | app.js:601 | over any sequence of events the explosion count never decreases, and rises by at most one per event |
| `GameRules.SpawnPosition` | app.js:506-515 | a spawned meteorite is at x = alien.x, y = −80, with speed 3.0·(1 + 0.5·level), visible, and the level is kept |
| `GameRules.HigherLevelFallsFaster` | app.js:491-515 | a round started at a higher level has a strictly faster meteorite |
| `GameRules.CatchSymmetric` | app.js:527-534 | the verdict is the same at equal distances left and right of the alien |
| `GameRules.CatchBoundaries` | app.js:534-536 | y = alien.y + 50 fails and y = alien.y + 49.999 succeeds; y = alien.y − 100 fails; x = alien.x + 75 succeeds and x = alien.x − 75.001 fails |
| `GameRules.CatchDependsOnlyOnPositions` | app.js:525-541 | two falling states with equal meteorite and alien positions get the same verdict, whatever the time, level or speed, and the verdict is success or miss |
| `GameRules.LowerCatchEdgeUnreached` | app.js:306-317 | while the meteorite is above the impact line, the catch verdict depends only on the horizontal distance and the upper edge |
| `GameRules.LateTapCatches` | app.js:525-541 | a tap on a meteorite in the alien's column, between 100 above the alien and the impact line, is a success |
| `GameRules.TapWhileFalling` | app.js:525-563 | a tap while falling succeeds exactly when the catch test holds; a success hides the meteorite, adds one level, keeps the explosions, latches the new stage, and sets `justEvolved` exactly when the stage rose, that is at levels 5, 10, 15, 20 |
| `GameRules.TapMiss` | app.js:580-590 | a failed catch only switches to miss and restarts the state clock; level, stage, explosions and meteorite are unchanged |
| `GameRules.TapStartsRound` | app.js:216-237 | in waiting, a canvas tap and a button tap both start a round: falling, fresh meteorite above the alien at the level's speed, level, explosions, stage and alien kept, `justEvolved` false, both clocks set to now |
| `GameRules.TapIgnored` | app.js:216-237 | in success, miss, explosion and result, a canvas tap and a button tap change nothing |
| `GameRules.StartTapOnlyInWaiting` | app.js:226-237 | the instructions button acts only in waiting; in every other state, falling included, it changes nothing |
| `GameRules.FallingTick` | app.js:306-317 | a falling frame adds the speed to y; at or below alien.y + size/2 − 20 the state becomes explosion on the same frame whatever x is, otherwise nothing else changes |
| `GameRules.ExplosionResets` | app.js:592-602 | an explosion sets level 0 and stage 1, clears `justEvolved`, hides the meteorite and adds exactly one explosion, whatever the prior level |
| `GameRules.FallingStaysAboveImpact` | app.js:306-317 | after a falling frame that keeps the game falling, the meteorite is above the impact line |
| `GameRules.MissContinues` | app.js:326-333 | a miss never changes level, stage or explosions; before 500 ms a frame changes nothing; from 500 ms on the game falls again with a fresh meteorite above the alien at the same speed |
| `GameRules.DisplayDeadlines` | app.js:574-616 | success turns into result 500 ms after it began, explosion after 1000 ms; before that a frame changes nothing |
| `GameRules.ResultTimeout` | app.js:342-346 | the result turns into waiting exactly when 2500 ms (after an evolution) or 500 ms (otherwise) have passed, and clears `justEvolved`; level and explosions are kept |
| `GameRules.WaitingTickIdle` | app.js:302-304 | a frame while waiting changes nothing |
| `GameRules.QuickRound` | app.js:216-224 | on a canvas where the spawn point already lies in the catch band, start, catch, success display and result display bring the game back to waiting at one level higher |
| `GameRules.FiveCatchesEvolve` | app.js:543-563 | on a fresh game on a canvas 20 pixels tall (the spawn point already lies in the catch band), five taps right after five starts are all successes and reach level 5 and stage 2; the first four leave `justEvolved` false and the fifth sets it |
| `GameRules.LevelFourImpact` | app.js:306-317 | the level-4 instance of `ExplosionResets`: a meteorite that reaches the alien explodes it, giving level 0, stage 1, one more explosion |
| `AlienGame.AlienEvolutionGame.constructor` | app.js:26-36 | the object starts in the initial state, laid out on the given canvas, with the loaded sprite table |
| `AlienGame.AlienEvolutionGame.UpdateCanvasSize` | app.js:65-77 | a resize moves the alien anchor to (0.5·width, 0.75·height) and nothing else |
| `AlienGame.AlienEvolutionGame.SpawnNewMeteorite` | app.js:506-515 | the fields change as `GameRules.SpawnNewMeteorite` says |
| `AlienGame.AlienEvolutionGame.StartRound` | app.js:491-504 | the fields change as `GameRules.StartRound` says |
| `AlienGame.AlienEvolutionGame.ContinueFalling` | app.js:517-523 | the fields change as `GameRules.ContinueFalling` says |
| `AlienGame.AlienEvolutionGame.CheckCatch` | app.js:525-541 | the fields change as `GameRules.CheckCatch` says: success when the catch test holds, miss otherwise |
| `AlienGame.AlienEvolutionGame.HandleSuccess` | app.js:543-563 | the fields change as `GameRules.HandleSuccess` says |
| `AlienGame.AlienEvolutionGame.HandleMiss` | app.js:580-583 | the fields change as `GameRules.HandleMiss` says |
| `AlienGame.AlienEvolutionGame.HandleExplosion` | app.js:592-602 | the fields change as `GameRules.HandleExplosion` says |
| `AlienGame.AlienEvolutionGame.EnterResult` | app.js:574-577 | the delayed callback switches to result and restarts the state clock |
| `AlienGame.AlienEvolutionGame.ResetRound` | app.js:638-642 | the fields change as `GameRules.ResetRound` says: waiting, `justEvolved` cleared |
| `AlienGame.AlienEvolutionGame.Tap` | app.js:216-224 | a canvas tap keeps `Valid()` and changes the fields as `GameRules.Tap` says |
| `AlienGame.AlienEvolutionGame.StartTap` | app.js:226-237 | a button tap keeps `Valid()` and changes the fields as `GameRules.StartTap` says |
| `AlienGame.AlienEvolutionGame.Tick` | app.js:298-350 | a frame keeps `Valid()` and changes the fields as `GameRules.Tick` says |
| `AlienGame.AlienEvolutionGame.FallbackSprite` | app.js:206-213 | returns the sprite of the highest stage below `stage` that has one for the action, or none when no lower stage has one |
| `AlienGame.AlienEvolutionGame.AlienSprite` | app.js:200-204 | returns the current stage's own sprite when present, otherwise the fallback |

## Left out

- Canvas setup beyond the alien anchor (app.js:64-81): device-pixel scaling and the resize listener are browser plumbing. `UpdateCanvasSize` takes the canvas size as parameters.
- Asset loading (app.js:83-190): network fetches, Promises and drawing placeholder canvases. The constructor takes the finished sprite table as a map from (stage, action) to an asset.
- Drawing (app.js:352-489): `render`, `drawAlien`, `drawMeteoriteWithTrail`, `drawCaughtMeteorite` and `drawExplosion` are presentation over the canvas API.
- The animation accumulators `successAnimationTime`, `missAnimationTime` and `explosionAnimationTime`, and the explosion scale and opacity (app.js:46-50, app.js:323, app.js:327, app.js:336-339, app.js:498-503): they only feed drawing and never gate a transition. The frame's time delta is therefore not a parameter of `Tick`.
- The DOM writes `updateUI`, `updateInstructions`, `showResult` and `showEvolution`, and the cosmetic timers that toggle CSS classes or hide text (app.js:232-235, app.js:253-282, app.js:557-560, app.js:565-572, app.js:585-589, app.js:604-611, app.js:619-636): user-interface side effects with no state of the machine in them.
- The requestAnimationFrame loop, `destroy`, the pause and resume on visibility change, and the touch and gesture suppression (app.js:284-296, app.js:644-684): browser event plumbing. The frame loop is the caller of `Tick`; `Run` stands for any sequence of events it and the input could produce.
- The vertical distance `distanceY` (app.js:528) is computed by the source but never used, so it has no counterpart.
- `Date.now()`: every call within one handler or frame reads the same `now`.
