# Snake game core in Dafny

This project models the game logic of the `SnakeGame` React component
(`src/SnakeGame.jsx`). That logic is:

- the state variables of the component;
- the handlers that start, restart and leave a run;
- the touch-pad and keyboard direction rules;
- the space key (revive or restart);
- mode unlocks, high scores and the pattern shop;
- the two timer callbacks that end a slowdown or a speed boost;
- the tick `moveSnake`.

The tick covers wall and self collision, the revive offer, growing versus
moving, the 10 points per food, star points, extra lives, milestone unlocks,
the speed-up, slowdown and boost windows, and the uncompromising-mode victory.

The project has three modules.

- `SnakeRules` (`rules.dfy`) holds the pure rules:
  - the 20×20 grid, the turn rule, and the arrow-key guard;
  - the step-boundary test `floor(after / k) > floor(before / k)`, which
    decides every milestone;
  - the per-mode tables: start speed, life threshold, speed-up factor, boost
    interval and unlock thresholds;
  - adding a mode, and updating a high score;
  - the pattern price list;
  - food placement, as the rejection loop `GenerateFood` over a
    caller-supplied sequence of random draws.
- `SnakeTransitions` (`transitions.dfy`) holds the component's state as a
  value (`Game`) and an invariant `Inv` that every reachable state keeps.
  - Every handler is a pure transition, and the lemmas state the game's
    properties about them.
  - An `Event` type and `Run` compose the handlers. `RunKeepsProgress` proves
    that no sequence of events loses an unlocked mode or pattern or lowers a
    high score.
- `SnakeComponent` (`component.dfy`) holds the class `SnakeGame`.
  - It has one field per `useState` variable. The two timer references become
    `Option<real>`: the speed that the pending callback will restore, if one
    is pending.
  - Each handler is a method that updates the fields in the order of the
    handler's setters.
  - Each method is proved to end in exactly the state the matching transition
    computes, and to keep `Valid()`. Everything proved about the transitions
    therefore holds of the class.

## Modelling choices

- **Speeds and prices** (the tick interval, the saved speeds, star points and
  pattern costs) are exact `real`s. `150 / 1.30` is a rational here, not an
  IEEE double.
- **React setters** are sequential assignments. Two places depend on this:
  - At `src/SnakeGame.jsx:379-385` a 200-mark both decrements the speed
    through a functional update and then sets it to the reference interval.
    Every multiple of 200 is a multiple of 50, so the saved speed
    `currentSpeed * factor` is the compounded speed whichever reading of the
    batch is taken (`SnakeRules.CrossedFactor`,
    `SnakeTransitions.SlowdownRevertsToCompounded`).
  - The unlock calls at `src/SnakeGame.jsx:366-368` do lose updates in React.
    This is the second finding below. The model and the component class
    unlock all three modes.
- **Randomness.** `Math.random` is replaced by a sequence of cell draws.
  `GenerateFood` is the `do … while` loop: it returns the first draw that
  misses the cells it is given to avoid.
- **Food placement follows the corrected rule, not the code.**
  - In the source the loop avoids the snake as it was before the move
    (`src/SnakeGame.jsx:188`), so new food can be placed under the new head.
    This is the first finding below.
  - `Tick`, `Grown`, `Grow` and `TickMoves` instead avoid the grown snake
    (`FoodExclusion`), and the tick requires that, when the snake eats, one
    of the draws misses the grown snake.
  - So the food clause of `Inv` (food off the snake, except right after a
    revive) holds for the model but not for every state the source can
    reach: there the food can lie under the head.
- **Timers.**
  - A `setTimeout` callback is modelled as a pending revert holding its saved
    speed.
  - `clearTimeout` followed by a new timeout overwrites that pending revert.
  - `resetGame` cancels both pending reverts.
  - `startGame` cancels neither in the code, so a window still open when the
    player quit expires in the next run. This is the third finding below.
    The model's `StartGame` and the class cancel both, as `resetGame` does.
  - A second boost that fires while a boost window is open saves that
    window's boosted speed, so when the second window expires the speed stays
    boosted. `BoostRevertsToPrevious` states exactly this: on expiry the
    speed is the one in force when the boost fired.
- **Where the code is followed over the game's written design:**
  - A revive leaves `isPlaying` set, so the next tick moves the snake at
    once.
  - Self collision is checked against the whole pre-move snake, tail
    included, so moving into the cell the tail is leaving is fatal.
  - The turn rule compares a request with the direction last set, not with
    the direction the snake last moved in. A single request is never a
    reversal, but two accepted requests between ticks can reverse the snake
    into its own neck, and the next tick ends the run
    (`TwoTurnsBetweenTicksReverse`).
  - A high-score entry missing from the map is never written, because the
    comparison with `undefined` is false. The invariant keeps every mode in
    the map.
- **Screens.**
  - The tick runs only on the game screen (the interval is installed only
    there), only while moving, and only with no game over and no revive
    pending.
  - Keys are listened to only on the game screen, and the touch pad is drawn
    only there.
  - Of the menu, the model keeps the mode buttons, which start only unlocked
    modes, and the customize button.
  - Both "Save & Return" and "Cancel" leave the customize screen for the
    menu (`CloseCustomize`).

## Model

| member | source | states |
|---|---|---|
| `SnakeRules.TurnIffPerpendicular` | src/SnakeGame.jsx:276-280 | for unit directions, the touch-pad rule takes the request exactly when it is perpendicular (zero dot product) to the current direction, and the result is again a unit direction |
| `SnakeRules.ArrowTurnIsTurn` | src/SnakeGame.jsx:469-484 | each arrow key's guard gives the same direction as the touch-pad rule applied to that arrow's unit vector |
| `SnakeRules.CrossedIffMultipleBetween` | src/SnakeGame.jsx:352 | the test `floor(after/k) > floor(before/k)` holds exactly when some multiple of k lies in (before, after] |
| `SnakeRules.CrossedOnFood` | src/SnakeGame.jsx:328-352 | when the score and k are multiples of 10, a food crosses a k-mark exactly when the new score is a multiple of k |
| `SnakeRules.CrossedFactor` | src/SnakeGame.jsx:379-385 | crossing a multiple of a·b crosses a multiple of a, so a 200-mark is always also a 50-mark |
| `SnakeRules.StartSpeed` | src/SnakeGame.jsx:192-198 | every start interval is positive and at most 150, and it is exactly 150 only for classic and endless-classic |
| `SnakeRules.LifeThresholdOnFoodGrid` | src/SnakeGame.jsx:343-350 | every mode's life threshold is positive and a multiple of the food value |
| `SnakeRules.UnlocksFor` | src/SnakeGame.jsx:357-373 | each mode is unlocked by exactly its milestone (classic ≥ 3000 → speed, speed ≥ 100 → hard, hard ≥ 7500 → the three endless modes, endless-hard ≥ 10000 → uncompromising), never classic, without duplicates |
| `SnakeRules.AddMode` | src/SnakeGame.jsx:246-257 | the added mode is present afterwards, the old list is a prefix, at most one element is added, the members are the old ones plus the mode, duplicates are never created, and an already unlocked mode changes nothing |
| `SnakeRules.AddModeIdempotent` | src/SnakeGame.jsx:246-249 | unlocking the same mode twice equals unlocking it once |
| `SnakeRules.UnlockBatchProperties` | src/SnakeGame.jsx:365-369 | unlocking a batch one mode after the other keeps the old list as a prefix, ends with exactly the old modes plus the batch, keeps the list duplicate-free, and changes nothing when every mode is already unlocked |
| `SnakeRules.StaleUnlockBatchAsWritten` | src/SnakeGame.jsx:365-369 | the as-written batch, where every call starts from the same stale list, adds at most one mode |
| `SnakeRules.StaleUnlockDropsModes` | src/SnakeGame.jsx:365-369 | as written, the hard-mode milestone from [classic, speed, hard] ends with only endless-hard added, while the sequential batch also unlocks endless-classic |
| `SnakeRules.StaleUnlockHealsOverThreeFoods` | src/SnakeGame.jsx:365-369 | as written, the lost modes come back one per later food at the milestone: after two foods endless-classic is still missing, after three all three endless modes are unlocked |
| `SnakeRules.HighScoreAfter` | src/SnakeGame.jsx:259-269 | the keys are kept, every other mode's score is untouched, no score decreases, the mode's entry becomes the maximum of old and new, and it changes exactly when the new score is strictly greater |
| `SnakeRules.PatternCostTable` | src/SnakeGame.jsx:18-30 | no pattern price is negative, and the free patterns are exactly the three every profile starts with |
| `SnakeRules.FirstFreeIndex` | src/SnakeGame.jsx:183-188 | the index found is a draw that misses every excluded cell, and every earlier draw hits one |
| `SnakeRules.GenerateFood` | src/SnakeGame.jsx:181-190 | the retry loop returns the first draw off the excluded cells, which is a grid cell not excluded |
| `SnakeRules.FoodOnHeadAsWritten` | src/SnakeGame.jsx:447 | as written, a one-cell snake eating at (11,10) can have its new food drawn at (11,10), under its own head |
| `SnakeRules.FoodOffGrownSnake` | src/SnakeGame.jsx:447 | with the grown snake excluded, the new food is neither the new head nor any old segment |
| `SnakeTransitions.InitialInv` | src/SnakeGame.jsx:49-76 | the state the component mounts with satisfies the invariant |
| `SnakeTransitions.StartGame` | src/SnakeGame.jsx:222-238 | the run starts on the game screen in the chosen mode with the initial snake, direction and food, zero score, lives and star check, the mode's start speed with no window flag set and no revert pending, and the profile untouched; the invariant is kept |
| `SnakeTransitions.StartGameAsWritten` | src/SnakeGame.jsx:222-238 | as written, starting a mode keeps both pending reverts of the previous run, and the invariant is kept |
| `SnakeTransitions.StaleRevertLeaksAsWritten` | src/SnakeGame.jsx:222-238 | as written, a slowdown still pending at the start sets the new run's speed to the old run's saved speed when it expires, which differs from the start speed whenever the saved speed does |
| `SnakeTransitions.StaleRevertLeakExample` | src/SnakeGame.jsx:222-238 | as written, the slowdown of a speed run at 200 points, still pending when a classic run starts, leaves the classic run faster than its start speed of 150 |
| `SnakeTransitions.StartGameCancelsReverts` | src/SnakeGame.jsx:214-219 | with the reverts cancelled as `resetGame` does, neither expiry changes a freshly started run, which runs at its mode's start speed |
| `SnakeTransitions.ResetGame` | src/SnakeGame.jsx:200-220 | the same fresh run in the current mode and on the current screen, with both pending reverts cancelled and the profile untouched; the invariant is kept |
| `SnakeTransitions.QuitToMenu` | src/SnakeGame.jsx:240-244 | the menu screen, with no game over and not playing, and nothing else changed |
| `SnakeTransitions.OpenCustomize` | src/SnakeGame.jsx:646 | only the screen changes, to customize |
| `SnakeTransitions.CloseCustomize` | src/SnakeGame.jsx:498-508 | only the screen changes, back to the menu |
| `SnakeTransitions.UnlockMode` | src/SnakeGame.jsx:246-257 | only the unlocked modes change, by `AddMode`; the invariant (no duplicates, classic unlocked) is kept |
| `SnakeTransitions.UpdateHighScore` | src/SnakeGame.jsx:259-269 | only the high-score map changes, by `HighScoreAfter`; the invariant is kept |
| `SnakeTransitions.UnlockPattern` | src/SnakeGame.jsx:510-526 | an affordable pattern not yet owned is appended and costs exactly its price; otherwise the state is unchanged; owned patterns only grow, star points stay ≥ 0 and never rise, and the pattern is owned afterwards exactly when it was owned or affordable |
| `SnakeTransitions.ChangeDirection` | src/SnakeGame.jsx:271-281 | the direction follows the turn rule, the snake starts moving when on the game screen, and nothing else changes; the invariant is kept |
| `SnakeTransitions.ChangeDirectionTurnsPerpendicular` | src/SnakeGame.jsx:276-280 | the new direction is the request exactly when it is perpendicular to the current one, otherwise the old direction, and it is never the reversal of the current direction |
| `SnakeTransitions.TwoTurnsBetweenTicksReverse` | src/SnakeGame.jsx:276-280 | from a valid two-cell snake heading right, the requests up and then left before a tick give the reversal of the original direction; the next head lies on the snake and the tick ends the run |
| `SnakeTransitions.SpacePress` | src/SnakeGame.jsx:283-292 | during a revive, one life is spent and the snake and direction return to their start; after a game over, the run restarts as `ResetGame`; otherwise nothing changes |
| `SnakeTransitions.KeyPress` | src/SnakeGame.jsx:458-485 | off the game screen nothing changes; an arrow acts as the touch-pad request of its direction; space acts as `SpacePress` |
| `SnakeTransitions.EndSlowdown` | src/SnakeGame.jsx:392-395 | a pending slowdown revert restores its saved speed and clears the slowdown flag; without one nothing changes; afterwards none is pending |
| `SnakeTransitions.EndBoost` | src/SnakeGame.jsx:411-414 | a pending boost revert restores its saved speed and clears the boost flag; without one nothing changes; afterwards none is pending |
| `SnakeTransitions.RevertSlowdown` | src/SnakeGame.jsx:392-395 | the slowdown callback changes only the speed state, by `EndSlowdown`; the invariant is kept |
| `SnakeTransitions.RevertBoost` | src/SnakeGame.jsx:428-431 | the boost callback changes only the speed state, by `EndBoost`; the invariant is kept |
| `SnakeTransitions.StarsEarnedOnFood` | src/SnakeGame.jsx:333-341 | on a food, the stars earned equal `floor(new/250) − floor(old/250)`, which is 1 when the new score is a multiple of 250 and 0 otherwise, and the score-and-star-check invariant holds afterwards |
| `SnakeTransitions.SpeedRules` | src/SnakeGame.jsx:375-433 | the mode's speed changes keep every speed and every saved speed positive |
| `SnakeTransitions.GrowKeepsSnakeInv` | src/SnakeGame.jsx:325-327 | prepending a free head to the snake and placing new food off the grown snake keeps the snake on the grid and free of self-crossing |
| `SnakeTransitions.AdvanceKeepsSnakeInv` | src/SnakeGame.jsx:449 | prepending a free head and dropping the tail keeps the snake on the grid and free of self-crossing |
| `SnakeTransitions.Fed` | src/SnakeGame.jsx:328-433 | the effects of a food keep the invariant |
| `SnakeTransitions.Eat` | src/SnakeGame.jsx:327-452 | eating ends in victory or growth, and keeps the invariant |
| `SnakeTransitions.Win` | src/SnakeGame.jsx:435-444 | the victory keeps the invariant |
| `SnakeTransitions.Grown` | src/SnakeGame.jsx:447-452 | growing onto the food with new food drawn off the grown snake keeps the invariant |
| `SnakeTransitions.Crash` | src/SnakeGame.jsx:301-323 | a fatal collision keeps the invariant |
| `SnakeTransitions.Tick` | src/SnakeGame.jsx:294-453 | every tick keeps the invariant |
| `SnakeTransitions.TickIdle` | src/SnakeGame.jsx:295 | a tick does nothing while not moving, after a game over, or while a revive is offered |
| `SnakeTransitions.TickCollision` | src/SnakeGame.jsx:301-323 | leaving the grid or hitting a segment only offers the revive when a life is left; with none left the run is over and not playing, snake, score and lives are unchanged, the mode's high score becomes the maximum with the score, and every other mode's is untouched |
| `SnakeTransitions.TickMoves` | src/SnakeGame.jsx:297-329 | without collision, the new head is the old head plus the direction; off the food, the length, score, food and lives are unchanged and the body shifts by one; on the food, the score rises by exactly 10, and outside a victory the snake grows by exactly one with the old snake behind the head and the new food on a free grid cell |
| `SnakeTransitions.TickGrantsLife` | src/SnakeGame.jsx:343-355 | eating grants one life exactly when the test on the mode's threshold fires, that is, exactly when the new score is a multiple of the threshold |
| `SnakeTransitions.TickStars` | src/SnakeGame.jsx:333-341 | every tick raises star points by `floor(new/250) − floor(old/250)`; an eating tick raises them by 1 exactly when the new score is a multiple of 250 |
| `SnakeTransitions.TickUnlocks` | src/SnakeGame.jsx:357-373 | eating keeps the unlocked modes as a prefix and duplicate-free, and the unlocked modes become exactly the old ones plus the milestone's |
| `SnakeTransitions.TickEatsPace` | src/SnakeGame.jsx:375-433 | an eating tick's speed state is the mode's speed rules applied to the old one |
| `SnakeTransitions.SlowdownRevertsToCompounded` | src/SnakeGame.jsx:375-396 | in the speedy modes a 200-mark is also a 50-mark; it sets the reference interval and the slowdown flag, and on expiry the speed is the old speed times the mode's factor, with the flag cleared |
| `SnakeTransitions.SpeedUpWithoutSlowdown` | src/SnakeGame.jsx:379-381 | in the speedy modes a 50-mark that is not a 200-mark only multiplies the interval by the mode's factor, making it shorter, and leaves both windows as they were |
| `SnakeTransitions.SpeedRulesWithoutMilestone` | src/SnakeGame.jsx:375-433 | the classic modes never change the pace, and every other mode leaves it unchanged unless the score crosses one of its own marks (50 for the speedy modes, the boost interval for the hard modes, 250 for uncompromising) |
| `SnakeTransitions.BoostRevertsToPrevious` | src/SnakeGame.jsx:399-432 | a boost milestone sets the mode's boosted interval and the boost flag, and on expiry the speed is the one in force when the boost fired, with the flag cleared |
| `SnakeTransitions.VictoryEndsRun` | src/SnakeGame.jsx:435-444 | in uncompromising mode, reaching 10000 ends the run, not playing, with score 10000 recorded as the maximum with the old high score, and with snake and food unmoved |
| `SnakeTransitions.Step` | src/SnakeGame.jsx:455-495 | every enabled event keeps the invariant |
| `SnakeTransitions.StepKeepsProgress` | src/SnakeGame.jsx:246-269 | no single event shrinks the unlocked modes or patterns, changes the high-score keys, or lowers a high score |
| `SnakeTransitions.Run` | src/SnakeGame.jsx:455-495 | every sequence of events keeps the invariant |
| `SnakeTransitions.RunKeepsProgress` | src/SnakeGame.jsx:246-269 | no sequence of events shrinks the unlocked modes or patterns, changes the high-score keys, or lowers a high score |
| `SnakeTransitions.HighScoresChangeOnlyAtRunEnd` | src/SnakeGame.jsx:301-323 | an event that changes the high-score table is a tick that ends a run still in progress |
| `SnakeTransitions.StepStars` | src/SnakeGame.jsx:333-341 | every event other than a start, a restart or a purchase keeps star points rising exactly with the 250-marks of the score |
| `SnakeTransitions.RunStars` | src/SnakeGame.jsx:333-341 | over a sequence of events with no start, restart or purchase, star points rise by the 250-marks the score passed, so from a fresh run by floor(final score / 250) |
| `SnakeComponent.SnakeGame.constructor` | src/SnakeGame.jsx:49-76 | the mounted component is the initial state and is valid |
| `SnakeComponent.SnakeGame.PlaceSnake` | src/SnakeGame.jsx:287-288 | the snake and the direction are back at their start, and no other field changes |
| `SnakeComponent.SnakeGame.ClearRun` | src/SnakeGame.jsx:204-213 | food, score, lives and star check are those of a fresh run, and no other field changes |
| `SnakeComponent.SnakeGame.Resume` | src/SnakeGame.jsx:207-209 | the run is not over, no revive is offered and the snake moves, and no other field changes |
| `SnakeComponent.SnakeGame.SetStartSpeed` | src/SnakeGame.jsx:210-212 | the speed is the given one with both window flags cleared, and no other field changes |
| `SnakeComponent.SnakeGame.CancelTimers` | src/SnakeGame.jsx:214-219 | no revert is pending afterwards, and no other field changes |
| `SnakeComponent.SnakeGame.ResetGame` | src/SnakeGame.jsx:200-220 | the fields end as `SnakeTransitions.ResetGame` of the old state, and stay valid |
| `SnakeComponent.SnakeGame.StartGame` | src/SnakeGame.jsx:222-238 | the fields end as `SnakeTransitions.StartGame`, with both pending reverts cancelled, and stay valid |
| `SnakeComponent.SnakeGame.QuitToMenu` | src/SnakeGame.jsx:240-244 | the fields end as `SnakeTransitions.QuitToMenu`, and stay valid |
| `SnakeComponent.SnakeGame.OpenCustomize` | src/SnakeGame.jsx:646 | the fields end as `SnakeTransitions.OpenCustomize`, and stay valid |
| `SnakeComponent.SnakeGame.CloseCustomize` | src/SnakeGame.jsx:498-508 | the fields end as `SnakeTransitions.CloseCustomize`, and stay valid |
| `SnakeComponent.SnakeGame.UnlockMode` | src/SnakeGame.jsx:246-257 | the fields end as `SnakeTransitions.UnlockMode`, and stay valid |
| `SnakeComponent.SnakeGame.UpdateHighScore` | src/SnakeGame.jsx:259-269 | the high scores become `HighScoreAfter` of the old ones and no other field changes; from a valid state the fields end as `SnakeTransitions.UpdateHighScore` and stay valid |
| `SnakeComponent.SnakeGame.UnlockPattern` | src/SnakeGame.jsx:510-526 | the fields end as `SnakeTransitions.UnlockPattern`, and stay valid |
| `SnakeComponent.SnakeGame.ChangeDirection` | src/SnakeGame.jsx:271-281 | the fields end as `SnakeTransitions.ChangeDirection`, and stay valid |
| `SnakeComponent.SnakeGame.SpacePress` | src/SnakeGame.jsx:283-292 | the fields end as `SnakeTransitions.SpacePress`, and stay valid |
| `SnakeComponent.SnakeGame.KeyPress` | src/SnakeGame.jsx:458-485 | the fields end as `SnakeTransitions.KeyPress`, and stay valid |
| `SnakeComponent.SnakeGame.RevertSlowdown` | src/SnakeGame.jsx:392-395 | the fields end as `SnakeTransitions.RevertSlowdown`, and stay valid |
| `SnakeComponent.SnakeGame.RevertBoost` | src/SnakeGame.jsx:411-414 | the fields end as `SnakeTransitions.RevertBoost`, and stay valid |
| `SnakeComponent.SnakeGame.Crash` | src/SnakeGame.jsx:301-323 | the fields end as `SnakeTransitions.Crash`, and stay valid |
| `SnakeComponent.SnakeGame.AddPoints` | src/SnakeGame.jsx:328-341 | the score is the new one, star points rise by the stars earned since the last check, the check moves to the new score exactly when stars were earned, and no other field changes |
| `SnakeComponent.SnakeGame.GrantLife` | src/SnakeGame.jsx:352-355 | lives rise by one exactly when the threshold test fires, and no other field changes |
| `SnakeComponent.SnakeGame.ApplyUnlocks` | src/SnakeGame.jsx:357-373 | the unlocked modes become the old ones with the milestone's modes added one after the other, and no other field changes |
| `SnakeComponent.SnakeGame.ApplySpeedRules` | src/SnakeGame.jsx:375-433 | the speed fields become the mode's speed rules applied to the old ones, and no other field changes |
| `SnakeComponent.SnakeGame.SpeedUp` | src/SnakeGame.jsx:375-397 | in the speedy modes, the speed fields become the speed rules' result, and no other field changes |
| `SnakeComponent.SnakeGame.Boost` | src/SnakeGame.jsx:399-433 | in the hard and uncompromising modes, the speed fields become the speed rules' result, and no other field changes |
| `SnakeComponent.SnakeGame.Grow` | src/SnakeGame.jsx:447-452 | the snake gains the new head and the food is the first draw off the grown snake, and no other field changes |
| `SnakeComponent.SnakeGame.Feed` | src/SnakeGame.jsx:328-433 | the fields end as `SnakeTransitions.Fed`, and stay valid |
| `SnakeComponent.SnakeGame.Eat` | src/SnakeGame.jsx:327-452 | the fields end as `SnakeTransitions.Eat`, and stay valid |
| `SnakeComponent.SnakeGame.Win` | src/SnakeGame.jsx:435-438 | the fields end as `SnakeTransitions.Win`, and stay valid |
| `SnakeComponent.SnakeGame.GrowOnto` | src/SnakeGame.jsx:447-452 | the fields end as `SnakeTransitions.Grown`, and stay valid |
| `SnakeComponent.SnakeGame.Tick` | src/SnakeGame.jsx:294-453 | the fields end as `SnakeTransitions.Tick`, and stay valid, so every tick lemma above holds of the component |

## Left out

- Rendering (`src/SnakeGame.jsx:32-46` and the JSX of the screens): presentation only.
- Tone.js audio (`src/SnakeGame.jsx:134-179` and the sound calls): fire-and-forget calls into a foreign library with no effect on the state.
- `window.storage` loading at mount and every saving call: asynchronous external persistence whose failures are only logged. The profile starts from its default values.
- Snake colour and pattern selection, and the saving done by `saveCustomization`: cosmetic, with no effect on the game. Only the exit to the menu is modelled (`CloseCustomize`).
- `setInterval` scheduling and the 7000 ms and 6000 ms durations: the model has no time. The tick and the two expiries are events that can arrive in any order.
- `alert` and `console` output: messages only.
- IEEE floating-point rounding of speeds and prices: exact rationals are used instead.
- The JavaScript string keys of modes and patterns: they are datatype constructors here.
- `SnakeComponent.SnakeGame.Tick`: requires that, when the snake eats, some supplied draw misses the grown snake. When the grown snake covers all 400 cells there is no such cell, and the model says nothing about that tick. The source's loop still ends there, because it avoids only the pre-move snake and the eaten cell is free; it puts the food under the new head.
- `SnakeTransitions.SpeedRules`: its own contract states only that every speed stays positive. What each mode does to the pace is stated by `SlowdownRevertsToCompounded`, `SpeedUpWithoutSlowdown`, `BoostRevertsToPrevious` and `SpeedRulesWithoutMilestone`.
- `SnakeTransitions.Fed`, `SnakeTransitions.Eat`, `SnakeTransitions.Win`, `SnakeTransitions.Grown`, `SnakeTransitions.Crash` and `SnakeTransitions.Tick`: their own contracts state only that the invariant is kept. What the tick does is stated by the `Tick…` lemmas and by `VictoryEndsRun`.

## Findings

| source | as written | input that shows it | evidently intended | confidence | as-written member | corrected member |
|---|---|---|---|---|---|---|
| src/SnakeGame.jsx:181-190 | `generateFood` closes over the pre-move `snake`, so after eating it avoids only the old segments, not the new head standing on the eaten food | one-cell snake at (10,10) heading right onto food at (11,10), first draw (11,10) | new food avoids the grown snake, head included | not executed | `SnakeRules.FoodOnHeadAsWritten` | `SnakeRules.FoodOffGrownSnake` |
| src/SnakeGame.jsx:365-369 | the three `unlockMode` calls each spread the same stale `unlockedModes` and replace the whole list, so only the last call that adds a mode survives; each later food at the milestone adds one more lost mode, so the loss lasts only if the run ends within two more foods | hard mode at score 7500 with [classic, speed, hard] unlocked | all three endless modes are unlocked | not executed | `SnakeRules.StaleUnlockDropsModes` | `SnakeRules.UnlockBatchProperties` |
| src/SnakeGame.jsx:222-238 | `startGame` does not clear the slowdown and boost timeouts that `resetGame` clears, so a window still open when the player quit expires in the next run and sets its speed | a speed run quit during the slowdown of its 200-mark, then a classic run started | a new run starts at its mode's start speed and keeps it until its own milestones | not executed | `SnakeTransitions.StaleRevertLeakExample` | `SnakeTransitions.StartGameCancelsReverts` |
