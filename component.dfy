/**
 * The snake component itself: one field per state variable (the two timer
 * references become the speed each pending timer callback will restore),
 * and one method per handler, updating the fields as the handler calls its
 * setters. Each handler is proved to end in exactly the state the matching
 * transition of SnakeTransitions computes, and to keep the invariant, so
 * every property proved about the transitions holds of the component.
 *
 * The handlers share groups of updates (placing the snake, clearing the run,
 * resuming, the start speed, ...); each group is a method that states the
 * fields it sets and leaves every other field unchanged.
 */
module SnakeComponent {
  import opened SnakeRules
  import T = SnakeTransitions

  class SnakeGame {
    var gameState: T.Screen
    var gameMode: Mode
    var snake: seq<Cell>
    var food: Cell
    var direction: Dir
    var gameOver: bool
    var score: nat
    var isPlaying: bool
    var lives: nat
    var showRevive: bool
    var currentSpeed: real
    var isSlowdown: bool
    var isSpeedBoost: bool
    var unlockedModes: seq<Mode>
    var highScores: map<Mode, nat>
    var starPoints: real
    var unlockedPatterns: seq<Pattern>
    var lastStarCheck: nat
    /** The speed the pending slowdown callback restores, if one is pending. */
    var slowdownTimer: Option<real>
    /** The speed the pending boost callback restores, if one is pending. */
    var speedBoostTimer: Option<real>

    function PaceState(): T.Pace
      reads this
    {
      T.Pace(currentSpeed, isSlowdown, isSpeedBoost, slowdownTimer, speedBoostTimer)
    }

    function ProfileState(): T.Profile
      reads this
    {
      T.Profile(unlockedModes, highScores, starPoints, unlockedPatterns)
    }

    /** The component's state as a value. */
    function Snapshot(): T.Game
      reads this
    {
      T.Game(gameState, gameMode, snake, food, direction, gameOver, score, isPlaying,
             lives, showRevive, lastStarCheck, PaceState(), ProfileState())
    }

    predicate Valid()
      reads this
    {
      T.Inv(Snapshot())
    }

    /** Mounting the component. */
    constructor ()
      ensures Snapshot() == T.Initial
      ensures Valid()
    {
      gameState := T.Menu;
      gameMode := Classic;
      snake := InitialSnake;
      food := InitialFood;
      direction := InitialDirection;
      gameOver := false;
      score := 0;
      isPlaying := false;
      lives := 0;
      showRevive := false;
      currentSpeed := InitialSpeed;
      isSlowdown := false;
      isSpeedBoost := false;
      unlockedModes := [Classic];
      highScores := T.AllZeroScores;
      starPoints := 0.0;
      unlockedPatterns := DefaultPatterns;
      lastStarCheck := 0;
      slowdownTimer := None;
      speedBoostTimer := None;
      T.InitialInv();
    }

    // ---------------------------------------------------------------------
    // Groups of updates the handlers share
    // ---------------------------------------------------------------------

    /** The snake back at its start cell, heading right. */
    method PlaceSnake()
      modifies this
      ensures snake == InitialSnake && direction == InitialDirection
      ensures unchanged(`gameState, `gameMode, `food, `gameOver, `score, `isPlaying, `lives,
                        `showRevive, `lastStarCheck)
      ensures unchanged(`currentSpeed, `isSlowdown, `isSpeedBoost, `slowdownTimer, `speedBoostTimer)
      ensures unchanged(`unlockedModes, `highScores, `starPoints, `unlockedPatterns)
    {
      snake := InitialSnake;
      direction := InitialDirection;
    }

    /** Food, score, lives and star check of a fresh run. */
    method ClearRun()
      modifies this
      ensures food == InitialFood && score == 0 && lives == 0 && lastStarCheck == 0
      ensures unchanged(`gameState, `gameMode, `snake, `direction, `gameOver, `isPlaying, `showRevive)
      ensures unchanged(`currentSpeed, `isSlowdown, `isSpeedBoost, `slowdownTimer, `speedBoostTimer)
      ensures unchanged(`unlockedModes, `highScores, `starPoints, `unlockedPatterns)
    {
      food := InitialFood;
      score := 0;
      lives := 0;
      lastStarCheck := 0;
    }

    /** The run is live: not over, no revive offered, moving. */
    method Resume()
      modifies this
      ensures !gameOver && !showRevive && isPlaying
      ensures unchanged(`gameState, `gameMode, `snake, `food, `direction, `score, `lives,
                        `lastStarCheck)
      ensures unchanged(`currentSpeed, `isSlowdown, `isSpeedBoost, `slowdownTimer, `speedBoostTimer)
      ensures unchanged(`unlockedModes, `highScores, `starPoints, `unlockedPatterns)
    {
      gameOver := false;
      showRevive := false;
      isPlaying := true;
    }

    /** A start speed with no window open. */
    method SetStartSpeed(speed: real)
      modifies this
      ensures currentSpeed == speed && !isSlowdown && !isSpeedBoost
      ensures unchanged(`gameState, `gameMode, `snake, `food, `direction, `gameOver, `score,
                        `isPlaying, `lives, `showRevive, `lastStarCheck)
      ensures unchanged(`slowdownTimer, `speedBoostTimer)
      ensures unchanged(`unlockedModes, `highScores, `starPoints, `unlockedPatterns)
    {
      currentSpeed := speed;
      isSlowdown := false;
      isSpeedBoost := false;
    }

    /** Clearing both window timeouts: no callback is pending any more. */
    method CancelTimers()
      modifies this
      ensures slowdownTimer == None && speedBoostTimer == None
      ensures unchanged(`gameState, `gameMode, `snake, `food, `direction, `gameOver, `score,
                        `isPlaying, `lives, `showRevive, `lastStarCheck)
      ensures unchanged(`currentSpeed, `isSlowdown, `isSpeedBoost)
      ensures unchanged(`unlockedModes, `highScores, `starPoints, `unlockedPatterns)
    {
      slowdownTimer := None;
      speedBoostTimer := None;
    }

    // ---------------------------------------------------------------------
    // Handlers
    // ---------------------------------------------------------------------

    method ResetGame()
      requires Valid()
      modifies this
      ensures Snapshot() == T.ResetGame(old(Snapshot()))
      ensures Valid()
    {
      var initialSpeed := StartSpeed(gameMode);
      PlaceSnake();
      ClearRun();
      Resume();
      SetStartSpeed(initialSpeed);
      CancelTimers();
    }

    method StartGame(mode: Mode)
      requires Valid()
      modifies this
      ensures Snapshot() == T.StartGame(old(Snapshot()), mode)
      ensures Valid()
    {
      gameMode := mode;
      SetStartSpeed(StartSpeed(mode));
      PlaceSnake();
      ClearRun();
      Resume();
      CancelTimers();
      gameState := T.Playing;
    }

    method QuitToMenu()
      requires Valid()
      modifies this
      ensures Snapshot() == T.QuitToMenu(old(Snapshot()))
      ensures Valid()
    {
      gameState := T.Menu;
      gameOver := false;
      isPlaying := false;
    }

    method OpenCustomize()
      requires Valid()
      modifies this
      ensures Snapshot() == T.OpenCustomize(old(Snapshot()))
      ensures Valid()
    {
      gameState := T.Customize;
    }

    /** Both ways out of the customize screen end on the menu. */
    method CloseCustomize()
      requires Valid()
      modifies this
      ensures Snapshot() == T.CloseCustomize(old(Snapshot()))
      ensures Valid()
    {
      gameState := T.Menu;
    }

    method UnlockMode(mode: Mode)
      requires Valid()
      modifies this
      ensures Snapshot() == T.UnlockMode(old(Snapshot()), mode)
      ensures Valid()
    {
      if mode !in unlockedModes {
        unlockedModes := unlockedModes + [mode];
      }
    }

    /** Also called from the tick, while the other fields are mid-update;
        from a valid state it is the transition UpdateHighScore. */
    method UpdateHighScore(mode: Mode, newScore: nat)
      modifies this
      ensures highScores == HighScoreAfter(old(highScores), mode, newScore)
      ensures old(Valid()) ==> Snapshot() == T.UpdateHighScore(old(Snapshot()), mode, newScore)
      ensures old(Valid()) ==> Valid()
      ensures unchanged(`gameState, `gameMode, `snake, `food, `direction, `gameOver, `score,
                        `isPlaying, `lives, `showRevive, `lastStarCheck)
      ensures unchanged(`currentSpeed, `isSlowdown, `isSpeedBoost, `slowdownTimer, `speedBoostTimer)
      ensures unchanged(`unlockedModes, `starPoints, `unlockedPatterns)
    {
      if mode in highScores && newScore > highScores[mode] {
        highScores := highScores[mode := newScore];
      }
    }

    method UnlockPattern(pattern: Pattern)
      requires Valid()
      modifies this
      ensures Snapshot() == T.UnlockPattern(old(Snapshot()), pattern)
      ensures Valid()
    {
      var cost := PatternCost(pattern);
      if starPoints >= cost && pattern !in unlockedPatterns {
        starPoints := starPoints - cost;
        unlockedPatterns := unlockedPatterns + [pattern];
      }
    }

    method ChangeDirection(requested: Dir)
      requires Valid() && IsUnit(requested)
      modifies this
      ensures Snapshot() == T.ChangeDirection(old(Snapshot()), requested)
      ensures Valid()
    {
      if !isPlaying && gameState == T.Playing {
        isPlaying := true;
      }
      if requested.x != 0 && direction.x == 0 {
        direction := requested;
      } else if requested.y != 0 && direction.y == 0 {
        direction := requested;
      }
    }

    method SpacePress()
      requires Valid()
      modifies this
      ensures Snapshot() == T.SpacePress(old(Snapshot()))
      ensures Valid()
    {
      if showRevive && lives > 0 {
        lives := lives - 1;
        showRevive := false;
        PlaceSnake();
      } else if gameOver {
        ResetGame();
      }
    }

    /** The keyboard listener, installed only while on the game screen. */
    method KeyPress(key: Key)
      requires Valid()
      modifies this
      ensures Snapshot() == T.KeyPress(old(Snapshot()), key)
      ensures Valid()
    {
      if gameState != T.Playing {
        return;
      }
      if key == SpaceKey {
        SpacePress();
        return;
      }
      if key.ArrowKey? {
        if !isPlaying {
          isPlaying := true;
        }
        match key.arrow
        case Up => if direction.y == 0 { direction := Dir(0, -1); }
        case Down => if direction.y == 0 { direction := Dir(0, 1); }
        case Left => if direction.x == 0 { direction := Dir(-1, 0); }
        case Right => if direction.x == 0 { direction := Dir(1, 0); }
      }
    }

    /** The callback of the slowdown timer. */
    method RevertSlowdown()
      requires Valid()
      modifies this
      ensures Snapshot() == T.RevertSlowdown(old(Snapshot()))
      ensures Valid()
    {
      match slowdownTimer
      case None =>
      case Some(saved) =>
        currentSpeed := saved;
        isSlowdown := false;
        slowdownTimer := None;
    }

    /** The callback of the boost timer. */
    method RevertBoost()
      requires Valid()
      modifies this
      ensures Snapshot() == T.RevertBoost(old(Snapshot()))
      ensures Valid()
    {
      match speedBoostTimer
      case None =>
      case Some(saved) =>
        currentSpeed := saved;
        isSpeedBoost := false;
        speedBoostTimer := None;
    }

    // ---------------------------------------------------------------------
    // The tick
    // ---------------------------------------------------------------------

    /** A fatal collision of the tick. */
    method Crash()
      requires Valid()
      modifies this
      ensures Snapshot() == T.Crash(old(Snapshot()))
      ensures Valid()
    {
      if lives > 0 {
        showRevive := true;
        return;
      }
      gameOver := true;
      isPlaying := false;
      UpdateHighScore(gameMode, score);
    }

    /** The new score, and the star points for the 250-marks it passed since
        the last star check. */
    method AddPoints(newScore: nat)
      modifies this
      ensures score == newScore
      ensures starPoints == old(starPoints) + T.StarsEarned(old(lastStarCheck), newScore) as real
      ensures lastStarCheck == if T.StarsEarned(old(lastStarCheck), newScore) > 0 then newScore
                               else old(lastStarCheck)
      ensures unchanged(`gameState, `gameMode, `snake, `food, `direction, `gameOver,
                        `isPlaying, `lives, `showRevive)
      ensures unchanged(`currentSpeed, `isSlowdown, `isSpeedBoost, `slowdownTimer, `speedBoostTimer)
      ensures unchanged(`unlockedModes, `highScores, `unlockedPatterns)
    {
      score := newScore;
      if Crossed(lastStarCheck, newScore, StarInterval) {
        var earnedStars := newScore / StarInterval - lastStarCheck / StarInterval;
        starPoints := starPoints + earnedStars as real;
        lastStarCheck := newScore;
      }
    }

    /** The extra life for a life threshold the score passed. */
    method GrantLife(before: nat, newScore: nat)
      modifies this
      ensures lives == old(lives) + (if Crossed(before, newScore, LifeThreshold(gameMode)) then 1 else 0)
      ensures unchanged(`gameState, `gameMode, `snake, `food, `direction, `gameOver, `score,
                        `isPlaying, `showRevive, `lastStarCheck)
      ensures unchanged(`currentSpeed, `isSlowdown, `isSpeedBoost, `slowdownTimer, `speedBoostTimer)
      ensures unchanged(`unlockedModes, `highScores, `starPoints, `unlockedPatterns)
    {
      if Crossed(before, newScore, LifeThreshold(gameMode)) {
        lives := lives + 1;
      }
    }

    /** The milestone unlocks of an eaten food, one call after the other. */
    method ApplyUnlocks(newScore: nat)
      modifies this
      ensures unlockedModes == UnlockBatch(old(unlockedModes), UnlocksFor(gameMode, newScore))
      ensures unchanged(`gameState, `gameMode, `snake, `food, `direction, `gameOver, `score,
                        `isPlaying, `lives, `showRevive, `lastStarCheck)
      ensures unchanged(`currentSpeed, `isSlowdown, `isSpeedBoost, `slowdownTimer, `speedBoostTimer)
      ensures unchanged(`highScores, `starPoints, `unlockedPatterns)
    {
      if gameMode == Classic && newScore >= 3000 {
        unlockedModes := AddMode(unlockedModes, Speed);
      }
      if gameMode == Speed && newScore >= 100 {
        unlockedModes := AddMode(unlockedModes, Hard);
      }
      if gameMode == Hard && newScore >= 7500 {
        unlockedModes := AddMode(unlockedModes, EndlessClassic);
        unlockedModes := AddMode(unlockedModes, EndlessSpeedy);
        unlockedModes := AddMode(unlockedModes, EndlessHard);
      }
      if gameMode == EndlessHard && newScore >= 10000 {
        unlockedModes := AddMode(unlockedModes, Uncompromising);
      }
    }

    /** The mode-specific speed changes of an eaten food; the saved speeds
        are computed from the speed in force when the tick started. */
    method ApplySpeedRules(before: nat, newScore: nat)
      requires T.PaceInv(PaceState())
      modifies this
      ensures PaceState() == T.SpeedRules(gameMode, old(PaceState()), before, newScore)
      ensures unchanged(`gameState, `gameMode, `snake, `food, `direction, `gameOver, `score,
                        `isPlaying, `lives, `showRevive, `lastStarCheck)
      ensures unchanged(`unlockedModes, `highScores, `starPoints, `unlockedPatterns)
    {
      if gameMode == Speed || gameMode == EndlessSpeedy {
        SpeedUp(before, newScore);
      } else if gameMode == Hard || gameMode == EndlessHard {
        Boost(before, newScore, BoostInterval(gameMode), HardBoostSpeed);
      } else if gameMode == Uncompromising {
        Boost(before, newScore, UncompromisingBoostInterval, UncompromisingBoostSpeed);
      }
    }

    /** The speed-up and the slowdown of the speedy modes. */
    method SpeedUp(before: nat, newScore: nat)
      requires T.PaceInv(PaceState()) && (gameMode == Speed || gameMode == EndlessSpeedy)
      modifies this
      ensures PaceState() == T.SpeedRules(gameMode, old(PaceState()), before, newScore)
      ensures unchanged(`gameState, `gameMode, `snake, `food, `direction, `gameOver, `score,
                        `isPlaying, `lives, `showRevive, `lastStarCheck)
      ensures unchanged(`unlockedModes, `highScores, `starPoints, `unlockedPatterns)
    {
      var tickSpeed := currentSpeed;
      var speedUpPercent := SpeedUpFactor(gameMode);
      if Crossed(before, newScore, SpeedUpInterval) {
        currentSpeed := currentSpeed * speedUpPercent;
      }
      if Crossed(before, newScore, SlowdownInterval) {
        var savedSpeed := tickSpeed * speedUpPercent;
        currentSpeed := InitialSpeed;
        isSlowdown := true;
        slowdownTimer := Some(savedSpeed);
      }
    }

    /** The speed boost of the hard modes and of the uncompromising mode. */
    method Boost(before: nat, newScore: nat, interval: nat, boostSpeed: real)
      requires T.PaceInv(PaceState())
      requires gameMode in {Hard, EndlessHard, Uncompromising}
      requires interval == (if gameMode == Uncompromising then UncompromisingBoostInterval else BoostInterval(gameMode))
      requires boostSpeed == (if gameMode == Uncompromising then UncompromisingBoostSpeed else HardBoostSpeed)
      modifies this
      ensures PaceState() == T.SpeedRules(gameMode, old(PaceState()), before, newScore)
      ensures unchanged(`gameState, `gameMode, `snake, `food, `direction, `gameOver, `score,
                        `isPlaying, `lives, `showRevive, `lastStarCheck)
      ensures unchanged(`unlockedModes, `highScores, `starPoints, `unlockedPatterns)
    {
      if Crossed(before, newScore, interval) {
        var tickSpeed := currentSpeed;
        currentSpeed := boostSpeed;
        isSpeedBoost := true;
        speedBoostTimer := Some(tickSpeed);
      }
    }

    /** The grown snake, and new food drawn off it. */
    method Grow(newHead: Cell, draws: seq<Cell>)
      requires AllInGrid(draws) && HasFreeDraw(draws, FoodExclusion(snake, newHead))
      modifies this
      ensures food == draws[FirstFreeIndex(draws, FoodExclusion(old(snake), newHead))]
      ensures snake == [newHead] + old(snake)
      ensures unchanged(`gameState, `gameMode, `direction, `gameOver, `score, `isPlaying, `lives,
                        `showRevive, `lastStarCheck)
      ensures unchanged(`currentSpeed, `isSlowdown, `isSpeedBoost, `slowdownTimer, `speedBoostTimer)
      ensures unchanged(`unlockedModes, `highScores, `starPoints, `unlockedPatterns)
    {
      food := GenerateFood(FoodExclusion(snake, newHead), draws);
      snake := [newHead] + snake;
    }

    /** The effects of an eaten food, in the order of the tick's setters. */
    method Feed()
      requires Valid()
      modifies this
      ensures Snapshot() == T.Fed(old(Snapshot()))
      ensures Valid()
    {
      ghost var fed := T.Fed(Snapshot());
      var before := score;
      var newScore := score + PointsPerFood;
      AddPoints(newScore);
      GrantLife(before, newScore);
      assert score == fed.score && lastStarCheck == fed.lastStarCheck && lives == fed.lives;
      ApplyUnlocks(newScore);
      ApplySpeedRules(before, newScore);
      assert PaceState() == fed.pace;
      assert ProfileState() == fed.profile;
    }

    /** Eating the food at the new head. */
    method Eat(newHead: Cell, draws: seq<Cell>)
      requires Valid() && InGrid(newHead) && newHead !in snake && newHead == food
      requires AllInGrid(draws) && HasFreeDraw(draws, FoodExclusion(snake, newHead))
      modifies this
      ensures Snapshot() == T.Eat(old(Snapshot()), newHead, draws)
      ensures Valid()
    {
      var before := score;
      Feed();
      if gameMode == Uncompromising && score >= VictoryScore && before < VictoryScore {
        Win();
        return;
      }
      GrowOnto(newHead, draws);
    }

    /** The victory branch of an eaten food. */
    method Win()
      requires Valid()
      modifies this
      ensures Snapshot() == T.Win(old(Snapshot()))
      ensures Valid()
    {
      gameOver := true;
      isPlaying := false;
      UpdateHighScore(gameMode, score);
    }

    /** The growing branch of an eaten food. */
    method GrowOnto(newHead: Cell, draws: seq<Cell>)
      requires Valid() && InGrid(newHead) && newHead !in snake && newHead == food
      requires AllInGrid(draws) && HasFreeDraw(draws, FoodExclusion(snake, newHead))
      modifies this
      ensures Snapshot() == T.Grown(old(Snapshot()), newHead, draws)
      ensures Valid()
    {
      Grow(newHead, draws);
    }

    /** One tick of the game loop. */
    method Tick(draws: seq<Cell>)
      requires Valid() && T.TickDrawsOk(Snapshot(), draws)
      modifies this
      ensures Snapshot() == T.Tick(old(Snapshot()), draws)
      ensures Valid()
    {
      if gameState != T.Playing || gameOver || !isPlaying || showRevive {
        return;
      }
      var newHead := NextHead(snake[0], direction);
      if !InGrid(newHead) {
        Crash();
        return;
      }
      if newHead in snake {
        Crash();
        return;
      }
      if newHead == food {
        Eat(newHead, draws);
      } else {
        snake := [newHead] + snake[..|snake| - 1];
      }
    }
  }
}
