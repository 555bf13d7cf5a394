/**
 * The snake component's state as a value, and every handler of the component
 * as a pure transition on that value. The class in component.dfy updates its
 * fields step by step and is proved to end in exactly the state these
 * functions compute; the properties of the game are proved here.
 */
module SnakeTransitions {
  import opened SnakeRules

  datatype Screen = Menu | Customize | Playing

  /** The speed state: the tick interval, the two window flags, and the
      pending revert of each window with the speed its callback restores. */
  datatype Pace = Pace(
    speed: real,
    isSlowdown: bool,
    isSpeedBoost: bool,
    slowdownRevert: Option<real>,
    boostRevert: Option<real>)

  /** The persisted progression state. */
  datatype Profile = Profile(
    unlockedModes: seq<Mode>,
    highScores: map<Mode, nat>,
    starPoints: real,
    unlockedPatterns: seq<Pattern>)

  /** The component's state variables; the speed and progression variables
      are grouped in a Pace and a Profile. */
  datatype Game = Game(
    screen: Screen,
    mode: Mode,
    snake: seq<Cell>,
    food: Cell,
    direction: Dir,
    gameOver: bool,
    score: nat,
    isPlaying: bool,
    lives: nat,
    showRevive: bool,
    lastStarCheck: nat,
    pace: Pace,
    profile: Profile)

  /** The snake lies on the grid without crossing itself, and the food is
      off the snake, except right after a revive put the one-cell snake back
      on the food's cell. */
  predicate SnakeInv(snake: seq<Cell>, food: Cell) {
    && |snake| >= 1
    && AllInGrid(snake)
    && NoDup(snake)
    && InGrid(food)
    && (food in snake ==> snake == [food])
  }

  /** Scores move in steps of 10 and the star check keeps pace with them. */
  predicate ScoreInv(score: nat, lastStarCheck: nat) {
    && IsMultiple(score, PointsPerFood)
    && lastStarCheck <= score
    && lastStarCheck / StarInterval == score / StarInterval
  }

  predicate PaceInv(p: Pace) {
    && p.speed > 0.0
    && (p.slowdownRevert.Some? ==> p.slowdownRevert.value > 0.0)
    && (p.boostRevert.Some? ==> p.boostRevert.value > 0.0)
  }

  predicate ProfileInv(p: Profile) {
    && p.starPoints >= 0.0
    && NoDup(p.unlockedModes) && Classic in p.unlockedModes
    && (forall m: Mode :: m in p.highScores)
    && NoDup(p.unlockedPatterns)
  }

  /** What every reachable state satisfies. */
  predicate Inv(g: Game) {
    && SnakeInv(g.snake, g.food)
    && IsUnit(g.direction)
    && ScoreInv(g.score, g.lastStarCheck)
    && PaceInv(g.pace)
    && ProfileInv(g.profile)
    && (g.showRevive ==> g.lives > 0)
  }

  const AllZeroScores: map<Mode, nat> := map[
    Classic := 0, Speed := 0, Hard := 0, EndlessClassic := 0,
    EndlessSpeedy := 0, EndlessHard := 0, Uncompromising := 0]

  /** The state the component is mounted with. */
  const Initial: Game := Game(
    Menu, Classic, InitialSnake, InitialFood, InitialDirection,
    false, 0, false, 0, false, 0,
    Pace(InitialSpeed, false, false, None, None),
    Profile([Classic], AllZeroScores, 0.0, DefaultPatterns))

  lemma InitialInv()
    ensures Inv(Initial)
  {
    forall m: Mode ensures m in AllZeroScores {
      match m
      case Classic =>
      case Speed =>
      case Hard =>
      case EndlessClassic =>
      case EndlessSpeedy =>
      case EndlessHard =>
      case Uncompromising =>
    }
  }

  // ---------------------------------------------------------------------
  // Starting, restarting and leaving a run
  // ---------------------------------------------------------------------

  /** The run variables of a fresh run of the given mode; the pending
      reverts and the profile are left as they are. */
  function FreshRun(g: Game, mode: Mode): Game {
    g.(mode := mode, snake := InitialSnake, direction := InitialDirection, food := InitialFood,
       score := 0, lives := 0, gameOver := false, showRevive := false, isPlaying := true,
       lastStarCheck := 0,
       pace := g.pace.(speed := StartSpeed(mode), isSlowdown := false, isSpeedBoost := false))
  }

  /** Starting a mode from the menu; pending speed reverts are cancelled,
      as when the current mode is restarted. */
  function StartGame(g: Game, mode: Mode): (r: Game)
    requires Inv(g)
    ensures Inv(r)
    ensures r.screen == Playing && r.mode == mode && r.isPlaying && !r.gameOver && !r.showRevive
    ensures r.snake == InitialSnake && r.direction == InitialDirection && r.food == InitialFood
    ensures r.score == 0 && r.lives == 0 && r.lastStarCheck == 0
    ensures r.pace == Pace(StartSpeed(mode), false, false, None, None)
    ensures r.profile == g.profile
  {
    FreshRun(g, mode).(screen := Playing, pace := Pace(StartSpeed(mode), false, false, None, None))
  }

  /** Finding: as written, starting a mode leaves the pending reverts of the
      previous run in place. */
  function StartGameAsWritten(g: Game, mode: Mode): (r: Game)
    requires Inv(g)
    ensures Inv(r)
    ensures r.pace.slowdownRevert == g.pace.slowdownRevert && r.pace.boostRevert == g.pace.boostRevert
  {
    FreshRun(g, mode).(screen := Playing)
  }

  /** As written, a slowdown still pending when the player quit expires in
      the next run and replaces its start speed with the old run's saved one. */
  lemma StaleRevertLeaksAsWritten(g: Game, mode: Mode)
    requires Inv(g) && g.pace.slowdownRevert.Some?
    ensures var r := RevertSlowdown(StartGameAsWritten(g, mode));
            r.pace.speed == g.pace.slowdownRevert.value
            && (g.pace.slowdownRevert.value != StartSpeed(mode) ==> r.pace.speed != StartSpeed(mode))
  {
  }

  /** A concrete leak: the slowdown of a speed-mode run at 200 points, still
      pending when a classic run starts, sets the classic run's interval below
      the reference one. */
  lemma StaleRevertLeakExample()
    ensures var g := Initial.(mode := Speed,
                               pace := Initial.pace.(speed := InitialSpeed, isSlowdown := true,
                                                     slowdownRevert := Some(InitialSpeed * 0.95)));
            Inv(g)
            && RevertSlowdown(StartGameAsWritten(g, Classic)).pace.speed < StartSpeed(Classic)
  {
    InitialInv();
  }

  /** With the reverts cancelled, neither expiry changes a freshly started run. */
  lemma StartGameCancelsReverts(g: Game, mode: Mode)
    requires Inv(g)
    ensures RevertSlowdown(StartGame(g, mode)) == StartGame(g, mode)
    ensures RevertBoost(StartGame(g, mode)) == StartGame(g, mode)
    ensures StartGame(g, mode).pace.speed == StartSpeed(mode)
  {
  }

  /** Playing the current mode again; pending speed reverts are cancelled. */
  function ResetGame(g: Game): (r: Game)
    requires Inv(g)
    ensures Inv(r)
    ensures r.screen == g.screen && r.mode == g.mode && r.isPlaying && !r.gameOver && !r.showRevive
    ensures r.snake == InitialSnake && r.direction == InitialDirection && r.food == InitialFood
    ensures r.score == 0 && r.lives == 0 && r.lastStarCheck == 0
    ensures r.pace == Pace(StartSpeed(g.mode), false, false, None, None)
    ensures r.profile == g.profile
  {
    FreshRun(g, g.mode).(pace := Pace(StartSpeed(g.mode), false, false, None, None))
  }

  function QuitToMenu(g: Game): (r: Game)
    requires Inv(g)
    ensures Inv(r)
    ensures r.screen == Menu && !r.gameOver && !r.isPlaying
    ensures r == g.(screen := Menu, gameOver := false, isPlaying := false)
  {
    g.(screen := Menu, gameOver := false, isPlaying := false)
  }

  function OpenCustomize(g: Game): (r: Game)
    requires Inv(g)
    ensures Inv(r) && r == g.(screen := Customize)
  {
    g.(screen := Customize)
  }

  function CloseCustomize(g: Game): (r: Game)
    requires Inv(g)
    ensures Inv(r) && r == g.(screen := Menu)
  {
    g.(screen := Menu)
  }

  // ---------------------------------------------------------------------
  // Progression
  // ---------------------------------------------------------------------

  function UnlockMode(g: Game, mode: Mode): (r: Game)
    requires Inv(g)
    ensures Inv(r)
    ensures r == g.(profile := g.profile.(unlockedModes := AddMode(g.profile.unlockedModes, mode)))
  {
    g.(profile := g.profile.(unlockedModes := AddMode(g.profile.unlockedModes, mode)))
  }

  function UpdateHighScore(g: Game, mode: Mode, newScore: nat): (r: Game)
    requires Inv(g)
    ensures Inv(r)
    ensures r == g.(profile := g.profile.(highScores := HighScoreAfter(g.profile.highScores, mode, newScore)))
  {
    g.(profile := g.profile.(highScores := HighScoreAfter(g.profile.highScores, mode, newScore)))
  }

  /** Buying a pattern: only an affordable pattern not yet owned is bought,
      for exactly its price; otherwise nothing changes. */
  function UnlockPattern(g: Game, p: Pattern): (r: Game)
    requires Inv(g)
    ensures Inv(r)
    ensures CanUnlock(g.profile.starPoints, g.profile.unlockedPatterns, p) ==>
              r == g.(profile := g.profile.(starPoints := g.profile.starPoints - PatternCost(p),
                                            unlockedPatterns := g.profile.unlockedPatterns + [p]))
    ensures !CanUnlock(g.profile.starPoints, g.profile.unlockedPatterns, p) ==> r == g
    ensures g.profile.unlockedPatterns <= r.profile.unlockedPatterns
    ensures 0.0 <= r.profile.starPoints <= g.profile.starPoints
    ensures p in r.profile.unlockedPatterns <==>
              p in g.profile.unlockedPatterns || PatternCost(p) <= g.profile.starPoints
  {
    PatternCostTable(p);
    if CanUnlock(g.profile.starPoints, g.profile.unlockedPatterns, p) then
      g.(profile := g.profile.(starPoints := g.profile.starPoints - PatternCost(p),
                               unlockedPatterns := g.profile.unlockedPatterns + [p]))
    else g
  }

  // ---------------------------------------------------------------------
  // Input
  // ---------------------------------------------------------------------

  /** A touch-pad direction request; on the game screen it also starts the
      snake moving. */
  function ChangeDirection(g: Game, requested: Dir): (r: Game)
    requires Inv(g) && IsUnit(requested)
    ensures Inv(r)
    ensures r == g.(direction := Turn(g.direction, requested),
                    isPlaying := g.isPlaying || g.screen == Playing)
  {
    TurnIffPerpendicular(g.direction, requested);
    var g1 := if !g.isPlaying && g.screen == Playing then g.(isPlaying := true) else g;
    g1.(direction := Turn(g.direction, requested))
  }

  /** A request turns the snake exactly when it is perpendicular to the
      current direction, so a single request is never the reversal of the
      current direction. */
  lemma ChangeDirectionTurnsPerpendicular(g: Game, requested: Dir)
    requires Inv(g) && IsUnit(requested)
    ensures var r := ChangeDirection(g, requested);
            r.direction == (if Perpendicular(g.direction, requested) then requested else g.direction)
            && r.direction != Dir(-g.direction.x, -g.direction.y)
  {
    TurnIffPerpendicular(g.direction, requested);
  }

  /** The rule compares a request with the direction last set, not with the
      one the snake last moved in: two accepted turns between ticks reverse
      the snake into its neck, and the next tick ends the run. */
  lemma TwoTurnsBetweenTicksReverse()
    ensures Inv(Initial.(screen := Playing, isPlaying := true, snake := [Cell(10, 10), Cell(9, 10)]))
    ensures var g := Initial.(screen := Playing, isPlaying := true,
                               snake := [Cell(10, 10), Cell(9, 10)]);
            var r := ChangeDirection(ChangeDirection(g, Dir(0, -1)), Dir(-1, 0));
            r.direction == Dir(-g.direction.x, -g.direction.y)
            && Collides(r) && Tick(r, []).gameOver
  {
    InitialInv();
    var g := Initial.(screen := Playing, isPlaying := true, snake := [Cell(10, 10), Cell(9, 10)]);
    assert SnakeInv(g.snake, g.food);
    var r := ChangeDirection(ChangeDirection(g, Dir(0, -1)), Dir(-1, 0));
    assert Head(r) == Cell(9, 10) == r.snake[1];
  }

  /** Space during a revive spends a life and puts the snake back at the
      start; space after game over restarts; otherwise nothing happens. */
  function SpacePress(g: Game): (r: Game)
    requires Inv(g)
    ensures Inv(r)
    ensures g.showRevive ==>
              r == g.(lives := g.lives - 1, showRevive := false,
                      snake := InitialSnake, direction := InitialDirection)
    ensures !g.showRevive && g.gameOver ==> r == ResetGame(g)
    ensures !g.showRevive && !g.gameOver ==> r == g
  {
    if g.showRevive && g.lives > 0 then
      g.(lives := g.lives - 1, showRevive := false,
         snake := InitialSnake, direction := InitialDirection)
    else if g.gameOver then ResetGame(g)
    else g
  }

  /** A key press; keys are listened to only on the game screen. */
  function KeyPress(g: Game, key: Key): (r: Game)
    requires Inv(g)
    ensures Inv(r)
    ensures g.screen != Playing ==> r == g
    ensures g.screen == Playing && key.ArrowKey? ==> r == ChangeDirection(g, ArrowDir(key.arrow))
    ensures g.screen == Playing && key == SpaceKey ==> r == SpacePress(g)
  {
    if g.screen != Playing then g
    else
      match key
      case SpaceKey => SpacePress(g)
      case OtherKey => g
      case ArrowKey(a) =>
        ArrowTurnIsTurn(g.direction, a);
        g.(isPlaying := true, direction := ArrowTurn(g.direction, a))
  }

  // ---------------------------------------------------------------------
  // Timer callbacks of the boost and slowdown windows
  // ---------------------------------------------------------------------

  /** Expiry of the slowdown window: the saved speed comes back. */
  function EndSlowdown(p: Pace): (r: Pace)
    requires PaceInv(p)
    ensures PaceInv(r) && r.slowdownRevert == None
    ensures p.slowdownRevert.Some? ==>
              r == p.(speed := p.slowdownRevert.value, isSlowdown := false, slowdownRevert := None)
    ensures p.slowdownRevert.None? ==> r == p
  {
    match p.slowdownRevert
    case None => p
    case Some(saved) => p.(speed := saved, isSlowdown := false, slowdownRevert := None)
  }

  /** Expiry of the boost window: the saved speed comes back. */
  function EndBoost(p: Pace): (r: Pace)
    requires PaceInv(p)
    ensures PaceInv(r) && r.boostRevert == None
    ensures p.boostRevert.Some? ==>
              r == p.(speed := p.boostRevert.value, isSpeedBoost := false, boostRevert := None)
    ensures p.boostRevert.None? ==> r == p
  {
    match p.boostRevert
    case None => p
    case Some(saved) => p.(speed := saved, isSpeedBoost := false, boostRevert := None)
  }

  function RevertSlowdown(g: Game): (r: Game)
    requires Inv(g)
    ensures Inv(r) && r == g.(pace := EndSlowdown(g.pace))
  {
    g.(pace := EndSlowdown(g.pace))
  }

  function RevertBoost(g: Game): (r: Game)
    requires Inv(g)
    ensures Inv(r) && r == g.(pace := EndBoost(g.pace))
  {
    g.(pace := EndBoost(g.pace))
  }

  // ---------------------------------------------------------------------
  // The pieces of a tick
  // ---------------------------------------------------------------------

  /** Star points for the 250-marks between the last star check and the score. */
  function StarsEarned(lastCheck: nat, score: nat): nat {
    if Crossed(lastCheck, score, StarInterval) then score / StarInterval - lastCheck / StarInterval else 0
  }

  /** On a food, the stars earned are the 250-marks the score itself passed:
      one when the new score is a multiple of 250, none otherwise. */
  lemma StarsEarnedOnFood(score: nat, lastCheck: nat)
    requires ScoreInv(score, lastCheck)
    ensures var after := score + PointsPerFood;
            var earned := StarsEarned(lastCheck, after);
            earned == after / StarInterval - score / StarInterval
            && earned == (if IsMultiple(after, StarInterval) then 1 else 0)
            && ScoreInv(after, if earned > 0 then after else lastCheck)
  {
    var after, q := score + PointsPerFood, score / StarInterval;
    MultipleLeIff(score, StarInterval, q + 1);
    MultipleLeIff(after, StarInterval, q + 2);
    assert after / StarInterval <= q + 1;
    MultipleLeIff(score, StarInterval, q);
    MultipleLeIff(after, StarInterval, q);
    assert q <= after / StarInterval;
    assert Crossed(lastCheck, after, StarInterval) == Crossed(score, after, StarInterval);
    CrossedOnFood(score, StarInterval);
    var earned := StarsEarned(lastCheck, after);
    assert earned == after / StarInterval - q;
    assert IsMultiple(after, PointsPerFood) by {
      MultipleIsMultiple(score / PointsPerFood + 1, PointsPerFood);
    }
    if earned == 0 {
      assert after / StarInterval == lastCheck / StarInterval;
    }
  }

  function LifeBonus(mode: Mode, before: nat, after: nat): nat {
    if Crossed(before, after, LifeThreshold(mode)) then 1 else 0
  }

  /** The mode-specific speed changes for a score going from before to after. */
  function SpeedRules(mode: Mode, p: Pace, before: nat, after: nat): (r: Pace)
    requires PaceInv(p)
    ensures PaceInv(r)
  {
    if mode == Speed || mode == EndlessSpeedy then
      var factor := SpeedUpFactor(mode);
      var p1 := if Crossed(before, after, SpeedUpInterval) then p.(speed := p.speed * factor) else p;
      if Crossed(before, after, SlowdownInterval) then
        p1.(speed := InitialSpeed, isSlowdown := true, slowdownRevert := Some(p.speed * factor))
      else p1
    else if mode == Hard || mode == EndlessHard then
      if Crossed(before, after, BoostInterval(mode)) then
        p.(speed := HardBoostSpeed, isSpeedBoost := true, boostRevert := Some(p.speed))
      else p
    else if mode == Uncompromising then
      if Crossed(before, after, UncompromisingBoostInterval) then
        p.(speed := UncompromisingBoostSpeed, isSpeedBoost := true, boostRevert := Some(p.speed))
      else p
    else p
  }

  predicate IsVictory(mode: Mode, before: nat, after: nat) {
    mode == Uncompromising && after >= VictoryScore && before < VictoryScore
  }

  lemma GrowKeepsSnakeInv(snake: seq<Cell>, oldFood: Cell, head: Cell, food: Cell)
    requires SnakeInv(snake, oldFood) && InGrid(head) && head !in snake
    requires InGrid(food) && food != head && food !in snake
    ensures SnakeInv([head] + snake, food)
  {
    var grown := [head] + snake;
    assert forall i :: 1 <= i < |grown| ==> grown[i] == snake[i - 1];
  }

  lemma AdvanceKeepsSnakeInv(snake: seq<Cell>, food: Cell, head: Cell)
    requires SnakeInv(snake, food) && InGrid(head) && head !in snake && head != food
    ensures SnakeInv([head] + snake[..|snake| - 1], food)
  {
    var moved := [head] + snake[..|snake| - 1];
    assert forall i :: 1 <= i < |moved| ==> moved[i] == snake[i - 1];
    assert food in moved ==> food in snake;
  }

  /** What eating a food does before the snake grows: the 10 points, the
      star points, a life at the mode's threshold, the milestone unlocks and
      the mode's speed changes. */
  function Fed(g: Game): (r: Game)
    requires Inv(g)
    ensures Inv(r)
  {
    var before := g.score;
    var after := before + PointsPerFood;
    var earned := StarsEarned(g.lastStarCheck, after);
    var batch := UnlocksFor(g.mode, after);
    StarsEarnedOnFood(before, g.lastStarCheck);
    UnlockBatchProperties(g.profile.unlockedModes, batch);
    g.(score := after,
       lastStarCheck := if earned > 0 then after else g.lastStarCheck,
       lives := g.lives + LifeBonus(g.mode, before, after),
       pace := SpeedRules(g.mode, g.pace, before, after),
       profile := g.profile.(starPoints := g.profile.starPoints + earned as real,
                             unlockedModes := UnlockBatch(g.profile.unlockedModes, batch)))
  }

  /** Eating the food at the new head: the run ends in victory, or the snake
      grows and new food is drawn off it. */
  function Eat(g: Game, head: Cell, draws: seq<Cell>): (r: Game)
    requires Inv(g) && InGrid(head) && head !in g.snake && head == g.food
    requires AllInGrid(draws) && HasFreeDraw(draws, FoodExclusion(g.snake, head))
    ensures Inv(r)
  {
    var fed := Fed(g);
    if IsVictory(g.mode, g.score, fed.score) then Win(fed) else Grown(fed, head, draws)
  }

  /** The victory of the uncompromising mode: the run ends and its score is
      recorded. */
  function Win(g: Game): (r: Game)
    requires Inv(g)
    ensures Inv(r)
  {
    g.(gameOver := true, isPlaying := false,
       profile := g.profile.(highScores := HighScoreAfter(g.profile.highScores, g.mode, g.score)))
  }

  /** The snake grows onto the food at the new head and new food is drawn off it. */
  function Grown(g: Game, head: Cell, draws: seq<Cell>): (r: Game)
    requires Inv(g) && InGrid(head) && head !in g.snake && head == g.food
    requires AllInGrid(draws) && HasFreeDraw(draws, FoodExclusion(g.snake, head))
    ensures Inv(r)
  {
    var food := draws[FirstFreeIndex(draws, FoodExclusion(g.snake, head))];
    GrowKeepsSnakeInv(g.snake, g.food, head, food);
    g.(food := food, snake := [head] + g.snake)
  }

  /** A fatal collision: with a life left only a revive is offered. */
  function Crash(g: Game): (r: Game)
    requires Inv(g)
    ensures Inv(r)
  {
    if g.lives > 0 then g.(showRevive := true)
    else g.(gameOver := true, isPlaying := false,
            profile := g.profile.(highScores := HighScoreAfter(g.profile.highScores, g.mode, g.score)))
  }

  /** The tick does something only on the game screen, while moving, with
      no game over and no revive pending. */
  predicate Running(g: Game) {
    g.screen == Playing && !g.gameOver && g.isPlaying && !g.showRevive
  }

  function Head(g: Game): Cell
    requires |g.snake| > 0
  {
    NextHead(g.snake[0], g.direction)
  }

  predicate Collides(g: Game)
    requires |g.snake| > 0
  {
    !InGrid(Head(g)) || Head(g) in g.snake
  }

  /** The random draws of a tick: when the snake is about to eat, they are
      grid cells and one of them misses the grown snake. */
  predicate TickDrawsOk(g: Game, draws: seq<Cell>) {
    |g.snake| > 0 && Head(g) == g.food ==>
      AllInGrid(draws) && HasFreeDraw(draws, FoodExclusion(g.snake, Head(g)))
  }

  /** One tick of the game loop. */
  function Tick(g: Game, draws: seq<Cell>): (r: Game)
    requires Inv(g) && TickDrawsOk(g, draws)
    ensures Inv(r)
  {
    if !Running(g) then g
    else if Collides(g) then Crash(g)
    else if Head(g) == g.food then Eat(g, Head(g), draws)
    else
      AdvanceKeepsSnakeInv(g.snake, g.food, Head(g));
      g.(snake := [Head(g)] + g.snake[..|g.snake| - 1])
  }

  // ---------------------------------------------------------------------
  // Properties of the tick
  // ---------------------------------------------------------------------

  /** An eating tick applies the effects of the food, then ends in victory
      or grows the snake. */
  lemma EatingTick(g: Game, draws: seq<Cell>)
    requires Inv(g) && TickDrawsOk(g, draws) && Running(g) && !Collides(g) && Head(g) == g.food
    ensures Tick(g, draws) == if IsVictory(g.mode, g.score, g.score + PointsPerFood)
                              then Win(Fed(g)) else Grown(Fed(g), Head(g), draws)
  {
  }

  /** The fields the effects of a food set, and the ones they keep. */
  lemma FedFields(g: Game)
    requires Inv(g)
    ensures var r, after := Fed(g), g.score + PointsPerFood;
            && r.score == after && r.mode == g.mode && r.snake == g.snake && r.food == g.food
            && r.gameOver == g.gameOver && r.isPlaying == g.isPlaying
            && r.lives == g.lives + LifeBonus(g.mode, g.score, after)
            && r.pace == SpeedRules(g.mode, g.pace, g.score, after)
            && r.profile.starPoints == g.profile.starPoints + StarsEarned(g.lastStarCheck, after) as real
            && r.profile.unlockedModes == UnlockBatch(g.profile.unlockedModes, UnlocksFor(g.mode, after))
            && r.profile.highScores == g.profile.highScores
            && r.profile.unlockedPatterns == g.profile.unlockedPatterns
  {
  }

  /** No tick does anything while stopped, over, or waiting for a revive. */
  lemma TickIdle(g: Game, draws: seq<Cell>)
    requires Inv(g) && TickDrawsOk(g, draws) && !Running(g)
    ensures Tick(g, draws) == g
  {
  }

  /** A colliding tick: with lives left it only offers the revive; without,
      the run is over and its score is offered to the high-score table. */
  lemma TickCollision(g: Game, draws: seq<Cell>)
    requires Inv(g) && TickDrawsOk(g, draws) && Running(g) && Collides(g)
    ensures g.lives > 0 ==> Tick(g, draws) == g.(showRevive := true)
    ensures g.lives == 0 ==>
              var r := Tick(g, draws);
              r.gameOver && !r.isPlaying && r.snake == g.snake && r.score == g.score && r.lives == 0
              && r.profile.highScores[g.mode] == Max(g.profile.highScores[g.mode], g.score)
              && (forall m :: m != g.mode ==> r.profile.highScores[m] == g.profile.highScores[m])
  {
  }

  /** A tick without collision moves the head by the direction; the length
      grows by one exactly when the head lands on the food, which is worth
      10 points, and the new food is a free grid cell. */
  lemma TickMoves(g: Game, draws: seq<Cell>)
    requires Inv(g) && TickDrawsOk(g, draws) && Running(g) && !Collides(g)
    ensures var r := Tick(g, draws);
            var head := NextHead(g.snake[0], g.direction);
            (head != g.food ==>
               |r.snake| == |g.snake| && r.snake[0] == head && r.score == g.score
               && (forall i :: 1 <= i < |r.snake| ==> r.snake[i] == g.snake[i - 1])
               && r.food == g.food && r.lives == g.lives)
            && (head == g.food ==> r.score == g.score + PointsPerFood)
            && (head == g.food && !IsVictory(g.mode, g.score, r.score) ==>
                  |r.snake| == |g.snake| + 1 && r.snake[0] == head && r.snake[1..] == g.snake
                  && InGrid(r.food) && r.food !in r.snake)
  {
    var head := Head(g);
    if head == g.food {
      EatingTick(g, draws);
      FedFields(g);
      if !IsVictory(g.mode, g.score, g.score + PointsPerFood) {
        FoodOffGrownSnake(g.snake, head, draws);
      }
    }
  }

  /** Eating grants a life exactly when the new score is a multiple of the
      mode's life threshold. */
  lemma TickGrantsLife(g: Game, draws: seq<Cell>)
    requires Inv(g) && TickDrawsOk(g, draws) && Running(g) && !Collides(g) && Head(g) == g.food
    ensures var r := Tick(g, draws);
            r.lives == g.lives + (if Crossed(g.score, r.score, LifeThreshold(g.mode)) then 1 else 0)
            && (r.lives == g.lives + 1 <==> IsMultiple(r.score, LifeThreshold(g.mode)))
            && (r.lives == g.lives <==> !IsMultiple(r.score, LifeThreshold(g.mode)))
  {
    EatingTick(g, draws);
    FedFields(g);
    LifeThresholdOnFoodGrid(g.mode);
    CrossedOnFood(g.score, LifeThreshold(g.mode));
  }

  /** Star points rise by the number of 250-marks the score passed: one
      exactly when the eaten food brings the score to a multiple of 250. */
  lemma TickStars(g: Game, draws: seq<Cell>)
    requires Inv(g) && TickDrawsOk(g, draws)
    ensures var r := Tick(g, draws);
            r.profile.starPoints
              == g.profile.starPoints + (r.score / StarInterval - g.score / StarInterval) as real
    ensures Running(g) && !Collides(g) && Head(g) == g.food ==>
              var r := Tick(g, draws);
              r.profile.starPoints
                == g.profile.starPoints + (if IsMultiple(r.score, StarInterval) then 1.0 else 0.0)
  {
    StarsEarnedOnFood(g.score, g.lastStarCheck);
    if Running(g) && !Collides(g) && Head(g) == g.food {
      EatingTick(g, draws);
      FedFields(g);
    }
  }

  /** Eating unlocks exactly the modes of the milestone table; nothing is
      lost or duplicated. */
  lemma TickUnlocks(g: Game, draws: seq<Cell>)
    requires Inv(g) && TickDrawsOk(g, draws) && Running(g) && !Collides(g) && Head(g) == g.food
    ensures var r := Tick(g, draws);
            g.profile.unlockedModes <= r.profile.unlockedModes && NoDup(r.profile.unlockedModes)
            && forall m :: m in r.profile.unlockedModes <==>
                 m in g.profile.unlockedModes || m in UnlocksFor(g.mode, g.score + PointsPerFood)
  {
    EatingTick(g, draws);
    FedFields(g);
    UnlockBatchProperties(g.profile.unlockedModes, UnlocksFor(g.mode, g.score + PointsPerFood));
  }

  /** An eating tick applies the speed rules to the pace. */
  lemma TickEatsPace(g: Game, draws: seq<Cell>)
    requires Inv(g) && TickDrawsOk(g, draws) && Running(g) && !Collides(g) && Head(g) == g.food
    ensures Tick(g, draws).pace == SpeedRules(g.mode, g.pace, g.score, g.score + PointsPerFood)
  {
    EatingTick(g, draws);
    FedFields(g);
  }

  /** In speed and endless-speedy mode a 200-mark starts a slowdown at the
      reference interval; when it expires the speed returns to the compounded
      value, including the 50-mark speed-up of the same food. */
  lemma SlowdownRevertsToCompounded(mode: Mode, p: Pace, before: nat, after: nat)
    requires PaceInv(p) && (mode == Speed || mode == EndlessSpeedy)
    requires Crossed(before, after, SlowdownInterval)
    ensures Crossed(before, after, SpeedUpInterval)
    ensures var r := SpeedRules(mode, p, before, after);
            r.speed == InitialSpeed && r.isSlowdown
            && EndSlowdown(r).speed == p.speed * SpeedUpFactor(mode) && !EndSlowdown(r).isSlowdown
  {
    CrossedFactor(before, after, SpeedUpInterval, 4);
  }

  /** A boost milestone sets the boosted speed; when the window expires the
      speed is the one in force just before the boost. */
  lemma BoostRevertsToPrevious(mode: Mode, p: Pace, before: nat, after: nat)
    requires PaceInv(p)
    requires || ((mode == Hard || mode == EndlessHard) && Crossed(before, after, BoostInterval(mode)))
             || (mode == Uncompromising && Crossed(before, after, UncompromisingBoostInterval))
    ensures var r := SpeedRules(mode, p, before, after);
            r.speed == (if mode == Uncompromising then UncompromisingBoostSpeed else HardBoostSpeed)
            && r.isSpeedBoost
            && EndBoost(r).speed == p.speed && !EndBoost(r).isSpeedBoost
  {
  }

  /** In the speedy modes a 50-mark that is no 200-mark only shortens the
      interval by the mode's factor; the windows are left alone. */
  lemma SpeedUpWithoutSlowdown(mode: Mode, p: Pace, before: nat, after: nat)
    requires PaceInv(p) && (mode == Speed || mode == EndlessSpeedy)
    requires Crossed(before, after, SpeedUpInterval) && !Crossed(before, after, SlowdownInterval)
    ensures SpeedRules(mode, p, before, after) == p.(speed := p.speed * SpeedUpFactor(mode))
    ensures SpeedRules(mode, p, before, after).speed < p.speed
  {
  }

  /** Without a milestone of its own mode the pace is left unchanged; the
      classic modes never change it. */
  lemma SpeedRulesWithoutMilestone(mode: Mode, p: Pace, before: nat, after: nat)
    requires PaceInv(p)
    ensures mode == Classic || mode == EndlessClassic ==> SpeedRules(mode, p, before, after) == p
    ensures (mode == Speed || mode == EndlessSpeedy) && !Crossed(before, after, SpeedUpInterval) ==>
              SpeedRules(mode, p, before, after) == p
    ensures (mode == Hard || mode == EndlessHard) && !Crossed(before, after, BoostInterval(mode)) ==>
              SpeedRules(mode, p, before, after) == p
    ensures mode == Uncompromising && !Crossed(before, after, UncompromisingBoostInterval) ==>
              SpeedRules(mode, p, before, after) == p
  {
    if Crossed(before, after, SlowdownInterval) {
      CrossedFactor(before, after, SpeedUpInterval, 4);
    }
  }

  /** Reaching 10000 in uncompromising mode ends the run as a victory: the
      score 10000 is recorded, and neither snake nor food moves. */
  lemma VictoryEndsRun(g: Game, draws: seq<Cell>)
    requires Inv(g) && TickDrawsOk(g, draws) && Running(g) && !Collides(g) && Head(g) == g.food
    requires g.mode == Uncompromising && g.score < VictoryScore <= g.score + PointsPerFood
    ensures var r := Tick(g, draws);
            r.gameOver && !r.isPlaying && r.score == VictoryScore
            && r.profile.highScores[Uncompromising] == Max(g.profile.highScores[Uncompromising], VictoryScore)
            && r.snake == g.snake && r.food == g.food
  {
    EatingTick(g, draws);
    FedFields(g);
  }

  // ---------------------------------------------------------------------
  // Every event, and what no event undoes
  // ---------------------------------------------------------------------

  /** The inputs the component reacts to: its timers, keys, touch buttons and
      screen buttons. */
  datatype Event =
    | TickEvent(draws: seq<Cell>)
    | KeyEvent(key: Key)
    | TouchDirection(requested: Dir)
    | TouchSpace
    | StartMode(mode: Mode)
    | PlayAgain
    | Quit
    | OpenCustomizeScreen
    | CloseCustomizeScreen
    | BuyPattern(pattern: Pattern)
    | SlowdownExpired
    | BoostExpired

  /** When an event can happen: the tick timer needs its draws, the touch
      pad is on the game screen only and sends unit vectors, the menu offers only unlocked modes, patterns
      are bought on the customize screen, and the play-again button exists
      only after a game over. */
  predicate Enabled(g: Game, e: Event) {
    match e
    case TickEvent(draws) => TickDrawsOk(g, draws)
    case TouchDirection(d) => IsUnit(d) && g.screen == Playing
    case TouchSpace => g.screen == Playing
    case StartMode(m) => g.screen == Menu && m in g.profile.unlockedModes
    case PlayAgain => g.gameOver
    case BuyPattern(_) => g.screen == Customize
    case OpenCustomizeScreen => g.screen == Menu
    case CloseCustomizeScreen => g.screen == Customize
    case Quit => g.screen == Playing
    case _ => true
  }

  function Step(g: Game, e: Event): (r: Game)
    requires Inv(g) && Enabled(g, e)
    ensures Inv(r)
  {
    match e
    case TickEvent(draws) => Tick(g, draws)
    case KeyEvent(key) => KeyPress(g, key)
    case TouchDirection(d) => ChangeDirection(g, d)
    case TouchSpace => SpacePress(g)
    case StartMode(m) => StartGame(g, m)
    case PlayAgain => ResetGame(g)
    case Quit => QuitToMenu(g)
    case OpenCustomizeScreen => OpenCustomize(g)
    case CloseCustomizeScreen => CloseCustomize(g)
    case BuyPattern(p) => UnlockPattern(g, p)
    case SlowdownExpired => RevertSlowdown(g)
    case BoostExpired => RevertBoost(g)
  }

  /** Progress that is never lost: unlocked modes and patterns only grow,
      and no high score decreases. */
  predicate KeepsProgress(a: Profile, b: Profile) {
    && a.unlockedModes <= b.unlockedModes
    && a.unlockedPatterns <= b.unlockedPatterns
    && a.highScores.Keys == b.highScores.Keys
    && (forall m :: m in a.highScores ==> b.highScores[m] >= a.highScores[m])
  }

  lemma StepKeepsProgress(g: Game, e: Event)
    requires Inv(g) && Enabled(g, e)
    ensures KeepsProgress(g.profile, Step(g, e).profile)
  {
    if e.TickEvent? && Running(g) && !Collides(g) && Head(g) == g.food {
      TickUnlocks(g, e.draws);
    }
  }

  /** A sequence of events; an event that cannot happen in the current
      state is ignored. */
  function Run(g: Game, events: seq<Event>): (r: Game)
    requires Inv(g)
    ensures Inv(r)
    decreases |events|
  {
    if events == [] then g
    else Run(if Enabled(g, events[0]) then Step(g, events[0]) else g, events[1..])
  }

  lemma {:induction false} RunKeepsProgress(g: Game, events: seq<Event>)
    requires Inv(g)
    ensures KeepsProgress(g.profile, Run(g, events).profile)
    decreases |events|
  {
    if events != [] {
      var next := if Enabled(g, events[0]) then Step(g, events[0]) else g;
      if Enabled(g, events[0]) {
        StepKeepsProgress(g, events[0]);
      }
      RunKeepsProgress(next, events[1..]);
    }
  }

  /** A high score changes only at the end of a run: the event that changes
      the table is a tick that ends a run still in progress. */
  lemma HighScoresChangeOnlyAtRunEnd(g: Game, e: Event)
    requires Inv(g) && Enabled(g, e)
    ensures Step(g, e).profile.highScores != g.profile.highScores ==>
              !g.gameOver && Step(g, e).gameOver && e.TickEvent?
  {
    if e.TickEvent? && Running(g) && !Collides(g) && Head(g) == g.food {
      EatingTick(g, e.draws);
      FedFields(g);
    }
  }

  /** The events that start a new run or spend star points. */
  predicate Restarts(g: Game, e: Event) {
    || e.StartMode? || e.PlayAgain? || e.BuyPattern?
    || ((e == TouchSpace || e == KeyEvent(SpaceKey)) && g.gameOver && !g.showRevive)
  }

  /** Every other event keeps star points level with the 250-marks of the score. */
  lemma StepStars(g: Game, e: Event)
    requires Inv(g) && Enabled(g, e) && !Restarts(g, e)
    ensures var r := Step(g, e);
            r.profile.starPoints
              == g.profile.starPoints + (r.score / StarInterval - g.score / StarInterval) as real
  {
    if e.TickEvent? {
      TickStars(g, e.draws);
    }
  }

  /** The events of a run contain no restart and no purchase. */
  predicate NoRestart(g: Game, events: seq<Event>)
    requires Inv(g)
    decreases |events|
  {
    events == [] ||
      ((Enabled(g, events[0]) ==> !Restarts(g, events[0]))
       && NoRestart(if Enabled(g, events[0]) then Step(g, events[0]) else g, events[1..]))
  }

  /** Over a run the star points rise by the 250-marks the score passed; from
      a fresh run, by floor(final score / 250). */
  lemma {:induction false} RunStars(g: Game, events: seq<Event>)
    requires Inv(g) && NoRestart(g, events)
    ensures var r := Run(g, events);
            r.profile.starPoints
              == g.profile.starPoints + (r.score / StarInterval - g.score / StarInterval) as real
    ensures g.score == 0 ==>
              Run(g, events).profile.starPoints
                == g.profile.starPoints + (Run(g, events).score / StarInterval) as real
    decreases |events|
  {
    if events != [] {
      var next := if Enabled(g, events[0]) then Step(g, events[0]) else g;
      if Enabled(g, events[0]) {
        StepStars(g, events[0]);
      }
      RunStars(next, events[1..]);
    }
  }
}
