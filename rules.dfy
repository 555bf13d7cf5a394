/**
 * The rules of the snake game that do not depend on the component's state:
 * the grid, directions and the turn rule, the per-mode tables (start speed,
 * life threshold, speed-up factor, boost interval, unlock thresholds), the
 * step-boundary test behind every score milestone, mode unlocks, high scores,
 * the pattern price list, and food placement.
 */
module SnakeRules {

  datatype Option<T> = None | Some(value: T)

  // ---------------------------------------------------------------------
  // Constants of the game
  // ---------------------------------------------------------------------

  const GridSize: int := 20
  /** Reference tick interval (milliseconds); smaller is faster. */
  const InitialSpeed: real := 150.0
  const PointsPerFood: nat := 10
  const StarInterval: nat := 250
  const SpeedUpInterval: nat := 50
  const SlowdownInterval: nat := 200
  const UncompromisingBoostInterval: nat := 250
  const VictoryScore: nat := 10000
  /** Tick interval during a hard / endless-hard boost window. */
  const HardBoostSpeed: real := InitialSpeed / 2.0
  /** Tick interval during an uncompromising boost window. */
  const UncompromisingBoostSpeed: real := InitialSpeed / 2.5

  datatype Cell = Cell(x: int, y: int)
  datatype Dir = Dir(x: int, y: int)

  const InitialSnake: seq<Cell> := [Cell(10, 10)]
  const InitialDirection: Dir := Dir(1, 0)
  const InitialFood: Cell := Cell(5, 5)

  datatype Mode =
    | Classic | Speed | Hard
    | EndlessClassic | EndlessSpeedy | EndlessHard
    | Uncompromising

  /** The three endless modes, in the order the hard-mode milestone unlocks them. */
  const EndlessModes: seq<Mode> := [EndlessClassic, EndlessSpeedy, EndlessHard]

  datatype Pattern =
    | Squares | Rectangles | Triangles | Stars | Pentagon | Hexagon
    | Heptagon | Octagon | Nonagon | Decagon | Freeze

  const DefaultPatterns: seq<Pattern> := [Squares, Rectangles, Triangles]

  datatype Arrow = Up | Down | Left | Right
  datatype Key = ArrowKey(arrow: Arrow) | SpaceKey | OtherKey

  function Max(a: int, b: int): int { if a < b then b else a }

  predicate NoDup<T(==)>(s: seq<T>) {
    forall i, j :: 0 <= i < j < |s| ==> s[i] != s[j]
  }

  // ---------------------------------------------------------------------
  // Grid and directions
  // ---------------------------------------------------------------------

  predicate InGrid(c: Cell) {
    0 <= c.x < GridSize && 0 <= c.y < GridSize
  }

  predicate AllInGrid(cells: seq<Cell>) {
    forall i :: 0 <= i < |cells| ==> InGrid(cells[i])
  }

  /** One of the four unit vectors along an axis. */
  predicate IsUnit(d: Dir) {
    (d.x == 0 && (d.y == 1 || d.y == -1)) || (d.y == 0 && (d.x == 1 || d.x == -1))
  }

  /** Independent reference for the turn rule: a zero dot product. */
  predicate Perpendicular(a: Dir, b: Dir) {
    a.x * b.x + a.y * b.y == 0
  }

  function NextHead(head: Cell, d: Dir): Cell {
    Cell(head.x + d.x, head.y + d.y)
  }

  /** The direction after a touch-pad request: only a request that moves
      along the axis the snake is not moving on replaces the direction. */
  function Turn(current: Dir, requested: Dir): Dir {
    if requested.x != 0 && current.x == 0 then requested
    else if requested.y != 0 && current.y == 0 then requested
    else current
  }

  function ArrowDir(a: Arrow): Dir {
    match a
    case Up => Dir(0, -1)
    case Down => Dir(0, 1)
    case Left => Dir(-1, 0)
    case Right => Dir(1, 0)
  }

  /** The guard of the arrow-key handler. */
  function ArrowTurn(current: Dir, a: Arrow): Dir {
    match a
    case Up => if current.y == 0 then Dir(0, -1) else current
    case Down => if current.y == 0 then Dir(0, 1) else current
    case Left => if current.x == 0 then Dir(-1, 0) else current
    case Right => if current.x == 0 then Dir(1, 0) else current
  }

  /** A turn is taken exactly when it is perpendicular to the current
      direction; reversals and repeats keep the current direction. */
  lemma TurnIffPerpendicular(current: Dir, requested: Dir)
    requires IsUnit(current) && IsUnit(requested)
    ensures Turn(current, requested) == if Perpendicular(current, requested) then requested else current
    ensures IsUnit(Turn(current, requested))
  {
  }

  /** The keyboard guard and the touch-pad rule agree on every arrow. */
  lemma ArrowTurnIsTurn(current: Dir, a: Arrow)
    ensures ArrowTurn(current, a) == Turn(current, ArrowDir(a))
    ensures IsUnit(ArrowDir(a))
  {
  }

  // ---------------------------------------------------------------------
  // The step-boundary test floor(after / k) > floor(before / k)
  // ---------------------------------------------------------------------

  /** Scores are non-negative, where Dafny's division is the floor. */
  predicate Crossed(before: nat, after: nat, k: nat)
    requires k > 0
  {
    after / k > before / k
  }

  predicate IsMultiple(j: int, k: int)
    requires k > 0
  {
    j % k == 0
  }

  lemma MulLeMono(a: int, b: int, k: int)
    requires a <= b && k >= 0
    ensures a * k <= b * k
  {
    assert b * k - a * k == (b - a) * k;
  }

  lemma MultipleIsMultiple(m: int, k: int)
    requires k > 0
    ensures IsMultiple(m * k, k)
  {
    var q, r := (m * k) / k, (m * k) % k;
    assert m * k == q * k + r && 0 <= r < k;
    assert (m - q) * k == r;
    if m - q >= 1 {
      MulLeMono(1, m - q, k);
    } else if m - q <= -1 {
      MulLeMono(m - q, -1, k);
    }
  }

  lemma MultipleOfMultiple(j: int, k: int, t: int)
    requires k > 0 && t > 0 && IsMultiple(j, k) && IsMultiple(k, t)
    ensures IsMultiple(j, t)
  {
    var a, b := j / k, k / t;
    assert j == a * k;
    assert k == b * t;
    assert j == (a * b) * t;
    MultipleIsMultiple(a * b, t);
  }

  lemma MultipleLeIff(n: int, k: int, m: int)
    requires k > 0
    ensures m * k <= n <==> m <= n / k
  {
    var q := n / k;
    assert n == q * k + n % k;
    if m <= q {
      MulLeMono(m, q, k);
    } else {
      MulLeMono(q + 1, m, k);
    }
  }

  /** The crossing test fires exactly when a multiple of k lies in (before, after]. */
  lemma CrossedIffMultipleBetween(before: nat, after: nat, k: nat)
    requires k > 0
    ensures Crossed(before, after, k) <==> exists j :: before < j <= after && IsMultiple(j, k)
  {
    if Crossed(before, after, k) {
      var m := after / k;
      MultipleLeIff(after, k, m);
      MultipleLeIff(before, k, m);
      MultipleIsMultiple(m, k);
      assert before < m * k <= after && IsMultiple(m * k, k);
    }
    if exists j :: before < j <= after && IsMultiple(j, k) {
      var j :| before < j <= after && IsMultiple(j, k);
      var m := j / k;
      assert j == m * k;
      MultipleLeIff(after, k, m);
      MultipleLeIff(before, k, m);
    }
  }

  /** With scores moving in steps of 10 and every interval a multiple of 10,
      a milestone fires exactly on the food that lands on a multiple of it. */
  lemma CrossedOnFood(score: nat, k: nat)
    requires k > 0 && IsMultiple(k, PointsPerFood) && IsMultiple(score, PointsPerFood)
    ensures Crossed(score, score + PointsPerFood, k) <==> IsMultiple(score + PointsPerFood, k)
  {
    CrossedIffMultipleBetween(score, score + PointsPerFood, k);
    if Crossed(score, score + PointsPerFood, k) {
      var j :| score < j <= score + PointsPerFood && IsMultiple(j, k);
      MultipleOfMultiple(j, k, PointsPerFood);
      assert j == score + PointsPerFood;
    }
  }

  /** Every multiple of a * b is a multiple of a, so crossing the coarser
      milestone always crosses the finer one too. */
  lemma CrossedFactor(before: nat, after: nat, a: nat, b: nat)
    requires a > 0 && b > 0 && Crossed(before, after, a * b)
    ensures Crossed(before, after, a)
  {
    CrossedIffMultipleBetween(before, after, a * b);
    var j :| before < j <= after && IsMultiple(j, a * b);
    MultipleIsMultiple(b, a);
    assert a * b == b * a;
    MultipleOfMultiple(j, a * b, a);
    CrossedIffMultipleBetween(before, after, a);
  }

  // ---------------------------------------------------------------------
  // Per-mode tables
  // ---------------------------------------------------------------------

  /** Tick interval a run starts with: only the classic modes run at the
      reference interval, every other mode is faster. */
  function StartSpeed(mode: Mode): (r: real)
    ensures 0.0 < r <= InitialSpeed
    ensures r == InitialSpeed <==> mode == Classic || mode == EndlessClassic
  {
    match mode
    case Speed => InitialSpeed / 1.30
    case EndlessSpeedy => InitialSpeed / 1.50
    case Hard | EndlessHard => InitialSpeed / 1.45
    case Uncompromising => InitialSpeed / 1.75
    case Classic | EndlessClassic => InitialSpeed
  }

  function LifeThreshold(mode: Mode): nat {
    if mode == Hard || mode == EndlessHard then 200
    else if mode == EndlessClassic then 200
    else if mode == Uncompromising then 350
    else 150
  }

  /** Every life threshold is a multiple of the food value. */
  lemma LifeThresholdOnFoodGrid(mode: Mode)
    ensures LifeThreshold(mode) > 0 && IsMultiple(LifeThreshold(mode), PointsPerFood)
  {
  }

  function SpeedUpFactor(mode: Mode): real {
    if mode == EndlessSpeedy then 0.90 else 0.95
  }

  function BoostInterval(mode: Mode): nat {
    if mode == Hard then 800 else 700
  }

  /** Modes unlocked by a score reached in a given mode: classic 3000 opens
      speed, speed 100 opens hard, hard 7500 opens the three endless modes,
      endless-hard 10000 opens uncompromising. */
  function UnlocksFor(mode: Mode, score: nat): (r: seq<Mode>)
    ensures Speed in r <==> mode == Classic && score >= 3000
    ensures Hard in r <==> mode == Speed && score >= 100
    ensures forall m :: m in EndlessModes ==> (m in r <==> mode == Hard && score >= 7500)
    ensures Uncompromising in r <==> mode == EndlessHard && score >= 10000
    ensures Classic !in r && NoDup(r)
  {
    if mode == Classic && score >= 3000 then [Speed]
    else if mode == Speed && score >= 100 then [Hard]
    else if mode == Hard && score >= 7500 then EndlessModes
    else if mode == EndlessHard && score >= 10000 then [Uncompromising]
    else []
  }

  // ---------------------------------------------------------------------
  // Mode unlocks
  // ---------------------------------------------------------------------

  /** Adding a mode to the unlocked list: one-way and idempotent. */
  function AddMode(modes: seq<Mode>, m: Mode): (r: seq<Mode>)
    ensures m in r
    ensures modes <= r && |r| <= |modes| + 1
    ensures forall x :: x in r <==> x in modes || x == m
    ensures m in modes ==> r == modes
    ensures NoDup(modes) ==> NoDup(r)
  {
    if m in modes then modes else modes + [m]
  }

  lemma AddModeIdempotent(modes: seq<Mode>, m: Mode)
    ensures AddMode(AddMode(modes, m), m) == AddMode(modes, m)
  {
  }

  /** Unlocking the modes of a batch one after the other. */
  function UnlockBatch(modes: seq<Mode>, batch: seq<Mode>): seq<Mode>
    decreases |batch|
  {
    if batch == [] then modes else UnlockBatch(AddMode(modes, batch[0]), batch[1..])
  }

  lemma {:induction false} UnlockBatchProperties(modes: seq<Mode>, batch: seq<Mode>)
    ensures modes <= UnlockBatch(modes, batch)
    ensures forall x :: x in UnlockBatch(modes, batch) <==> x in modes || x in batch
    ensures NoDup(modes) ==> NoDup(UnlockBatch(modes, batch))
    ensures (forall x :: x in batch ==> x in modes) ==> UnlockBatch(modes, batch) == modes
    decreases |batch|
  {
    if batch != [] {
      UnlockBatchProperties(AddMode(modes, batch[0]), batch[1..]);
      assert forall x :: x in batch <==> x == batch[0] || x in batch[1..];
    }
  }

  /** Finding: the three unlock calls of the hard-mode milestone all start
      from the same, stale list, and each call that adds something replaces
      the list outright, so only the last one that adds a mode survives. */
  function StaleUnlockBatchAsWritten(modes: seq<Mode>, batch: seq<Mode>): (r: seq<Mode>)
    ensures |r| <= |modes| + 1
    decreases |batch|
  {
    if batch == [] then modes
    else if batch[|batch| - 1] !in modes then modes + [batch[|batch| - 1]]
    else StaleUnlockBatchAsWritten(modes, batch[..|batch| - 1])
  }

  /** The as-written hard-mode milestone unlocks only endless-hard. */
  lemma StaleUnlockDropsModes()
    ensures StaleUnlockBatchAsWritten([Classic, Speed, Hard], EndlessModes)
            == [Classic, Speed, Hard, EndlessHard]
    ensures EndlessClassic !in StaleUnlockBatchAsWritten([Classic, Speed, Hard], EndlessModes)
    ensures EndlessClassic in UnlockBatch([Classic, Speed, Hard], EndlessModes)
  {
    UnlockBatchProperties([Classic, Speed, Hard], EndlessModes);
  }

  /** The loss repairs itself while the run goes on: every later food at the
      milestone adds one more of the lost modes, so three foods at 7500 or
      more unlock all three endless modes. */
  lemma StaleUnlockHealsOverThreeFoods()
    ensures var once := StaleUnlockBatchAsWritten([Classic, Speed, Hard], EndlessModes);
            var twice := StaleUnlockBatchAsWritten(once, EndlessModes);
            var thrice := StaleUnlockBatchAsWritten(twice, EndlessModes);
            EndlessClassic !in twice
            && thrice == [Classic, Speed, Hard, EndlessHard, EndlessSpeedy, EndlessClassic]
  {
    var once := StaleUnlockBatchAsWritten([Classic, Speed, Hard], EndlessModes);
    assert once == [Classic, Speed, Hard, EndlessHard];
    var twice := StaleUnlockBatchAsWritten(once, EndlessModes);
    assert EndlessModes[..2] == [EndlessClassic, EndlessSpeedy];
    assert twice == once + [EndlessSpeedy];
    assert EndlessModes[..1] == [EndlessClassic];
  }

  // ---------------------------------------------------------------------
  // High scores
  // ---------------------------------------------------------------------

  /** A mode's best score is replaced only by a strictly greater one; a mode
      with no entry is left alone (the comparison with a missing entry fails). */
  function HighScoreAfter(scores: map<Mode, nat>, mode: Mode, score: nat): (r: map<Mode, nat>)
    ensures r.Keys == scores.Keys
    ensures forall m :: m in scores && m != mode ==> r[m] == scores[m]
    ensures forall m :: m in scores ==> r[m] >= scores[m]
    ensures mode in scores ==> r[mode] == Max(scores[mode], score)
    ensures mode in scores ==> (r[mode] != scores[mode] <==> score > scores[mode])
  {
    if mode in scores && score > scores[mode] then scores[mode := score] else scores
  }

  // ---------------------------------------------------------------------
  // Pattern price list
  // ---------------------------------------------------------------------

  function PatternCost(p: Pattern): real {
    match p
    case Squares => 0.0
    case Rectangles => 0.0
    case Triangles => 0.0
    case Stars => 3.0
    case Pentagon => 4.5
    case Hexagon => 5.0
    case Heptagon => 6.0
    case Octagon => 6.3
    case Nonagon => 7.3
    case Decagon => 8.0
    case Freeze => 12.5
  }

  /** No price is negative, and the free patterns are exactly the ones
      every profile starts with. */
  lemma PatternCostTable(p: Pattern)
    ensures PatternCost(p) >= 0.0
    ensures PatternCost(p) == 0.0 <==> p in DefaultPatterns
  {
  }

  predicate CanUnlock(stars: real, owned: seq<Pattern>, p: Pattern) {
    stars >= PatternCost(p) && p !in owned
  }

  // ---------------------------------------------------------------------
  // Food placement
  // ---------------------------------------------------------------------

  /** Some draw of the random cell source misses every excluded cell, which
      is what the rejection loop needs to stop. */
  predicate HasFreeDraw(draws: seq<Cell>, avoid: seq<Cell>) {
    exists i :: 0 <= i < |draws| && draws[i] !in avoid
  }

  /** Position of the first draw that misses every excluded cell. */
  function FirstFreeIndex(draws: seq<Cell>, avoid: seq<Cell>): (i: nat)
    requires HasFreeDraw(draws, avoid)
    ensures i < |draws| && draws[i] !in avoid
    ensures forall j :: 0 <= j < i ==> draws[j] in avoid
    decreases |draws|
  {
    if draws[0] !in avoid then 0
    else
      assert HasFreeDraw(draws[1..], avoid) by {
        var k :| 0 <= k < |draws| && draws[k] !in avoid;
        assert k > 0 && draws[1..][k - 1] == draws[k];
      }
      1 + FirstFreeIndex(draws[1..], avoid)
  }

  /** The rejection loop: draw cells until one misses every excluded cell. */
  method GenerateFood(avoid: seq<Cell>, draws: seq<Cell>) returns (food: Cell)
    requires AllInGrid(draws) && HasFreeDraw(draws, avoid)
    ensures food == draws[FirstFreeIndex(draws, avoid)]
    ensures InGrid(food) && food !in avoid
  {
    var i := 0;
    food := draws[0];
    while food in avoid
      invariant 0 <= i <= FirstFreeIndex(draws, avoid)
      invariant food == draws[i]
      decreases FirstFreeIndex(draws, avoid) - i
    {
      i := i + 1;
      food := draws[i];
    }
  }

  /** Cells the source's food draw avoids: the snake as it was before the
      move, because the draw reads the pre-move snake. */
  function FoodExclusionAsWritten(snake: seq<Cell>, newHead: Cell): seq<Cell> {
    snake
  }

  /** Cells the food must avoid after the snake has eaten: the grown snake. */
  function FoodExclusion(snake: seq<Cell>, newHead: Cell): seq<Cell> {
    [newHead] + snake
  }

  /** Finding: as written, the food eaten at the new head can be drawn again
      at once, under the head of the grown snake. */
  lemma FoodOnHeadAsWritten()
    ensures var snake, head := [Cell(10, 10)], Cell(11, 10);
            var draws := [head];
            HasFreeDraw(draws, FoodExclusionAsWritten(snake, head))
            && draws[FirstFreeIndex(draws, FoodExclusionAsWritten(snake, head))] in [head] + snake
  {
    var snake, head := [Cell(10, 10)], Cell(11, 10);
    assert [head][0] !in FoodExclusionAsWritten(snake, head);
  }

  /** With the grown snake excluded, new food never lies under the snake. */
  lemma FoodOffGrownSnake(snake: seq<Cell>, head: Cell, draws: seq<Cell>)
    requires HasFreeDraw(draws, FoodExclusion(snake, head))
    ensures var f := draws[FirstFreeIndex(draws, FoodExclusion(snake, head))];
            f != head && f !in snake
  {
  }
}
