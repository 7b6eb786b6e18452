/** The deterministic windy transition (the Java `GridWorld`). */
module GridWorld {
  import opened Actions
  import opened Points
  import opened QTable

  /** The learner's environment: the table with its dimensions, start and goal, and the
      upward wind of every column. */
  datatype World = World(grid: Grid, wind: seq<int>)

  /** A world that can run episodes: a non-empty dense table with one value per action,
      one wind entry per column, and a start cell on the grid. */
  predicate Valid(w: World)
  {
    && Dense(w.grid, ActionCount)
    && w.grid.height >= 1 && w.grid.width >= 1
    && |w.wind| == w.grid.width
    && InGrid(w.grid.start, w.grid.height, w.grid.width)
  }

  /** The `GridWorld` constructor: a fresh all-zero table of `actionCount` values per cell. */
  function NewWorld(start: Point, goal: Point, height: nat, width: nat, actionCount: nat, wind: seq<int>): (w: World)
    ensures w.wind == wind && w.grid.start == start && w.grid.goal == goal
    ensures w.grid.height == height && w.grid.width == width && Dense(w.grid, actionCount)
    ensures forall i, j, k :: 0 <= i < height && 0 <= j < width && 0 <= k < actionCount ==> w.grid.q[i][j][k] == 0.0
    ensures (actionCount == ActionCount && 1 <= height && 1 <= width && |wind| == width
             && InGrid(start, height, width)) ==> Valid(w)
  {
    World(NewGrid(start, goal, height, width, actionCount), wind)
  }

  /** The value `v` forced into [lo, hi]. */
  function Clamp(v: int, lo: int, hi: int): (r: int)
    requires lo <= hi
    ensures lo <= r <= hi
    ensures lo <= v <= hi ==> r == v
  {
    if v < lo then lo else if v > hi then hi else v
  }

  /** `getNextStep(state, action)`: add the move's deltas, subtract the wind of the
      column the move starts from, then clamp each axis. The four bound tests run in
      the source's order (low row, low column, high row, high column). */
  function NextStep(w: World, p: Point, a: Action): (r: Point)
    requires 0 <= p.y < |w.wind|
    ensures w.grid.height >= 1 ==> 0 <= r.x < w.grid.height
    ensures w.grid.width >= 1 ==> 0 <= r.y < w.grid.width
  {
    var newI := p.x + XChange(a) - w.wind[p.y];
    var newJ := p.y + YChange(a);
    var newI := if newI < 0 then 0 else newI;
    var newJ := if newJ < 0 then 0 else newJ;
    var newI := if newI >= w.grid.height then w.grid.height - 1 else newI;
    var newJ := if newJ >= w.grid.width then w.grid.width - 1 else newJ;
    Point(newI, newJ)
  }

  /** On a non-empty grid the transition is the clamp of the windy move on each axis
      separately, with the wind of the originating column. */
  lemma NextStepIsClampedMove(w: World, p: Point, a: Action)
    requires 0 <= p.y < |w.wind|
    requires w.grid.height >= 1 && w.grid.width >= 1
    ensures NextStep(w, p, a)
            == Point(Clamp(p.x + XChange(a) - w.wind[p.y], 0, w.grid.height - 1),
                     Clamp(p.y + YChange(a), 0, w.grid.width - 1))
  {
  }

  /** The wind still acts on the no-op move: the column is kept and the row drifts by the
      wind of that column, up to the top edge. */
  lemma WindMovesNoChange(w: World, p: Point)
    requires Valid(w) && InGrid(p, w.grid.height, w.grid.width)
    ensures NextStep(w, p, NoChange) == Point(Clamp(p.x - w.wind[p.y], 0, w.grid.height - 1), p.y)
  {
    NextStepIsClampedMove(w, p, NoChange);
  }
}
