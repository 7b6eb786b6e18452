/** The action-value table (the Java `Grid`): a dense height x width x actions array
    of Q-values, together with the episode's start and goal cells. */
module QTable {
  import opened Actions
  import opened Points

  /** `q[i][j][k]` is the value of taking the action of ordinal `k` in cell (i, j). */
  datatype Grid = Grid(start: Point, goal: Point, height: int, width: int, q: seq<seq<seq<real>>>)

  /** The table has exactly `height` rows, `width` cells per row and `n` values per cell. */
  predicate Dense(g: Grid, n: nat)
  {
    && g.height >= 0 && g.width >= 0
    && |g.q| == g.height
    && (forall i :: 0 <= i < |g.q| ==> |g.q[i]| == g.width)
    && (forall i, j :: 0 <= i < |g.q| && 0 <= j < |g.q[i]| ==> |g.q[i][j]| == n)
  }

  /** (i, j, a) addresses an entry of the table; any other index throws in the source. */
  predicate ValidIndex(g: Grid, i: int, j: int, a: Action)
  {
    0 <= i < |g.q| && 0 <= j < |g.q[i]| && Ordinal(a) < |g.q[i][j]|
  }

  /** The `Grid` constructor: `new double[height][width][n]`, every entry 0. */
  function NewGrid(start: Point, goal: Point, height: nat, width: nat, n: nat): (g: Grid)
    ensures Dense(g, n)
    ensures g.start == start && g.goal == goal && g.height == height && g.width == width
    ensures forall i, j, k :: 0 <= i < height && 0 <= j < width && 0 <= k < n ==> g.q[i][j][k] == 0.0
  {
    Grid(start, goal, height, width, seq(height, _ => seq(width, _ => seq(n, _ => 0.0))))
  }

  /** `getQValue(i, j, action)`. */
  function GetQValue(g: Grid, i: int, j: int, a: Action): real
    requires ValidIndex(g, i, j, a)
  {
    g.q[i][j][Ordinal(a)]
  }

  /** `getQValues(i, j)`: the row of values of cell (i, j), indexed by ordinal. */
  function GetQValues(g: Grid, i: int, j: int): (r: seq<real>)
    requires 0 <= i < |g.q| && 0 <= j < |g.q[i]|
    ensures |r| == |g.q[i][j]|
    ensures forall a :: Ordinal(a) < |r| ==> r[Ordinal(a)] == GetQValue(g, i, j, a)
  {
    g.q[i][j]
  }

  /** `setQValue(i, j, action, v)`: overwrites exactly one entry; the shape, the other
      entries, and the start and goal cells are untouched. */
  function SetQValue(g: Grid, i: int, j: int, a: Action, v: real): (g': Grid)
    requires ValidIndex(g, i, j, a)
    ensures forall n: nat :: Dense(g, n) ==> Dense(g', n)
    ensures g'.start == g.start && g'.goal == g.goal && g'.height == g.height && g'.width == g.width
    ensures |g'.q| == |g.q|
    ensures forall i' :: 0 <= i' < |g.q| ==> |g'.q[i']| == |g.q[i']|
    ensures forall i', j' :: 0 <= i' < |g.q| && 0 <= j' < |g.q[i']| ==> |g'.q[i'][j']| == |g.q[i'][j']|
    ensures g'.q[i][j][Ordinal(a)] == v
    ensures forall i', j', k ::
              (0 <= i' < |g.q| && 0 <= j' < |g.q[i']| && 0 <= k < |g.q[i'][j']| && (i', j', k) != (i, j, Ordinal(a)))
              ==> g'.q[i'][j'][k] == g.q[i'][j'][k]
  {
    g.(q := g.q[i := g.q[i][j := g.q[i][j][Ordinal(a) := v]]])
  }

  /** Reading a fresh table gives 0 for every action of every cell. */
  lemma GetOfNewGrid(start: Point, goal: Point, height: nat, width: nat, i: int, j: int, a: Action)
    requires 0 <= i < height && 0 <= j < width
    ensures ValidIndex(NewGrid(start, goal, height, width, ActionCount), i, j, a)
    ensures GetQValue(NewGrid(start, goal, height, width, ActionCount), i, j, a) == 0.0
  {
  }

  /** Read after write: the written entry reads back the new value, every other entry
      reads back what it held before. */
  lemma GetAfterSet(g: Grid, i: int, j: int, a: Action, v: real, i': int, j': int, b: Action)
    requires ValidIndex(g, i, j, a) && ValidIndex(g, i', j', b)
    ensures ValidIndex(SetQValue(g, i, j, a, v), i', j', b)
    ensures GetQValue(SetQValue(g, i, j, a, v), i', j', b)
            == if (i', j', b) == (i, j, a) then v else GetQValue(g, i', j', b)
  {
    if (i', j', b) != (i, j, a) {
      assert Ordinal(b) != Ordinal(a) || (i', j') != (i, j) by {
        if Ordinal(b) == Ordinal(a) { assert b == Values[Ordinal(b)] == a; }
      }
    }
  }
}
