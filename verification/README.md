# Windy Gridworld SARSA, modelled in Dafny

This project models the learning core of a small Java program (`src/Main.java`). The program
trains a tabular SARSA agent on the Windy Gridworld benchmark. The grid has 7 rows and 10
columns. Each column carries an upward wind that shifts every move starting in that column.
The agent has nine moves: four orthogonal, four diagonal and a no-op.

Each learning step does four things: it moves the agent with the windy, clamped transition;
it picks the next action epsilon-greedily from a dense action-value table; it corrects the
value of the pair it just left by the SARSA value α·(r + γ·Q(s′,a′) − Q(s,a)); and it
advances. An episode repeats this until the goal cell is reached. A training run plays a
sequence of episodes on one shared table.

Modules, following the classes of the source:

- `Wrappers`: `Option`, which stands for a Java reference that may be `null`.
- `Actions`: the `Action` enum: ordinals, deltas, labels and the `getAction` lookup.
- `Points`: the `Point` cell and its `compareTo` equality test.
- `QTable`: the `Grid` class: the dense height × width × 9 table of Q-values, with its start and goal cells.
- `GridWorld`: the `GridWorld` class: the world (table plus wind) and the `getNextStep` transition.
- `Utility`: `getMaxIndex`, both as a recursive function and as the source's loop.
- `Sarsa`: the `WindyGreedWorld` class: action selection, `calculateSarsa`, one iteration of the `episode` loop, whole episodes, and the training loop of `run`.
- `Canonical`: the constants of the `Constant` class, plus worked examples on that configuration.

The random draws are parameters of the model. Each action selection consumes one `Choice`.
`Exploit` means the Bernoulli(ε) coin of `getBinomial(1, ε)` came up 0. `Explore(k)` means
the coin came up 1 and `(int)(Math.random() * 9)` produced `k`. An episode receives one
`Choice` for its initial action and then a finite sequence of them, one per loop iteration.
If the sequence runs out before the goal is reached, the episode ends as `Unfinished`.
Q-values are modelled as `real`.

## Model

| member | source | states |
|---|---|---|
| `Actions.Ordinal` | src/Main.java:35-44 | every variant's ordinal is below 9, and `Action.values()` holds the variant at that position |
| `Actions.FindByOrdinal` | src/Main.java:62-70 | the linear search finds an action exactly when some listed action has the requested ordinal, and what it finds is a listed action with that ordinal |
| `Actions.GetAction` | src/Main.java:62-70 | `getAction(n)` finds a variant exactly when 0 ≤ n < 9, and that variant has ordinal n; every other integer yields `null` |
| `Actions.GetActionOfOrdinal` | src/Main.java:62-70 | looking up a variant's own ordinal returns that variant (`getAction` inverts `ordinal()`) |
| `Actions.DeltasAreUnit` | src/Main.java:36-44 | every variant's row and column deltas lie in {−1, 0, 1} |
| `Actions.DeltasIdentifyActions` | src/Main.java:36-44 | no two variants share a delta pair |
| `Actions.EveryUnitMoveIsAnAction` | src/Main.java:36-44 | every delta pair in {−1,0,1}² belongs to some variant, so the nine variants are exactly the nine unit moves |
| `Points.CompareTo` | src/Main.java:94-99 | `compareTo` returns 1 exactly when the two cells are equal and 0 exactly when they differ |
| `QTable.NewGrid` | src/Main.java:126-132 | a new table has `height` rows of `width` cells with `n` values each, all 0, and records the given start, goal and dimensions |
| `QTable.GetQValues` | src/Main.java:138-140 | the row of a cell has one value per action, and position `ordinal(a)` holds the value of action `a` |
| `QTable.SetQValue` | src/Main.java:142-144 | the write stores `v` at (i, j, ordinal(a)); it keeps the table's shape, start, goal and dimensions and leaves every other entry unchanged |
| `QTable.GetOfNewGrid` | src/Main.java:126-136 | `getQValue` on a freshly built table reads 0 for every action of every cell |
| `QTable.GetAfterSet` | src/Main.java:134-144 | after a write, reading the written entry gives the new value and reading any other entry gives its old value |
| `GridWorld.NewWorld` | src/Main.java:169-174 | the `GridWorld` constructor keeps the wind and builds an all-zero table; with nine actions, a non-empty grid, one wind entry per column and an on-grid start, the world is ready to run episodes |
| `GridWorld.NextStep` | src/Main.java:176-196 | on a grid with at least one row (column), the next row (column) lies on the grid |
| `GridWorld.NextStepIsClampedMove` | src/Main.java:176-196 | on a non-empty grid, the next cell is (clamp(i + xChange − wind[j], 0, h−1), clamp(j + yChange, 0, w−1)); the two axes are clamped independently and the wind comes from the originating column j |
| `GridWorld.WindMovesNoChange` | src/Main.java:180-195 | the no-op move keeps the column and still drifts the row by that column's wind, up to the top edge |
| `Utility.MaxIndex` | src/Main.java:343-351 | on a non-empty array the result is an index holding a maximal value, and every lower index holds a strictly smaller value; on an empty array it is 0 |
| `Utility.GetMaxIndex` | src/Main.java:343-351 | the loop returns the first index of the maximum (0 on an empty array), the same index as `MaxIndex` |
| `Utility.FirstMaxIsUnique` | src/Main.java:343-351 | at most one index is the first maximum, so the tie-break to the lowest index fixes the answer |
| `Utility.AllEqualGivesZero` | src/Main.java:343-351 | when all values are equal the answer is index 0 |
| `Sarsa.GreedyAction` | src/Main.java:247-248 | the exploiting choice has a maximal value in its cell, and every action of lower ordinal has a strictly smaller value |
| `Sarsa.GreedyIsUnique` | src/Main.java:247-248 | two actions that are both greedy in the same cell are the same action |
| `Sarsa.GreedyOnTieIsUp` | src/Main.java:247-248 | when all nine values of a cell are equal, the greedy action is UP (ordinal 0) |
| `Sarsa.SelectAction` | src/Main.java:244-249 | an exploring draw yields the action whose ordinal is the drawn index; an exploiting draw yields the greedy action of the cell |
| `Sarsa.CalculateSarsa` | src/Main.java:275-282 | the SARSA value δ of (s, a) → (s′, a′), added to Q(s,a) as the episode loop does (lines 254-265), gives (1 − α)·Q(s,a) + α·(r + γ·Q(s′,a′)): the old value blended with the TD target |
| `Sarsa.SarsaFixedPoint` | src/Main.java:275-282 | with α ≠ 0, the SARSA value is 0 exactly when Q(s,a) already equals the target r + γ·Q(s′,a′) |
| `Sarsa.UpdateMovesTowardTarget` | src/Main.java:254-265 | with 0 < α ≤ 1, the new value lies between the old value and the target |
| `Sarsa.Step` | src/Main.java:238-270 | one iteration moves to `getNextStep(state, action)` and adds 1 to the step count. It picks the next action from the draw, greedy on the table as it was before this step's write. It stores the old Q(state, action) plus the SARSA value of the pair (state, action) → (next state, next action) at (state, action), and changes no other entry. The world's configuration is unchanged and the new state is on the grid |
| `Sarsa.Loop` | src/Main.java:236-272 | the loop stops at the first visit to the goal. A finished loop ends at the goal and an unfinished one ends off it, having used every draw. Each draw adds at most one step. A learner already at the goal is returned untouched. The configuration and validity are preserved |
| `Sarsa.Episode` | src/Main.java:224-273 | an episode takes at most as many steps as it has loop draws, and a finished one ends at the goal; when start equals goal it returns 0 steps and leaves the table untouched |
| `Sarsa.FinishedIgnoresExtraDraws` | src/Main.java:236-272 | once an episode has reached the goal, extra draws change nothing: the loop stops at the goal |
| `Sarsa.UnfinishedResumes` | src/Main.java:236-272 | running the loop on draws `cs + more` equals running it on `cs` and then resuming on `more`, so state, action, count and table carry over unchanged |
| `Sarsa.Train` | src/Main.java:300-312 | a training run that completes returns a valid world with the same configuration and a total step count no larger than the loop draws it was given; one that gets stuck names an episode within the run and returns a valid learner; an empty run returns the world untouched with total 0. What a non-empty run computes is stated by `Sarsa.TrainUnfolds` |
| `Sarsa.TrainUnfolds` | src/Main.java:300-312 | a non-empty run plays `episode` on the current world with its first episode's draws. If that episode reaches the goal, the rest of the run continues on the world (and table) the episode left, and the episode's steps are added to the total (line 309). Otherwise the run is stuck in episode 0 |
| `Sarsa.TrainStaysStuck` | src/Main.java:300-312 | once an episode never finishes, later episodes change nothing |
| `Sarsa.TrainSplits` | src/Main.java:300-312 | if training on `e1` completes, then training on `e1 + e2` is training on `e2` from the world `e1` left: step totals add and a stuck episode is numbered after those of `e1`. Together with `Sarsa.TrainUnfolds`, which fixes what each episode does, this says nothing learned is reset between runs |
| `Canonical.CanonicalWorld` | src/Main.java:8-27 | the benchmark world, start (3,0), goal (3,7), 7 × 10 cells, wind [0,0,0,1,1,1,2,2,1,0], begins with an all-zero table and is ready to run episodes |
| `Canonical.ActionListIsInOrdinalOrder` | src/Main.java:10-18 | `ACTION_LIST` is `Action.values()`: position k holds the variant of ordinal k |
| `Canonical.WindExamples` | src/Main.java:176-196 | on the benchmark world, RIGHT from (3,6) lands on (1,7), and UP from (0,0) stays at (0,0) |
| `Canonical.FreshTableGreedyIsUp` | src/Main.java:343-351 | on the fresh benchmark table every cell's greedy action is UP |
| `Canonical.UpdateExample` | src/Main.java:254-282 | with Q(s,a) = 2.0, Q(s′,a′) = 5.0, r = −1, α = 0.5 and γ = 0.9, the SARSA value is 0.75 and the stored value becomes 2.75; the step also moves from (3,6) to (1,7) and counts 1 |

## Left out

- `Math.random` and `Utility.getBinomial` (src/Main.java:199, 333-341) become the `Choice` parameters. As a result, ε appears only as the constant `Canonical.Epsilon`. Nothing probabilistic is modelled: the frequency of exploration, uniformity of the random action, and the trend of episode lengths are not modelled.
- Termination of `episode` is not claimed. The source loop has no step cap and may never reach the goal. `Sarsa.Loop` and `Sarsa.Episode` are bounded by the draws they receive and report `Unfinished` when these run out.
- All printing is left out: the trace lines in `episode` and `calculateSarsa`, `printGrid` (src/Main.java:146-155), the banner in `run`, and the output redirection in `main`. These are pure I/O. `Actions.Name` keeps the display labels, but nothing depends on them.
- `isDebug` only toggles printing. `Constant.toString` and `Point.toString` only format text.
- Q-values are `real`. IEEE-754 rounding, NaN and infinities are not modelled.
- Integers are unbounded. `GridWorld.NextStep` does not model 32-bit overflow of `i + xChange − wind[j]`, which cannot happen for on-grid cells and winds of ordinary size.
- `GridWorld.NextStep` follows the source's order of bound tests. On a grid with zero rows (columns) this yields −1, so the bounds are claimed only for non-empty grids.
- The source throws on an out-of-range array index, and dereferencing a `null` action also throws. These cases are preconditions in the model (`ValidIndex`, `ValidChoice`, `Valid`, `ValidLearner`), not error results.
- `getQValues` returns the live row array, while the model returns its value. The source only reads the row it gets back.
- The `actionList` field of `GridWorld` is used only for its length in `getRandomAction`. The model fixes it to the nine variants in declaration order (`Canonical.ActionListIsInOrdinalOrder`).
- Configuration is not validated by the source: the grid size, start, goal and wind length are not checked. A design that rejects bad configuration eagerly differs from this. The model follows the code: the `Valid` world predicate is a precondition of running episodes, not a check with an error result. A goal off the grid is not excluded; such an episode simply never finishes.
