/** The benchmark configuration of the Java `Constant` class, and worked examples of the
    transition, the greedy choice and the SARSA update on it. */
module Canonical {
  import opened Actions
  import opened Points
  import opened QTable
  import opened GridWorld
  import opened Sarsa

  const Start: Point := Point(3, 0)
  const Goal: Point := Point(3, 7)
  /** `ACTION_LIST`: the nine variants, listed in declaration order. */
  const ActionList: seq<Action> := [Up, Down, Left, Right, RightUp, RightDown, LeftUp, LeftDown, NoChange]
  const Wind: seq<int> := [0, 0, 0, 1, 1, 1, 2, 2, 1, 0]
  const Epsilon: real := 0.1
  const LearningRate: real := 0.5
  const Reward: real := -1.0
  const WorldHeight: nat := 7
  const WorldWidth: nat := 10
  const EpisodeLimit: nat := 100
  const DiscountRate: real := 0.9

  function CanonicalParams(): Params
  {
    Params(Reward, LearningRate, DiscountRate)
  }

  /** The world `initialization` builds from the constants: a fresh 7 x 10 x 9 table. */
  function CanonicalWorld(): (w: World)
    ensures Valid(w)
    ensures w.grid.start == Start && w.grid.goal == Goal && w.wind == Wind
    ensures w.grid.height == WorldHeight && w.grid.width == WorldWidth
    ensures forall i, j, k :: 0 <= i < WorldHeight && 0 <= j < WorldWidth && 0 <= k < ActionCount ==> w.grid.q[i][j][k] == 0.0
  {
    NewWorld(Start, Goal, WorldHeight, WorldWidth, |ActionList|, Wind)
  }

  /** `ACTION_LIST` is `Action.values()`: position k holds the variant of ordinal k, which
      is what lets the source index the table and the random draw by list position. */
  lemma ActionListIsInOrdinalOrder()
    ensures ActionList == Values
    ensures forall k :: 0 <= k < |ActionList| ==> Ordinal(ActionList[k]) == k
  {
    OrdinalsOfValues();
  }

  /** From (3, 6), RIGHT meets a wind of 2 and lands on (1, 7); from (0, 0), UP would leave
      the grid through the top edge and is clamped back to (0, 0). */
  lemma WindExamples()
    ensures NextStep(CanonicalWorld(), Point(3, 6), Right) == Point(1, 7)
    ensures NextStep(CanonicalWorld(), Point(0, 0), Up) == Point(0, 0)
  {
    var w := CanonicalWorld();
    assert w.wind[6] == 2 && w.wind[0] == 0;
  }

  /** On the fresh table every value is 0, so the greedy action everywhere is UP. */
  lemma FreshTableGreedyIsUp(p: Point)
    requires InGrid(p, WorldHeight, WorldWidth)
    ensures GreedyAction(CanonicalWorld().grid, p) == Up
  {
    var g := CanonicalWorld().grid;
    forall b: Action
      ensures Q(g, p, b) == Q(g, p, Up)
    {
      assert g.q[p.x][p.y][Ordinal(b)] == 0.0;
      assert g.q[p.x][p.y][Ordinal(Up)] == 0.0;
    }
    GreedyOnTieIsUp(g, p);
  }

  /** One step from (3, 6) taking RIGHT with Q((3,6), RIGHT) = 2.0, exploring into UP with
      Q((1,7), UP) = 5.0: the SARSA value is 0.5 * (-1.0 + 0.9 * 5.0 - 2.0) = 0.75, and the
      stored value becomes 2.75. */
  lemma UpdateExample()
    ensures var g := SetQValue(SetQValue(CanonicalWorld().grid, 3, 6, Right, 2.0), 1, 7, Up, 5.0);
            var l := Step(CanonicalParams(), Learner(CanonicalWorld().(grid := g), Point(3, 6), Right, 0), Explore(0));
            && CalculateSarsa(CanonicalParams(), g, Right, Up, Point(3, 6), Point(1, 7)) == 0.75
            && l.state == Point(1, 7) && l.action == Up && l.time == 1
            && Q(l.world.grid, Point(3, 6), Right) == 2.75
  {
    var w := CanonicalWorld();
    var g1 := SetQValue(w.grid, 3, 6, Right, 2.0);
    var g := SetQValue(g1, 1, 7, Up, 5.0);
    assert Q(g, Point(3, 6), Right) == 2.0;
    assert Q(g, Point(1, 7), Up) == 5.0;
    WindExamples();
    var l0 := Learner(w.(grid := g), Point(3, 6), Right, 0);
    assert ValidLearner(l0);
    var l := Step(CanonicalParams(), l0, Explore(0));
    assert Ordinal(l.action) == 0;
    assert l.action == Values[0];
  }
}
