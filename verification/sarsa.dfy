/** The SARSA learner (the Java `WindyGreedWorld`): epsilon-greedy selection, the
    temporal-difference update, one step of the episode loop, whole episodes and the
    training run that threads one table through all of them.

    The source's `Math.random` draws enter as explicit `Choice` values: one per action
    selection, saying whether the Bernoulli(epsilon) coin chose exploration and, if so,
    which index `(int)(Math.random() * 9)` produced. */
module Sarsa {
  import opened Wrappers
  import opened Actions
  import opened Points
  import opened QTable
  import opened GridWorld
  import opened Utility

  /** The fixed step reward, learning rate alpha and discount rate gamma. */
  datatype Params = Params(reward: real, alpha: real, discount: real)

  /** The outcome of the random draws of one action selection. */
  datatype Choice = Exploit | Explore(index: int)

  /** `(int)(Math.random() * actionList.length)` lies in [0, 9). */
  predicate ValidChoice(c: Choice)
  {
    c.Explore? ==> 0 <= c.index < ActionCount
  }

  predicate ValidChoices(cs: seq<Choice>)
  {
    forall k :: 0 <= k < |cs| ==> ValidChoice(cs[k])
  }

  lemma ValidChoicesAppend(cs: seq<Choice>, more: seq<Choice>)
    requires ValidChoices(cs) && ValidChoices(more)
    ensures ValidChoices(cs + more)
  {
    assert forall k :: 0 <= k < |cs + more| ==> (cs + more)[k] == if k < |cs| then cs[k] else more[k - |cs|];
  }

  /** The cell lies on the world's grid. */
  predicate OnGrid(w: World, p: Point)
  {
    InGrid(p, w.grid.height, w.grid.width)
  }

  /** Value of taking `a` in cell `p`. */
  function Q(g: Grid, p: Point, a: Action): real
    requires Dense(g, ActionCount) && InGrid(p, g.height, g.width)
  {
    GetQValue(g, p.x, p.y, a)
  }

  /** `a` is the greedy action in `p`: its value is maximal, and every action of lower
      ordinal has a strictly smaller value. */
  predicate IsGreedy(g: Grid, p: Point, a: Action)
    requires Dense(g, ActionCount) && InGrid(p, g.height, g.width)
  {
    && (forall b :: Q(g, p, b) <= Q(g, p, a))
    && (forall b :: Ordinal(b) < Ordinal(a) ==> Q(g, p, b) < Q(g, p, a))
  }

  /** The action at the first maximum of a cell's row of values is the greedy action. */
  lemma FirstMaxIsGreedy(g: Grid, p: Point, a: Action)
    requires Dense(g, ActionCount) && InGrid(p, g.height, g.width)
    requires IsFirstMax(GetQValues(g, p.x, p.y), Ordinal(a))
    ensures IsGreedy(g, p, a)
  {
    var values := GetQValues(g, p.x, p.y);
    forall b
      ensures Q(g, p, b) <= Q(g, p, a)
      ensures Ordinal(b) < Ordinal(a) ==> Q(g, p, b) < Q(g, p, a)
    {
      assert Q(g, p, b) == values[Ordinal(b)];
      assert Q(g, p, a) == values[Ordinal(a)];
    }
  }

  /** The exploiting branch: `getAction(getMaxIndex(getQValues(i, j)))`. The lookup
      always succeeds because a row holds exactly nine values. */
  function GreedyAction(g: Grid, p: Point): (a: Action)
    requires Dense(g, ActionCount) && InGrid(p, g.height, g.width)
    ensures IsGreedy(g, p, a)
  {
    var m := MaxIndex(GetQValues(g, p.x, p.y));
    var a := GetAction(m).value;
    FirstMaxIsGreedy(g, p, a);
    a
  }

  /** Two actions that are both greedy in the same cell are the same action. */
  lemma GreedyIsUnique(g: Grid, p: Point, a: Action, b: Action)
    requires Dense(g, ActionCount) && InGrid(p, g.height, g.width)
    requires IsGreedy(g, p, a) && IsGreedy(g, p, b)
    ensures a == b
  {
    assert Q(g, p, a) <= Q(g, p, b) && Q(g, p, b) <= Q(g, p, a);
    assert Ordinal(a) == Ordinal(b);
    assert a == Values[Ordinal(a)];
  }

  /** On a cell whose nine values are all equal (a fresh table, say) the greedy action is
      the one of ordinal 0, `Up`. */
  lemma GreedyOnTieIsUp(g: Grid, p: Point)
    requires Dense(g, ActionCount) && InGrid(p, g.height, g.width)
    requires forall b :: Q(g, p, b) == Q(g, p, Up)
    ensures GreedyAction(g, p) == Up
  {
    var a := GreedyAction(g, p);
    assert Q(g, p, Up) == Q(g, p, a);
    assert a == Values[Ordinal(a)];
  }

  /** Epsilon-greedy selection with its draws made explicit: the explored index names
      the action by ordinal; otherwise the greedy action of the cell. */
  function SelectAction(g: Grid, p: Point, c: Choice): (a: Action)
    requires Dense(g, ActionCount) && InGrid(p, g.height, g.width)
    requires ValidChoice(c)
    ensures c.Explore? ==> Ordinal(a) == c.index
    ensures c.Exploit? ==> IsGreedy(g, p, a)
  {
    match c
    case Explore(k) => GetAction(k).value
    case Exploit => GreedyAction(g, p)
  }

  /** `calculateSarsa`: the correction alpha * (r + gamma * Q(s', a') - Q(s, a)). Added to
      the stored value it gives the alpha-blend of the old value and the TD target. */
  function CalculateSarsa(p: Params, g: Grid, action: Action, nextAction: Action, state: Point, nextState: Point): (d: real)
    requires Dense(g, ActionCount)
    requires InGrid(state, g.height, g.width) && InGrid(nextState, g.height, g.width)
    ensures Q(g, state, action) + d
            == (1.0 - p.alpha) * Q(g, state, action) + p.alpha * Target(p, g, nextState, nextAction)
  {
    p.alpha * (p.reward + p.discount * Q(g, nextState, nextAction) - Q(g, state, action))
  }

  /** The TD target r + gamma * Q(s', a'), bootstrapped from the action actually chosen. */
  function Target(p: Params, g: Grid, nextState: Point, nextAction: Action): real
    requires Dense(g, ActionCount) && InGrid(nextState, g.height, g.width)
  {
    p.reward + p.discount * Q(g, nextState, nextAction)
  }

  /** With a non-zero learning rate the correction vanishes exactly when the stored value
      already equals the target. */
  lemma SarsaFixedPoint(p: Params, g: Grid, action: Action, nextAction: Action, state: Point, nextState: Point)
    requires Dense(g, ActionCount)
    requires InGrid(state, g.height, g.width) && InGrid(nextState, g.height, g.width)
    requires p.alpha != 0.0
    ensures CalculateSarsa(p, g, action, nextAction, state, nextState) == 0.0
            <==> Q(g, state, action) == Target(p, g, nextState, nextAction)
  {
  }

  /** With 0 < alpha <= 1 the updated value lies between the old value and the target:
      it moves toward the target and never overshoots it. */
  lemma UpdateMovesTowardTarget(p: Params, g: Grid, action: Action, nextAction: Action, state: Point, nextState: Point)
    requires Dense(g, ActionCount)
    requires InGrid(state, g.height, g.width) && InGrid(nextState, g.height, g.width)
    requires 0.0 < p.alpha <= 1.0
    ensures var q0 := Q(g, state, action);
            var q1 := q0 + CalculateSarsa(p, g, action, nextAction, state, nextState);
            var t := Target(p, g, nextState, nextAction);
            (q0 <= t ==> q0 <= q1 <= t) && (t <= q0 ==> t <= q1 <= q0)
  {
    var q0 := Q(g, state, action);
    var t := Target(p, g, nextState, nextAction);
    var d := t - q0;
    assert CalculateSarsa(p, g, action, nextAction, state, nextState) == p.alpha * d;
    if d >= 0.0 {
      assert 0.0 <= p.alpha * d <= d;
    } else {
      assert d <= p.alpha * d <= 0.0;
    }
  }

  /** The loop variables of `episode`: the world with its table, the current state and
      action, and the step counter `time`. */
  datatype Learner = Learner(world: World, state: Point, action: Action, time: nat)

  predicate ValidLearner(l: Learner)
  {
    Valid(l.world) && OnGrid(l.world, l.state)
  }

  /** The world is the same configuration, with possibly different table contents. */
  predicate SameConfig(w: World, w': World)
  {
    && w'.wind == w.wind
    && w'.grid.start == w.grid.start && w'.grid.goal == w.grid.goal
    && w'.grid.height == w.grid.height && w'.grid.width == w.grid.width
  }

  /** One iteration of the `episode` loop body: move, choose the next action on the
      table as it stands, correct Q(state, action) by the SARSA value, and advance. */
  function Step(p: Params, l: Learner, c: Choice): (l': Learner)
    requires ValidLearner(l) && ValidChoice(c)
    ensures ValidLearner(l') && SameConfig(l.world, l'.world)
    ensures l'.state == NextStep(l.world, l.state, l.action)
    ensures l'.time == l.time + 1
    ensures c.Explore? ==> Ordinal(l'.action) == c.index
    ensures c.Exploit? ==> IsGreedy(l.world.grid, l'.state, l'.action)
    ensures Q(l'.world.grid, l.state, l.action)
            == Q(l.world.grid, l.state, l.action) + CalculateSarsa(p, l.world.grid, l.action, l'.action, l.state, l'.state)
    ensures forall i, j, k :: (0 <= i < l.world.grid.height && 0 <= j < l.world.grid.width && 0 <= k < ActionCount
              && (i, j, k) != (l.state.x, l.state.y, Ordinal(l.action)))
              ==> l'.world.grid.q[i][j][k] == l.world.grid.q[i][j][k]
  {
    var g := l.world.grid;
    var nextState := NextStep(l.world, l.state, l.action);
    var nextAction := SelectAction(g, nextState, c);
    var sarsaValue := CalculateSarsa(p, g, l.action, nextAction, l.state, nextState);
    var updatedQvalue := GetQValue(g, l.state.x, l.state.y, l.action) + sarsaValue;
    var g' := SetQValue(g, l.state.x, l.state.y, l.action, updatedQvalue);
    Learner(l.world.(grid := g'), nextState, nextAction, l.time + 1)
  }

  /** How a run of the loop ended: at the goal, or with the draws used up first. */
  datatype Outcome = Finished(learner: Learner) | Unfinished(learner: Learner)

  /** The `while (state.compareTo(goal) != 1)` loop, driven by a finite sequence of
      draws, one per iteration. The goal test comes before every step. */
  function Loop(p: Params, l: Learner, cs: seq<Choice>): (o: Outcome)
    requires ValidLearner(l) && ValidChoices(cs)
    ensures ValidLearner(o.learner) && SameConfig(l.world, o.learner.world)
    ensures l.time <= o.learner.time <= l.time + |cs|
    ensures o.Finished? ==> o.learner.state == l.world.grid.goal
    ensures o.Unfinished? ==> o.learner.state != l.world.grid.goal && o.learner.time == l.time + |cs|
    ensures l.state == l.world.grid.goal ==> o == Finished(l)
    decreases |cs|
  {
    if CompareTo(l.state, l.world.grid.goal) == 1 then Finished(l)
    else if |cs| == 0 then Unfinished(l)
    else Loop(p, Step(p, l, cs[0]), cs[1..])
  }

  /** `episode()`: start at the start cell with time 0, select the first action with
      the draw `first`, then run the loop on the draws `rest`. */
  function Episode(p: Params, w: World, first: Choice, rest: seq<Choice>): (o: Outcome)
    requires Valid(w) && ValidChoice(first) && ValidChoices(rest)
    ensures ValidLearner(o.learner) && SameConfig(w, o.learner.world)
    ensures o.learner.time <= |rest|
    ensures o.Finished? ==> o.learner.state == w.grid.goal
    ensures o.Unfinished? ==> o.learner.time == |rest|
    ensures w.grid.start == w.grid.goal ==> o.Finished? && o.learner.time == 0 && o.learner.world == w
  {
    var action := SelectAction(w.grid, w.grid.start, first);
    Loop(p, Learner(w, w.grid.start, action, 0), rest)
  }

  /** Away from the goal and with a draw left, the loop takes one step and continues. */
  lemma LoopUnfolds(p: Params, l: Learner, cs: seq<Choice>)
    requires ValidLearner(l) && ValidChoices(cs)
    requires l.state != l.world.grid.goal && |cs| > 0
    ensures ValidLearner(Step(p, l, cs[0])) && ValidChoices(cs[1..])
    ensures Loop(p, l, cs) == Loop(p, Step(p, l, cs[0]), cs[1..])
  {
  }

  /** `Step` as a total function value, so that `Run` can take it as a parameter. The
      fallback `l` never fires from `Loop`, whose learner and draws are always valid. */
  function Advance(p: Params): (Learner, Choice) -> Learner
  {
    (l: Learner, c: Choice) => if ValidLearner(l) && ValidChoice(c) then Step(p, l, c) else l
  }

  /** The loop of `Loop` with the step left abstract: reasoning about how draws are
      consumed does not depend on what a step does. */
  function Run(step: (Learner, Choice) -> Learner, goal: Point, l: Learner, cs: seq<Choice>): Outcome
    decreases |cs|
  {
    if l.state == goal then Finished(l)
    else if |cs| == 0 then Unfinished(l)
    else Run(step, goal, step(l, cs[0]), cs[1..])
  }

  lemma {:induction false} LoopIsRun(p: Params, l: Learner, cs: seq<Choice>)
    requires ValidLearner(l) && ValidChoices(cs)
    ensures Loop(p, l, cs) == Run(Advance(p), l.world.grid.goal, l, cs)
    decreases |cs|
  {
    if l.state != l.world.grid.goal && |cs| > 0 {
      LoopUnfolds(p, l, cs);
      assert Advance(p)(l, cs[0]) == Step(p, l, cs[0]);
      LoopIsRun(p, Step(p, l, cs[0]), cs[1..]);
    }
  }

  lemma {:induction false} RunFinishedIgnoresExtraDraws(step: (Learner, Choice) -> Learner, goal: Point, l: Learner, cs: seq<Choice>, more: seq<Choice>)
    requires Run(step, goal, l, cs).Finished?
    ensures Run(step, goal, l, cs + more) == Run(step, goal, l, cs)
    decreases |cs|
  {
    if l.state != goal {
      assert (cs + more)[0] == cs[0];
      assert (cs + more)[1..] == cs[1..] + more;
      RunFinishedIgnoresExtraDraws(step, goal, step(l, cs[0]), cs[1..], more);
    }
  }

  lemma {:induction false} RunResumes(step: (Learner, Choice) -> Learner, goal: Point, l: Learner, cs: seq<Choice>, more: seq<Choice>)
    requires Run(step, goal, l, cs).Unfinished?
    ensures Run(step, goal, l, cs + more) == Run(step, goal, Run(step, goal, l, cs).learner, more)
    decreases |cs|
  {
    if |cs| == 0 {
      assert cs + more == more;
    } else {
      assert (cs + more)[0] == cs[0];
      assert (cs + more)[1..] == cs[1..] + more;
      RunResumes(step, goal, step(l, cs[0]), cs[1..], more);
    }
  }

  /** Once the loop has reached the goal, further draws are never consumed. */
  lemma FinishedIgnoresExtraDraws(p: Params, l: Learner, cs: seq<Choice>, more: seq<Choice>)
    requires ValidLearner(l) && ValidChoices(cs) && ValidChoices(more)
    requires Loop(p, l, cs).Finished?
    ensures ValidChoices(cs + more)
    ensures Loop(p, l, cs + more) == Loop(p, l, cs)
  {
    ValidChoicesAppend(cs, more);
    LoopIsRun(p, l, cs);
    LoopIsRun(p, l, cs + more);
    RunFinishedIgnoresExtraDraws(Advance(p), l.world.grid.goal, l, cs, more);
  }

  /** Running the loop on `cs + more` without reaching the goal within `cs` is running it
      on `cs` and resuming from where it stopped on `more`. */
  lemma UnfinishedResumes(p: Params, l: Learner, cs: seq<Choice>, more: seq<Choice>)
    requires ValidLearner(l) && ValidChoices(cs) && ValidChoices(more)
    requires Loop(p, l, cs).Unfinished?
    ensures ValidChoices(cs + more)
    ensures Loop(p, l, cs + more) == Loop(p, Loop(p, l, cs).learner, more)
  {
    ValidChoicesAppend(cs, more);
    LoopIsRun(p, l, cs);
    LoopIsRun(p, l, cs + more);
    var l1 := Loop(p, l, cs).learner;
    LoopIsRun(p, l1, more);
    RunResumes(Advance(p), l.world.grid.goal, l, cs, more);
  }

  /** The draws of one episode. */
  datatype EpisodeDraws = EpisodeDraws(first: Choice, rest: seq<Choice>)

  predicate ValidDraws(e: EpisodeDraws)
  {
    ValidChoice(e.first) && ValidChoices(e.rest)
  }

  /** Number of loop draws available to a sequence of episodes. */
  function Budget(eps: seq<EpisodeDraws>): nat
  {
    if |eps| == 0 then 0 else |eps[0].rest| + Budget(eps[1..])
  }

  /** A training run either completes every episode, giving the final world and the total
      step count, or gets stuck in episode number `episode` (counted from 0). */
  datatype TrainOutcome = Trained(world: World, total: nat) | Stuck(episode: nat, learner: Learner)

  /** One episode as a total function value, so that `RunEpisodes` can take it as a parameter.
      The `Unfinished` fallback never fires from `Train`, whose world and draws are always valid. */
  function PlayEpisode(p: Params): (World, EpisodeDraws) -> Outcome
  {
    (w: World, e: EpisodeDraws) =>
      if Valid(w) && ValidDraws(e) then Episode(p, w, e.first, e.rest)
      else Unfinished(Learner(w, w.grid.start, Up, 0))
  }

  /** The episode loop of `run()` for any way `play` of playing one episode: one episode
      per element of `eps`, each starting from the world the previous one left, with the
      episodes' times summed; the first unfinished episode stops the run. */
  function RunEpisodes(play: (World, EpisodeDraws) -> Outcome, w: World, eps: seq<EpisodeDraws>): TrainOutcome
    decreases |eps|
  {
    if |eps| == 0 then Trained(w, 0)
    else
      match play(w, eps[0])
      case Unfinished(l) => Stuck(0, l)
      case Finished(l) =>
        match RunEpisodes(play, l.world, eps[1..])
        case Trained(w', total) => Trained(w', l.time + total)
        case Stuck(k, l') => Stuck(k + 1, l')
  }

  /** Playing SARSA episodes keeps the world valid and its configuration fixed, and uses at
      most one step per loop draw. */
  lemma {:induction false} RunEpisodesKeepsWorld(p: Params, w: World, eps: seq<EpisodeDraws>)
    requires Valid(w) && forall k :: 0 <= k < |eps| ==> ValidDraws(eps[k])
    ensures var t := RunEpisodes(PlayEpisode(p), w, eps);
            && (t.Trained? ==> Valid(t.world) && SameConfig(w, t.world) && t.total <= Budget(eps))
            && (t.Stuck? ==> t.episode < |eps| && ValidLearner(t.learner) && SameConfig(w, t.learner.world))
    decreases |eps|
  {
    if |eps| > 0 {
      assert ValidDraws(eps[0]);
      var o := Episode(p, w, eps[0].first, eps[0].rest);
      assert PlayEpisode(p)(w, eps[0]) == o;
      if o.Finished? {
        RunEpisodesKeepsWorld(p, o.learner.world, eps[1..]);
      }
    }
  }

  /** The training loop of `run()`: the SARSA episodes played one after the other on one
      shared table. */
  function Train(p: Params, w: World, eps: seq<EpisodeDraws>): (t: TrainOutcome)
    requires Valid(w) && forall k :: 0 <= k < |eps| ==> ValidDraws(eps[k])
    ensures t.Trained? ==> Valid(t.world) && SameConfig(w, t.world) && t.total <= Budget(eps)
    ensures t.Stuck? ==> t.episode < |eps| && ValidLearner(t.learner) && SameConfig(w, t.learner.world)
    ensures |eps| == 0 ==> t == Trained(w, 0)
  {
    RunEpisodesKeepsWorld(p, w, eps);
    RunEpisodes(PlayEpisode(p), w, eps)
  }

  /** The outcome of a run whose first episode ended with `o`, given the outcome `t` of the
      run's remaining episodes played from the world that episode left. */
  function AfterFirstEpisode(o: Outcome, t: TrainOutcome): TrainOutcome
  {
    if o.Unfinished? then Stuck(0, o.learner)
    else if t.Trained? then Trained(t.world, o.learner.time + t.total)
    else Stuck(t.episode + 1, t.learner)
  }

  /** Training on a non-empty run plays its first episode on `w` with that episode's draws.
      If the episode finishes, the rest of the run trains on the world (and so the table) the
      episode left, and the episode's step count is added to the rest's total. If it does not
      finish, the run is stuck in episode 0. */
  lemma TrainUnfolds(p: Params, w: World, e: EpisodeDraws, rest: seq<EpisodeDraws>)
    requires Valid(w) && ValidDraws(e)
    requires forall k :: 0 <= k < |rest| ==> ValidDraws(rest[k])
    ensures forall k :: 0 <= k < |[e] + rest| ==> ValidDraws(([e] + rest)[k])
    ensures var o := Episode(p, w, e.first, e.rest);
            Train(p, w, [e] + rest) == AfterFirstEpisode(o, Train(p, o.learner.world, rest))
  {
    assert [e][0] == e;
    ValidDrawsAppend([e], rest);
    var o := Episode(p, w, e.first, e.rest);
    assert PlayEpisode(p)(w, e) == o;
    RunEpisodesUnfolds(PlayEpisode(p), w, e, rest);
  }

  lemma RunEpisodesUnfolds(play: (World, EpisodeDraws) -> Outcome, w: World, e: EpisodeDraws, rest: seq<EpisodeDraws>)
    ensures var o := play(w, e);
            RunEpisodes(play, w, [e] + rest) == AfterFirstEpisode(o, RunEpisodes(play, o.learner.world, rest))
  {
    assert ([e] + rest)[0] == e;
    assert ([e] + rest)[1..] == rest;
  }

  lemma {:induction false} RunEpisodesSplits(play: (World, EpisodeDraws) -> Outcome, w: World, e1: seq<EpisodeDraws>, e2: seq<EpisodeDraws>)
    ensures RunEpisodes(play, w, e1).Stuck? ==> RunEpisodes(play, w, e1 + e2) == RunEpisodes(play, w, e1)
    ensures RunEpisodes(play, w, e1).Trained? ==>
              RunEpisodes(play, w, e1 + e2)
              == match RunEpisodes(play, RunEpisodes(play, w, e1).world, e2)
                 case Trained(w2, t2) => Trained(w2, RunEpisodes(play, w, e1).total + t2)
                 case Stuck(k, l) => Stuck(|e1| + k, l)
    decreases |e1|
  {
    if |e1| == 0 {
      assert e1 + e2 == e2;
      match RunEpisodes(play, w, e2)
      case Trained(_, _) =>
      case Stuck(_, _) =>
    } else {
      assert (e1 + e2)[0] == e1[0];
      assert (e1 + e2)[1..] == e1[1..] + e2;
      match play(w, e1[0])
      case Unfinished(l) =>
      case Finished(l) =>
        RunEpisodesSplits(play, l.world, e1[1..], e2);
    }
  }

  lemma ValidDrawsAppend(e1: seq<EpisodeDraws>, e2: seq<EpisodeDraws>)
    requires forall k :: 0 <= k < |e1| ==> ValidDraws(e1[k])
    requires forall k :: 0 <= k < |e2| ==> ValidDraws(e2[k])
    ensures forall k :: 0 <= k < |e1 + e2| ==> ValidDraws((e1 + e2)[k])
  {
    assert forall k :: 0 <= k < |e1 + e2| ==> (e1 + e2)[k] == if k < |e1| then e1[k] else e2[k - |e1|];
  }

  /** A training run that gets stuck within `e1` ignores any later episodes. */
  lemma TrainStaysStuck(p: Params, w: World, e1: seq<EpisodeDraws>, e2: seq<EpisodeDraws>)
    requires Valid(w)
    requires forall k :: 0 <= k < |e1| ==> ValidDraws(e1[k])
    requires forall k :: 0 <= k < |e2| ==> ValidDraws(e2[k])
    ensures forall k :: 0 <= k < |e1 + e2| ==> ValidDraws((e1 + e2)[k])
    ensures Train(p, w, e1).Stuck? ==> Train(p, w, e1 + e2) == Train(p, w, e1)
  {
    ValidDrawsAppend(e1, e2);
    RunEpisodesSplits(PlayEpisode(p), w, e1, e2);
  }

  /** Training on `e1 + e2`, when training on `e1` completes, is training on `e2` starting
      from the world `e1` left: nothing learned is reset between episodes, the
      step totals add, and a stuck episode is numbered after those of `e1`. */
  lemma TrainSplits(p: Params, w: World, e1: seq<EpisodeDraws>, e2: seq<EpisodeDraws>)
    requires Valid(w)
    requires forall k :: 0 <= k < |e1| ==> ValidDraws(e1[k])
    requires forall k :: 0 <= k < |e2| ==> ValidDraws(e2[k])
    ensures forall k :: 0 <= k < |e1 + e2| ==> ValidDraws((e1 + e2)[k])
    ensures Train(p, w, e1).Trained? ==>
              Train(p, w, e1 + e2)
              == match Train(p, Train(p, w, e1).world, e2)
                 case Trained(w2, t2) => Trained(w2, Train(p, w, e1).total + t2)
                 case Stuck(k, l) => Stuck(|e1| + k, l)
  {
    ValidDrawsAppend(e1, e2);
    RunEpisodesSplits(PlayEpisode(p), w, e1, e2);
  }
}
