/** The closed set of nine moves of the Windy Gridworld agent (the Java `Action` enum). */
module Actions {
  import opened Wrappers

  /** The nine moves, in declaration order. As in the source's `Point`, `x` is the
      row axis (growing downwards) and `y` the column axis. */
  datatype Action = Up | Down | Left | Right | RightUp | RightDown | LeftUp | LeftDown | NoChange

  /** Number of variants, the length of `Action.values()`. */
  const ActionCount: nat := 9

  /** `Action.values()`: every variant, in declaration order. */
  const Values: seq<Action> := [Up, Down, Left, Right, RightUp, RightDown, LeftUp, LeftDown, NoChange]

  /** `ordinal()`: the position of the variant in its declaration. */
  function Ordinal(a: Action): (n: nat)
    ensures n < ActionCount
    ensures Values[n] == a
  {
    match a
    case Up => 0
    case Down => 1
    case Left => 2
    case Right => 3
    case RightUp => 4
    case RightDown => 5
    case LeftUp => 6
    case LeftDown => 7
    case NoChange => 8
  }

  /** `getxChange()`: the row delta of the move. */
  function XChange(a: Action): int
  {
    match a
    case Up => -1
    case Down => 1
    case Left => 0
    case Right => 0
    case RightUp => -1
    case RightDown => 1
    case LeftUp => -1
    case LeftDown => 1
    case NoChange => 0
  }

  /** `getyChange()`: the column delta of the move. */
  function YChange(a: Action): int
  {
    match a
    case Up => 0
    case Down => 0
    case Left => -1
    case Right => 1
    case RightUp => 1
    case RightDown => 1
    case LeftUp => -1
    case LeftDown => -1
    case NoChange => 0
  }

  /** `getName()`: the display label of the move. */
  function Name(a: Action): string
  {
    match a
    case Up => "U"
    case Down => "D"
    case Left => "L"
    case Right => "R"
    case RightUp => "RU"
    case RightDown => "RD"
    case LeftUp => "LU"
    case LeftDown => "LD"
    case NoChange => "-"
  }

  /** Every variant sits at the position of `Values` given by its ordinal. */
  lemma OrdinalsOfValues()
    ensures forall k :: 0 <= k < |Values| ==> Ordinal(Values[k]) == k
  {
  }

  /** The linear search of `getAction`: the first action of `actions` whose
      ordinal is `n`, or `None` when no action has that ordinal. */
  function FindByOrdinal(actions: seq<Action>, n: int): (r: Option<Action>)
    ensures r.Some? <==> exists k :: 0 <= k < |actions| && Ordinal(actions[k]) == n
    ensures r.Some? ==> r.value in actions && Ordinal(r.value) == n
    decreases |actions|
  {
    if |actions| == 0 then None
    else if Ordinal(actions[0]) == n then Some(actions[0])
    else
      var r := FindByOrdinal(actions[1..], n);
      assert forall k :: 1 <= k < |actions| ==> actions[k] == actions[1..][k - 1];
      r
  }

  /** `Action.getAction(ordinal)`: the variant with that ordinal, `None` (the source's
      `null`) for any integer outside [0, 9). */
  function GetAction(n: int): (r: Option<Action>)
    ensures r.Some? <==> 0 <= n < ActionCount
    ensures r.Some? ==> Ordinal(r.value) == n && r.value == Values[n]
  {
    OrdinalsOfValues();
    FindByOrdinal(Values, n)
  }

  /** `getAction` inverts `ordinal()`: looking up a variant's ordinal finds that variant. */
  lemma GetActionOfOrdinal(a: Action)
    ensures GetAction(Ordinal(a)) == Some(a)
  {
  }

  /** Every move changes each coordinate by at most one. */
  lemma DeltasAreUnit(a: Action)
    ensures -1 <= XChange(a) <= 1 && -1 <= YChange(a) <= 1
  {
  }

  /** Two variants with the same deltas are the same variant. */
  lemma DeltasIdentifyActions(a: Action, b: Action)
    requires XChange(a) == XChange(b) && YChange(a) == YChange(b)
    ensures a == b
  {
  }

  /** Every delta pair in {-1,0,1} x {-1,0,1} is the move of some variant, so with
      `DeltasIdentifyActions` the nine variants are exactly the nine unit moves. */
  lemma EveryUnitMoveIsAnAction(dx: int, dy: int)
    requires -1 <= dx <= 1 && -1 <= dy <= 1
    ensures exists a :: XChange(a) == dx && YChange(a) == dy
  {
    var a := if dx == -1 then (if dy == -1 then LeftUp else if dy == 0 then Up else RightUp)
             else if dx == 0 then (if dy == -1 then Left else if dy == 0 then NoChange else Right)
             else (if dy == -1 then LeftDown else if dy == 0 then Down else RightDown);
    assert XChange(a) == dx && YChange(a) == dy;
  }
}
