/** The hybrid reflex agent: `HybridReflexAgent1` and `HybridReflexAgent2` as one class whose
    `tuning` holds the two numbers that set them apart, with the per-agent memory the Python agents keep
    in fields (`food`, `last_food_count`, `is_defensive`) and the per-tick entry point `ChooseAction`. */
module Agent {
  import opened Game
  import opened Policy
  import opened Scoring
  import opened Extraction

  /** What `choose_action` yields: an action; the `None` its endgame loop returns when no successor
      lies nearer the start than 9999; or the failure of `max` over an empty list of values. */
  datatype Outcome = Move(action: Direction) | NoMove | NoLegalAction

  /** The endgame loop's initial `best_dist`. */
  const FarAway: nat := 9999

  /** `best_actions`: the actions whose value equals `top`, in order. */
  function BestActions(actions: seq<Direction>, values: seq<int>, top: int): (best: seq<Direction>)
    requires |values| == |actions|
    ensures forall a :: a in best <==> exists i :: 0 <= i < |actions| && actions[i] == a && values[i] == top
    decreases |actions|
  {
    if actions == [] then []
    else
      var n := |actions| - 1;
      var rest := BestActions(actions[..n], values[..n], top);
      assert forall i :: 0 <= i < n ==> actions[..n][i] == actions[i] && values[..n][i] == values[i];
      if values[n] == top then rest + [actions[n]] else rest
  }

  /** The opponent loop of `get_features`: visits the current state's opponents in the engine's
      order, tracking `max_scared_time` and `closest_scared_ghost_dist` and writing the ghost features
      into `f`, which starts as `base`. */
  method SweepOpponents(st: GameState, nx: GameState, base: map<Feature, int>, dist: (Pos, Pos) -> nat)
    returns (maxScared: nat, closest: Option<nat>, f: map<Feature, int>)
    requires Located(nx)
    ensures Sweep(maxScared, closest, f)
         == SweepPrefix(st.opponents, |st.opponents|, MyPos(nx), Danger(nx, dist), dist, Sweep(0, None, base))
  {
    var here := MyPos(nx);
    maxScared, closest, f := 0, None, base;
    var i := 0;
    while i < |st.opponents|
      invariant 0 <= i <= |st.opponents|
      invariant Sweep(maxScared, closest, f)
             == SweepPrefix(st.opponents, i, here, Danger(nx, dist), dist, Sweep(0, None, base))
    {
      var ghostState := st.opponents[i];
      if !ghostState.isPacman {
        var timer := ghostState.scaredTimer;
        maxScared := if timer > maxScared then timer else maxScared;
        if timer > 5 {
          if ghostState.pos.Some? {
            var d := dist(here, ghostState.pos.value);
            closest := if closest.Some? && closest.value <= d then closest else Some(d);
            f := f[ScaredGhostDist := closest.value];
          }
        } else {
          f := f[ScaredGhostDist := 0];
          var defenders := VisibleDists(nx.opponents, false, here, dist);
          if |defenders| > 0 {
            var mindist := MinOf(defenders);
            if mindist < 3 {
              f := f[GhostReallyClose := 3 - mindist];
              f := f[GetOutOfThere := 1];
            } else if mindist < 8 {
              f := f[GetOutOfThere := 1];
              f := f[GhostClose := mindist];
            } else {
              f := f[GhostFar := mindist];
            }
          }
        }
      }
      i := i + 1;
    }
  }

  /** The list `[rate(a) for a in actions]` over the first `n` actions. */
  function Rated(actions: seq<Direction>, rate: Direction -> int, n: nat): (vs: seq<int>)
    requires n <= |actions|
    ensures |vs| == n
  {
    if n == 0 then [] else Rated(actions, rate, n - 1) + [rate(actions[n - 1])]
  }

  /** Entry `j` of the list is the rating of action `j`. */
  lemma {:induction false} RatedAt(actions: seq<Direction>, rate: Direction -> int, n: nat, j: nat)
    requires j < n <= |actions|
    ensures Rated(actions, rate, n)[j] == rate(actions[j])
  {
    if j < n - 1 {
      RatedAt(actions, rate, n - 1, j);
    }
  }

  /** Entry `k` is a largest entry of `values`. */
  predicate IsBest(values: seq<int>, k: int) {
    0 <= k < |values| && forall j :: 0 <= j < |values| ==> values[j] <= values[k]
  }

  /** An entry equal to the maximum is a largest entry. */
  lemma MaxIsBest(values: seq<int>, k: int)
    requires 0 <= k < |values| && values[k] == MaxOf(values)
    ensures IsBest(values, k)
  {
    forall j | 0 <= j < |values| ensures values[j] <= values[k] {
      assert values[j] in values;
    }
  }

  class HybridAgent {
    /** The team colour, which decides which half is home. */
    const red: bool
    /** The cell the agent starts from (`self.start`). */
    const start: Pos
    const tuning: Tuning
    /** Pellets eaten since the agent was last on its own side. */
    var food: int
    /** The remaining-pellet count seen by the previous call, None before the first call. */
    var lastFoodCount: Option<nat>
    /** The role flag `get_weights` reads. */
    var isDefensive: bool

    ghost predicate Valid()
      reads this
    {
      food >= 0
    }

    /** `__init__` together with `register_initial_state`, which records the start cell. */
    constructor (red: bool, start: Pos, tuning: Tuning)
      ensures Valid()
      ensures this.red == red && this.start == start && this.tuning == tuning
      ensures food == 0 && lastFoodCount == None && isDefensive
    {
      this.red := red;
      this.start := start;
      this.tuning := tuning;
      food := 0;
      lastFoodCount := None;
      isDefensive := true;
    }

    /** `pacman_on_own_side`, asked of the current state. */
    function OwnSide(st: GameState): (own: bool)
      requires Located(st)
    {
      OnOwnSide(red, st.width, MyPos(st).x)
    }

    /** The role flag `get_features` leaves behind for successor `nx`, given the carried count. */
    function RoleFor(carried: int, st: GameState, nx: GameState, dist: (Pos, Pos) -> nat): (defensive: bool)
      requires Located(st) && Located(nx)
    {
      Role(tuning, st.score, carried, st.me.scaredTimer, OwnSide(st), NumInvaders(nx, dist))
    }

    /** `evaluate`: the features of the action against the weights of the role that same call set. */
    function ActionValue(carried: int, st: GameState, nx: GameState, action: Direction, dist: (Pos, Pos) -> nat): (v: int)
      requires Located(st) && Located(nx)
    {
      Dot(Features(st, nx, action, start, dist), Weights(RoleFor(carried, st, nx, dist), st.me.isPacman, st.me.scaredTimer))
    }

    /** The maze distance from the start to the agent's cell in successor `nx`. */
    function HomeDist(nx: GameState, dist: (Pos, Pos) -> nat): (d: nat)
      requires Located(nx)
    {
      dist(start, MyPos(nx))
    }

    /** Action `k` is the first one whose successor is nearest the start, and nearer than 9999. */
    ghost predicate FirstNearestHome(actions: seq<Direction>, next: Direction -> GameState, dist: (Pos, Pos) -> nat, k: int)
      requires forall d :: Located(next(d))
    {
      && 0 <= k < |actions|
      && HomeDist(next(actions[k]), dist) < FarAway
      && (forall i :: 0 <= i < k ==> HomeDist(next(actions[i]), dist) > HomeDist(next(actions[k]), dist))
      && (forall i :: k <= i < |actions| ==> HomeDist(next(actions[i]), dist) >= HomeDist(next(actions[k]), dist))
    }

    /** The carried-food bookkeeping of `get_features`: adds the drop in remaining pellets since the
        previous call, records the new count, and banks everything when on the agent's own side. */
    method CountCarried(st: GameState)
      requires Valid() && Located(st)
      modifies this`food, this`lastFoodCount
      ensures Valid()
      ensures lastFoodCount == Some(|st.food|)
      ensures food == CarriedAfter(old(food), old(lastFoodCount), |st.food|, OwnSide(st))
    {
      var remaining := |st.food|;
      if lastFoodCount.None? {
        lastFoodCount := Some(remaining);
      }
      var eaten := lastFoodCount.value - remaining;
      if eaten > 0 {
        food := food + eaten;
      }
      lastFoodCount := Some(remaining);
      if OwnSide(st) {
        food := 0;
      }
    }

    /** The defence features `get_features` sets first, and the invader distances it counts. */
    method DefenceCounter(nx: GameState, dist: (Pos, Pos) -> nat) returns (f: map<Feature, int>, invaders: seq<nat>)
      requires Located(nx)
      ensures invaders == VisibleDists(nx.opponents, true, MyPos(nx), dist)
      ensures f == DefenceBase(nx, start, dist)
    {
      var here := MyPos(nx);
      f := map[OnDefense := 1];
      if nx.me.isPacman {
        f := f[OnDefense := 0];
      }
      invaders := VisibleDists(nx.opponents, true, here, dist);
      f := f[InvaderCount := |invaders|];
      if |invaders| > 0 {
        var nearest := MinOf(invaders);
        f := f[InvaderDist := nearest];
        if nearest < 10 {
          f := f[Flee := 1];
        }
      }
      var distToStart := dist(here, start);
      if nx.me.isPacman {
        f := f[StartDist := distToStart];
      } else {
        f := f[StartDist := 0];
      }
    }

    /** The part of `get_features` before its opponent loop: the defence features, the move marks
        and the food features of successor `nx`. */
    method BaseCounter(st: GameState, nx: GameState, action: Direction, dist: (Pos, Pos) -> nat)
      returns (f: map<Feature, int>, invaders: seq<nat>)
      requires Located(nx)
      ensures invaders == VisibleDists(nx.opponents, true, MyPos(nx), dist)
      ensures f == BaseFeatures(st, nx, action, start, dist)
    {
      f, invaders := DefenceCounter(nx, dist);
      ghost var defence := f;
      if action == Stop {
        f := f[Stopped := 1];
      }
      if action == Reverse(st.me.direction) {
        f := f[Reversed := 1];
      }
      assert f == MoveMarks(defence, st, action);
      f := f[SuccessorScore := -|nx.food|];
      if |nx.food| > 0 {
        f := f[FoodDist := MinOf(FoodDists(nx.food, MyPos(nx), dist))];
      }
    }

    /** `get_features`: updates the carried-food counter and the role flag, and fills the counter. */
    method GetFeatures(st: GameState, nx: GameState, action: Direction, dist: (Pos, Pos) -> nat)
      returns (f: map<Feature, int>)
      requires Valid() && Located(st) && Located(nx)
      modifies this
      ensures Valid()
      ensures lastFoodCount == Some(|st.food|)
      ensures food == CarriedAfter(old(food), old(lastFoodCount), |st.food|, OwnSide(st))
      ensures isDefensive == RoleFor(food, st, nx, dist)
      ensures f == Features(st, nx, action, start, dist)
    {
      CountCarried(st);
      var base, invaders := BaseCounter(st, nx, action, dist);
      var maxScared, closest, swept := SweepOpponents(st, nx, base, dist);
      f := swept;
      f := f[ScaredTime := maxScared];

      if (st.score >= tuning.threshold || food > tuning.maxFood) && st.me.scaredTimer == 0 {
        isDefensive := true;
      } else if OwnSide(st) && |invaders| > 0 {
        isDefensive := true;
      } else {
        isDefensive := false;
      }
    }

    /** `evaluate`: scores one action with the weights of the role its own feature pass set. */
    method Evaluate(st: GameState, nx: GameState, action: Direction, dist: (Pos, Pos) -> nat) returns (v: int)
      requires Valid() && Located(st) && Located(nx)
      modifies this
      ensures Valid()
      ensures lastFoodCount == Some(|st.food|)
      ensures food == CarriedAfter(old(food), old(lastFoodCount), |st.food|, OwnSide(st))
      ensures isDefensive == RoleFor(food, st, nx, dist)
      ensures v == ActionValue(food, st, nx, action, dist)
    {
      var features := GetFeatures(st, nx, action, dist);
      var weights := Weights(isDefensive, st.me.isPacman, st.me.scaredTimer);
      v := Dot(features, weights);
    }

    /** The endgame loop of `choose_action`: the first action whose successor is strictly nearer the
        start than every earlier one and than 9999, or None when no successor is. */
    method ReturnHome(actions: seq<Direction>, next: Direction -> GameState, dist: (Pos, Pos) -> nat)
      returns (best: Option<Direction>)
      requires forall d :: Located(next(d))
      ensures best.None? <==> forall i :: 0 <= i < |actions| ==> HomeDist(next(actions[i]), dist) >= FarAway
      ensures best.Some? ==> exists k :: FirstNearestHome(actions, next, dist, k) && actions[k] == best.value
    {
      var bestDist := FarAway;
      best := None;
      ghost var k := 0;
      var i := 0;
      while i < |actions|
        invariant 0 <= i <= |actions|
        invariant best.None? ==> bestDist == FarAway && forall j :: 0 <= j < i ==> HomeDist(next(actions[j]), dist) >= FarAway
        invariant best.Some? ==>
          && 0 <= k < i && best.value == actions[k] && bestDist == HomeDist(next(actions[k]), dist) < FarAway
          && (forall j :: 0 <= j < k ==> HomeDist(next(actions[j]), dist) > bestDist)
          && (forall j :: k <= j < i ==> HomeDist(next(actions[j]), dist) >= bestDist)
      {
        var successor := next(actions[i]);
        var d := dist(start, MyPos(successor));
        if d < bestDist {
          best := Some(actions[i]);
          bestDist := d;
          k := i;
        }
        i := i + 1;
      }
      if best.Some? {
        assert FirstNearestHome(actions, next, dist, k);
      }
    }

    /** The `values` list of `choose_action` for its first `n` actions, in order, as `evaluate` rates
        them with carried count `carried`. */
    function Values(carried: int, st: GameState, actions: seq<Direction>, next: Direction -> GameState,
                    dist: (Pos, Pos) -> nat, n: nat): (vs: seq<int>)
      requires Located(st)
      requires forall d :: Located(next(d))
      requires n <= |actions|
      ensures |vs| == n
    {
      Rated(actions, a => ActionValue(carried, st, next(a), a, dist), n)
    }

    /** Entry `j` of the list is the value of action `j`, whatever the length of the prefix. */
    lemma ValuesAt(carried: int, st: GameState, actions: seq<Direction>, next: Direction -> GameState,
                   dist: (Pos, Pos) -> nat, n: nat, j: nat)
      requires Located(st)
      requires forall d :: Located(next(d))
      requires j < n <= |actions|
      ensures Values(carried, st, actions, next, dist, n)[j] == ActionValue(carried, st, next(actions[j]), actions[j], dist)
    {
      RatedAt(actions, a => ActionValue(carried, st, next(a), a, dist), n, j);
    }

    /** One round of the `values` list comprehension: evaluates action `i` once the first `i` have been. */
    method EvaluateNext(st: GameState, actions: seq<Direction>, next: Direction -> GameState, dist: (Pos, Pos) -> nat,
                        i: nat, values: seq<int>) returns (extended: seq<int>)
      requires Valid() && Located(st)
      requires forall d :: Located(next(d))
      requires 0 < i < |actions|
      requires lastFoodCount == Some(|st.food|) && food == CarriedAfter(food, lastFoodCount, |st.food|, OwnSide(st))
      requires values == Values(food, st, actions, next, dist, i)
      modifies this
      ensures Valid() && food == old(food) && lastFoodCount == old(lastFoodCount)
      ensures isDefensive == RoleFor(food, st, next(actions[i]), dist)
      ensures extended == Values(food, st, actions, next, dist, i + 1)
    {
      var v := Evaluate(st, next(actions[i]), actions[i], dist);
      extended := values + [v];
    }

    /** The first round of the `values` list comprehension, the one call of the tick that can move
        the carried-food counter; the count it leaves is one a second call would not change. */
    method EvaluateFirst(st: GameState, actions: seq<Direction>, next: Direction -> GameState, dist: (Pos, Pos) -> nat)
      returns (values: seq<int>)
      requires Valid() && Located(st)
      requires actions != []
      requires forall d :: Located(next(d))
      modifies this
      ensures Valid()
      ensures food == CarriedAfter(old(food), old(lastFoodCount), |st.food|, OwnSide(st))
      ensures lastFoodCount == Some(|st.food|)
      ensures food == CarriedAfter(food, lastFoodCount, |st.food|, OwnSide(st))
      ensures isDefensive == RoleFor(food, st, next(actions[0]), dist)
      ensures values == Values(food, st, actions, next, dist, 1)
    {
      var first := Evaluate(st, next(actions[0]), actions[0], dist);
      values := [first];
      CarriedIdempotent(old(food), old(lastFoodCount), |st.food|, OwnSide(st));
    }

    /** The `values` list of `choose_action`: every legal action evaluated in order. Only the first
        evaluation of a tick can move the carried-food counter; the role flag is left as the last
        action's evaluation set it. */
    method EvaluateAll(st: GameState, actions: seq<Direction>, next: Direction -> GameState, dist: (Pos, Pos) -> nat)
      returns (values: seq<int>)
      requires Valid() && Located(st)
      requires actions != []
      requires forall d :: Located(next(d))
      modifies this
      ensures Valid()
      ensures food == CarriedAfter(old(food), old(lastFoodCount), |st.food|, OwnSide(st))
      ensures lastFoodCount == Some(|st.food|)
      ensures isDefensive == RoleFor(food, st, next(actions[|actions| - 1]), dist)
      ensures values == Values(food, st, actions, next, dist, |actions|)
    {
      values := EvaluateFirst(st, actions, next, dist);
      ghost var carried := food;
      var i := 1;
      while i < |actions|
        invariant 1 <= i <= |actions|
        invariant Valid() && food == carried && lastFoodCount == Some(|st.food|)
        invariant isDefensive == RoleFor(carried, st, next(actions[i - 1]), dist)
        invariant values == Values(carried, st, actions, next, dist, i)
      {
        values := EvaluateNext(st, actions, next, dist, i, values);
        i := i + 1;
      }
    }

    /** The decision `choose_action` takes once it has the values: with at most 2 pellets left, the
        endgame loop toward the start; otherwise any action of highest value. */
    method Decide(actions: seq<Direction>, values: seq<int>, foodLeft: nat, next: Direction -> GameState,
                  dist: (Pos, Pos) -> nat) returns (r: Outcome)
      requires actions != [] && |values| == |actions|
      requires forall d :: Located(next(d))
      ensures foodLeft <= 2 ==>
        && (r == NoMove <==> forall i :: 0 <= i < |actions| ==> HomeDist(next(actions[i]), dist) >= FarAway)
        && (r != NoMove ==> r.Move? && exists k :: FirstNearestHome(actions, next, dist, k) && actions[k] == r.action)
      ensures foodLeft > 2 ==>
        r.Move? && exists k :: 0 <= k < |actions| && actions[k] == r.action && IsBest(values, k)
    {
      var maxValue := MaxOf(values);
      var bestActions := BestActions(actions, values, maxValue);
      if foodLeft <= 2 {
        var home := ReturnHome(actions, next, dist);
        r := if home.Some? then Move(home.value) else NoMove;
        return;
      }
      var top :| 0 <= top < |values| && values[top] == maxValue;
      assert actions[top] in bestActions;
      var choice :| choice in bestActions;
      r := Move(choice);
      var k :| 0 <= k < |actions| && actions[k] == choice && values[k] == maxValue;
      MaxIsBest(values, k);
    }

    /** `choose_action`: evaluates every legal action in order (each evaluation runs the feature pass
        and so updates the agent's memory), then decides. */
    method ChooseAction(st: GameState, actions: seq<Direction>, next: Direction -> GameState, dist: (Pos, Pos) -> nat)
      returns (r: Outcome)
      requires Valid() && Located(st)
      requires forall d :: Located(next(d))
      modifies this
      ensures Valid()
      ensures actions == [] ==>
        r == NoLegalAction && food == old(food) && lastFoodCount == old(lastFoodCount) && isDefensive == old(isDefensive)
      ensures actions != [] ==>
        && food == CarriedAfter(old(food), old(lastFoodCount), |st.food|, OwnSide(st))
        && lastFoodCount == Some(|st.food|)
        && isDefensive == RoleFor(food, st, next(actions[|actions| - 1]), dist)
      ensures actions != [] && |st.food| <= 2 ==>
        && (r == NoMove <==> forall i :: 0 <= i < |actions| ==> HomeDist(next(actions[i]), dist) >= FarAway)
        && (r != NoMove ==> r.Move? && exists k :: FirstNearestHome(actions, next, dist, k) && actions[k] == r.action)
      ensures actions != [] && |st.food| > 2 ==>
        && r.Move?
        && exists k :: 0 <= k < |actions| && actions[k] == r.action && IsBest(Values(food, st, actions, next, dist, |actions|), k)
    {
      if actions == [] {
        return NoLegalAction;
      }
      var values := EvaluateAll(st, actions, next, dist);
      r := Decide(actions, values, |st.food|, next, dist);
    }
  }
}
