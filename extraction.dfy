/** The feature counter of the hybrid agents' `get_features`, as a function of the current state,
    the successor state of one candidate action, the action itself, the start cell and the maze
    distance. The agent's own bookkeeping (carried food, role flag) lives in module Agent. */
module Extraction {
  import opened Game
  import opened Scoring

  /** An opponent in sight that is (`pacman`) or is not (a ghost) on our half. */
  predicate Visible(a: AgentState, pacman: bool) {
    a.isPacman == pacman && a.pos.Some?
  }

  /** The `dists` list of `get_features`: maze distances from `here` to each visible opponent of the
      given kind, in the engine's order (invaders for `pacman`, defenders otherwise). */
  function VisibleDists(opps: seq<AgentState>, pacman: bool, here: Pos, dist: (Pos, Pos) -> nat): (r: seq<nat>)
    ensures |r| <= |opps|
    decreases |opps|
  {
    if opps == [] then []
    else
      var rest := VisibleDists(opps[..|opps| - 1], pacman, here, dist);
      var a := opps[|opps| - 1];
      if Visible(a, pacman) then rest + [dist(here, a.pos.value)] else rest
  }

  /** The indices of the visible opponents of the given kind. */
  function VisibleIndices(opps: seq<AgentState>, pacman: bool): set<int> {
    set j | 0 <= j < |opps| && Visible(opps[j], pacman)
  }

  /** The distance list has one entry per visible opponent of the kind. */
  lemma {:induction false} VisibleCount(opps: seq<AgentState>, pacman: bool, here: Pos, dist: (Pos, Pos) -> nat)
    ensures |VisibleDists(opps, pacman, here, dist)| == |VisibleIndices(opps, pacman)|
    decreases |opps|
  {
    if opps != [] {
      var last := |opps| - 1;
      var init := opps[..last];
      VisibleCount(init, pacman, here, dist);
      var before := VisibleIndices(init, pacman);
      var added: set<int> := if Visible(opps[last], pacman) then {last} else {};
      assert VisibleIndices(opps, pacman) == before + added by {
        forall j | j in VisibleIndices(opps, pacman) ensures j in before + added {
          if j < last {
            assert opps[j] == init[j];
          }
        }
        forall j | j in before ensures j in VisibleIndices(opps, pacman) {
          assert opps[j] == init[j];
        }
      }
      assert before !! added;
    }
  }

  /** The distance list holds exactly the distances to the visible opponents of the kind. */
  lemma {:induction false} VisibleDistsSpec(opps: seq<AgentState>, pacman: bool, here: Pos, dist: (Pos, Pos) -> nat)
    ensures forall j :: 0 <= j < |opps| && Visible(opps[j], pacman) ==>
              dist(here, opps[j].pos.value) in VisibleDists(opps, pacman, here, dist)
    ensures forall d :: d in VisibleDists(opps, pacman, here, dist) ==>
              exists j :: 0 <= j < |opps| && Visible(opps[j], pacman) && d == dist(here, opps[j].pos.value)
    decreases |opps|
  {
    if opps != [] {
      var last := |opps| - 1;
      var init := opps[..last];
      var rest := VisibleDists(init, pacman, here, dist);
      VisibleDistsSpec(init, pacman, here, dist);
      assert forall j :: 0 <= j < last ==> opps[j] == init[j];
      forall d | d in VisibleDists(opps, pacman, here, dist)
        ensures exists j :: 0 <= j < |opps| && Visible(opps[j], pacman) && d == dist(here, opps[j].pos.value)
      {
        if d in rest {
          var j :| 0 <= j < |init| && Visible(init[j], pacman) && d == dist(here, init[j].pos.value);
          assert opps[j] == init[j];
        } else {
          assert Visible(opps[last], pacman) && d == dist(here, opps[last].pos.value);
        }
      }
    }
  }

  /** The `min_distance` list of `get_features`: maze distances from `here` to each remaining pellet. */
  function FoodDists(food: seq<Pos>, here: Pos, dist: (Pos, Pos) -> nat): seq<nat> {
    seq(|food|, i requires 0 <= i < |food| => dist(here, food[i]))
  }

  /** The number of invaders the successor state shows (`len(invaders)`). */
  function NumInvaders(nx: GameState, dist: (Pos, Pos) -> nat): (n: nat)
    requires Located(nx)
  {
    |VisibleDists(nx.opponents, true, MyPos(nx), dist)|
  }

  /** `mindist` of the opponent loop: the distance to the nearest visible defender of the successor
      state, None when no defender is in sight. */
  function Danger(nx: GameState, dist: (Pos, Pos) -> nat): (danger: Option<nat>)
    requires Located(nx)
  {
    var d := VisibleDists(nx.opponents, false, MyPos(nx), dist);
    if |d| > 0 then Some(MinOf(d)) else None
  }

  /** The defence features `get_features` sets first: on_defense, num_invaders, invader_distance,
      flee and distance_to_start. */
  function DefenceBase(nx: GameState, start: Pos, dist: (Pos, Pos) -> nat): (f: map<Feature, int>)
    requires Located(nx)
  {
    var here := MyPos(nx);
    var invaders := VisibleDists(nx.opponents, true, here, dist);
    var counted := map[OnDefense := if nx.me.isPacman then 0 else 1, InvaderCount := |invaders|];
    var chased :=
      if |invaders| == 0 then counted
      else if MinOf(invaders) < 10 then counted[InvaderDist := MinOf(invaders)][Flee := 1]
      else counted[InvaderDist := MinOf(invaders)];
    chased[StartDist := if nx.me.isPacman then dist(here, start) else 0]
  }

  /** The marks for stopping and for reversing the current direction. */
  function MoveMarks(f: map<Feature, int>, st: GameState, action: Direction): (marked: map<Feature, int>) {
    var stopped := if action == Stop then f[Stopped := 1] else f;
    if action == Reverse(st.me.direction) then stopped[Reversed := 1] else stopped
  }

  /** The offensive features: successor_score and distance_to_food. */
  function FoodBase(f: map<Feature, int>, nx: GameState, dist: (Pos, Pos) -> nat): (fed: map<Feature, int>)
    requires Located(nx)
  {
    var scored := f[SuccessorScore := -|nx.food|];
    if |nx.food| > 0 then scored[FoodDist := MinOf(FoodDists(nx.food, MyPos(nx), dist))] else scored
  }

  /** The features `get_features` sets before its opponent loop. */
  function BaseFeatures(st: GameState, nx: GameState, action: Direction, start: Pos, dist: (Pos, Pos) -> nat): (f: map<Feature, int>)
    requires Located(nx)
  {
    FoodBase(MoveMarks(DefenceBase(nx, start, dist), st, action), nx, dist)
  }

  /** The state the opponent loop carries: `max_scared_time`, `closest_scared_ghost_dist`
      (None for the initial infinity) and the counter being filled. */
  datatype Sweep = Sweep(maxScared: nat, closest: Option<nat>, feats: map<Feature, int>)

  /** The feature keys the opponent loop writes. */
  predicate IsGhostKey(k: Feature) {
    k == ScaredGhostDist || k == GhostReallyClose || k == GetOutOfThere
    || k == GhostClose || k == GhostFar
  }

  /** A ghost with at most 5 scared ticks left: dangerous to a pacman. */
  predicate Threat(a: AgentState) {
    !a.isPacman && a.scaredTimer <= 5
  }

  /** A ghost scared for more than 5 ticks whose position is known: prey. */
  predicate ScaredInSight(a: AgentState) {
    !a.isPacman && a.scaredTimer > 5 && a.pos.Some?
  }

  /** The danger buckets set for the nearest defender at distance `danger`. */
  function DangerFeatures(f: map<Feature, int>, danger: Option<nat>): (bucketed: map<Feature, int>) {
    match danger
    case None => f
    case Some(d) =>
      if d < 3 then f[GhostReallyClose := 3 - d][GetOutOfThere := 1]
      else if d < 8 then f[GetOutOfThere := 1][GhostClose := d]
      else f[GhostFar := d]
  }

  /** One pass of the opponent loop over opponent `g` of the current state. */
  function SweepStep(acc: Sweep, g: AgentState, here: Pos, danger: Option<nat>, dist: (Pos, Pos) -> nat): (next: Sweep) {
    if g.isPacman then acc
    else
      var m := if g.scaredTimer > acc.maxScared then g.scaredTimer else acc.maxScared;
      if g.scaredTimer > 5 then
        if g.pos.Some? then
          var d := dist(here, g.pos.value);
          var c := if acc.closest.Some? && acc.closest.value <= d then acc.closest.value else d;
          Sweep(m, Some(c), acc.feats[ScaredGhostDist := c])
        else Sweep(m, acc.closest, acc.feats)
      else Sweep(m, acc.closest, DangerFeatures(acc.feats[ScaredGhostDist := 0], danger))
  }

  /** The loop state after visiting the first `n` opponents. */
  function SweepPrefix(opps: seq<AgentState>, n: nat, here: Pos, danger: Option<nat>, dist: (Pos, Pos) -> nat,
                       init: Sweep): (s: Sweep)
    requires n <= |opps|
  {
    if n == 0 then init
    else SweepStep(SweepPrefix(opps, n - 1, here, danger, dist, init), opps[n - 1], here, danger, dist)
  }

  /** The full counter `get_features` returns. */
  function Features(st: GameState, nx: GameState, action: Direction, start: Pos, dist: (Pos, Pos) -> nat): (f: map<Feature, int>)
    requires Located(nx)
  {
    var init := Sweep(0, None, BaseFeatures(st, nx, action, start, dist));
    var s := SweepPrefix(st.opponents, |st.opponents|, MyPos(nx), Danger(nx, dist), dist, init);
    s.feats[ScaredTime := s.maxScared]
  }

  /** Two counters agree on key `k`: both lack it, or both hold the same value. */
  predicate Agree(f: map<Feature, int>, g: map<Feature, int>, k: Feature) {
    (k in f <==> k in g) && (k in f ==> f[k] == g[k])
  }

  /** Two counters agree on the four danger buckets. */
  predicate BucketsAgree(f: map<Feature, int>, g: map<Feature, int>) {
    Agree(f, g, GhostReallyClose) && Agree(f, g, GetOutOfThere)
    && Agree(f, g, GhostClose) && Agree(f, g, GhostFar)
  }

  // ---------------------------------------------------------------------------------------------
  // What the opponent loop does
  // ---------------------------------------------------------------------------------------------

  /** The loop writes no key outside its own five. */
  lemma {:induction false} SweepKeepsOtherKeys(opps: seq<AgentState>, n: nat, here: Pos, danger: Option<nat>,
                                               dist: (Pos, Pos) -> nat, init: Sweep)
    requires n <= |opps|
    ensures forall k :: !IsGhostKey(k) ==> Agree(SweepPrefix(opps, n, here, danger, dist, init).feats, init.feats, k)
  {
    if n > 0 {
      SweepKeepsOtherKeys(opps, n - 1, here, danger, dist, init);
    }
  }

  /** `max_scared_time` is the largest scared timer among the ghosts visited, 0 if there is none. */
  lemma {:induction false} SweepMax(opps: seq<AgentState>, n: nat, here: Pos, danger: Option<nat>,
                                    dist: (Pos, Pos) -> nat, init: Sweep)
    requires n <= |opps|
    requires init.maxScared == 0
    ensures forall j :: 0 <= j < n && !opps[j].isPacman ==>
              opps[j].scaredTimer <= SweepPrefix(opps, n, here, danger, dist, init).maxScared
    ensures var m := SweepPrefix(opps, n, here, danger, dist, init).maxScared;
            m == 0 || exists j :: 0 <= j < n && !opps[j].isPacman && opps[j].scaredTimer == m
  {
    if n > 0 {
      SweepMax(opps, n - 1, here, danger, dist, init);
    }
  }

  /** The danger buckets: once any dangerous ghost has been visited and a defender is in sight they
      hold the buckets for the nearest defender; otherwise none of them is set. */
  lemma {:induction false} SweepBuckets(opps: seq<AgentState>, n: nat, here: Pos, danger: Option<nat>,
                                        dist: (Pos, Pos) -> nat, init: Sweep)
    requires n <= |opps|
    requires BucketsAgree(init.feats, map[])
    ensures var f := SweepPrefix(opps, n, here, danger, dist, init).feats;
            if danger.Some? && exists j :: 0 <= j < n && Threat(opps[j])
            then BucketsAgree(f, DangerFeatures(map[], danger))
            else BucketsAgree(f, map[])
  {
    if n > 0 {
      SweepBuckets(opps, n - 1, here, danger, dist, init);
      assert forall j :: 0 <= j < n - 1 && Threat(opps[j]) ==> 0 <= j < n && Threat(opps[j]);
      if Threat(opps[n - 1]) {
        assert exists j :: 0 <= j < n && Threat(opps[j]);
      } else {
        assert (exists j :: 0 <= j < n && Threat(opps[j])) == (exists j :: 0 <= j < n - 1 && Threat(opps[j]));
      }
    }
  }

  /** `closest_scared_ghost_dist` is the distance to the nearest scared ghost in sight, and while no
      dangerous ghost has been visited `distance_to_scared_ghost` holds exactly that distance. */
  lemma {:induction false} SweepScaredDistance(opps: seq<AgentState>, n: nat, here: Pos, danger: Option<nat>,
                                               dist: (Pos, Pos) -> nat, init: Sweep)
    requires n <= |opps|
    requires init.closest == None && ScaredGhostDist !in init.feats
    ensures var s := SweepPrefix(opps, n, here, danger, dist, init);
            s.closest.Some? <==> exists j :: 0 <= j < n && ScaredInSight(opps[j])
    ensures var s := SweepPrefix(opps, n, here, danger, dist, init);
            s.closest.Some? ==>
              (forall j :: 0 <= j < n && ScaredInSight(opps[j]) ==> s.closest.value <= dist(here, opps[j].pos.value))
              && exists j :: 0 <= j < n && ScaredInSight(opps[j]) && s.closest.value == dist(here, opps[j].pos.value)
    ensures var s := SweepPrefix(opps, n, here, danger, dist, init);
            (forall j :: 0 <= j < n ==> !Threat(opps[j])) ==>
              (ScaredGhostDist in s.feats <==> s.closest.Some?)
              && (s.closest.Some? ==> s.feats[ScaredGhostDist] == s.closest.value)
  {
    if n > 0 {
      SweepScaredDistance(opps, n - 1, here, danger, dist, init);
      var prev := SweepPrefix(opps, n - 1, here, danger, dist, init);
      var g := opps[n - 1];
      if ScaredInSight(g) {
        assert exists j :: 0 <= j < n && ScaredInSight(opps[j]);
        var s := SweepPrefix(opps, n, here, danger, dist, init);
        if prev.closest.Some? {
          var j :| 0 <= j < n - 1 && ScaredInSight(opps[j]) && prev.closest.value == dist(here, opps[j].pos.value);
          if prev.closest.value <= dist(here, g.pos.value) {
            assert 0 <= j < n && ScaredInSight(opps[j]) && s.closest.value == dist(here, opps[j].pos.value);
          } else {
            assert ScaredInSight(opps[n - 1]) && s.closest.value == dist(here, opps[n - 1].pos.value);
          }
        } else {
          assert ScaredInSight(opps[n - 1]) && s.closest.value == dist(here, opps[n - 1].pos.value);
        }
      } else {
        assert (exists j :: 0 <= j < n && ScaredInSight(opps[j]))
            == (exists j :: 0 <= j < n - 1 && ScaredInSight(opps[j]));
      }
    }
  }

  /** When the last ghost visited is a dangerous one, `distance_to_scared_ghost` ends at 0 whatever
      scared ghost came before it: the result depends on the order of the opponents. */
  lemma {:induction false} SweepLastThreatZero(opps: seq<AgentState>, n: nat, j: nat, here: Pos, danger: Option<nat>,
                                               dist: (Pos, Pos) -> nat, init: Sweep)
    requires j < n <= |opps|
    requires Threat(opps[j])
    requires forall k :: j < k < n ==> opps[k].isPacman
    ensures var f := SweepPrefix(opps, n, here, danger, dist, init).feats;
            ScaredGhostDist in f && f[ScaredGhostDist] == 0
  {
    if n - 1 > j {
      SweepLastThreatZero(opps, n - 1, j, here, danger, dist, init);
    }
  }

  // ---------------------------------------------------------------------------------------------
  // What the returned counter holds
  // ---------------------------------------------------------------------------------------------

  /** `distance_enemy_most_food` is never among the features the agent returns. */
  lemma FeatureKeys(st: GameState, nx: GameState, action: Direction, start: Pos, dist: (Pos, Pos) -> nat)
    requires Located(nx)
    ensures EnemyMostFoodDist !in Features(st, nx, action, start, dist)
  {
    var base := BaseFeatures(st, nx, action, start, dist);
    var s := SweepPrefix(st.opponents, |st.opponents|, MyPos(nx), Danger(nx, dist), dist, Sweep(0, None, base));
    SweepKeepsOtherKeys(st.opponents, |st.opponents|, MyPos(nx), Danger(nx, dist), dist, Sweep(0, None, base));
    assert !IsGhostKey(EnemyMostFoodDist) && Agree(s.feats, base, EnemyMostFoodDist);
  }

  /** Outside the loop's keys and `scared_ghost_time`, the returned counter is the one built before the loop. */
  lemma AgreesWithBase(st: GameState, nx: GameState, action: Direction, start: Pos, dist: (Pos, Pos) -> nat, k: Feature)
    requires Located(nx)
    requires !IsGhostKey(k) && k != ScaredTime
    ensures Agree(Features(st, nx, action, start, dist), BaseFeatures(st, nx, action, start, dist), k)
  {
    var base := BaseFeatures(st, nx, action, start, dist);
    SweepKeepsOtherKeys(st.opponents, |st.opponents|, MyPos(nx), Danger(nx, dist), dist, Sweep(0, None, base));
  }

  /** Marking the move and adding the food features leave every other key alone. */
  lemma MarksAndFoodKeep(f: map<Feature, int>, st: GameState, nx: GameState, action: Direction,
                         dist: (Pos, Pos) -> nat, k: Feature)
    requires Located(nx)
    requires k != Stopped && k != Reversed && k != SuccessorScore && k != FoodDist
    ensures Agree(FoodBase(MoveMarks(f, st, action), nx, dist), f, k)
  {
  }

  /** The defence part of the counter built before the loop. */
  lemma BaseDefence(st: GameState, nx: GameState, action: Direction, start: Pos, dist: (Pos, Pos) -> nat)
    requires Located(nx)
    ensures var f := BaseFeatures(st, nx, action, start, dist);
            var invaders := VisibleDists(nx.opponents, true, MyPos(nx), dist);
      && OnDefense in f && f[OnDefense] == (if nx.me.isPacman then 0 else 1)
      && InvaderCount in f && f[InvaderCount] == |invaders|
      && (InvaderDist in f <==> |invaders| > 0)
      && (InvaderDist in f ==> f[InvaderDist] == MinOf(invaders))
      && (Flee in f <==> InvaderDist in f && f[InvaderDist] < 10)
      && (Flee in f ==> f[Flee] == 1)
      && StartDist in f && f[StartDist] == (if nx.me.isPacman then dist(MyPos(nx), start) else 0)
  {
    var d := DefenceBase(nx, start, dist);
    assert OnDefense in d && InvaderCount in d && StartDist in d;
    MarksAndFoodKeep(d, st, nx, action, dist, OnDefense);
    MarksAndFoodKeep(d, st, nx, action, dist, InvaderCount);
    MarksAndFoodKeep(d, st, nx, action, dist, InvaderDist);
    MarksAndFoodKeep(d, st, nx, action, dist, Flee);
    MarksAndFoodKeep(d, st, nx, action, dist, StartDist);
  }

  /** on_defense, num_invaders, invader_distance and distance_to_start. */
  lemma DefenceFeatures(st: GameState, nx: GameState, action: Direction, start: Pos, dist: (Pos, Pos) -> nat)
    requires Located(nx)
    ensures var f := Features(st, nx, action, start, dist);
      && OnDefense in f && (f[OnDefense] == 1 <==> !nx.me.isPacman) && (f[OnDefense] == 0 <==> nx.me.isPacman)
      && InvaderCount in f && f[InvaderCount] == |VisibleIndices(nx.opponents, true)|
      && (InvaderDist in f <==> VisibleIndices(nx.opponents, true) != {})
      && (StartDist in f && (f[StartDist] != 0 ==> nx.me.isPacman))
      && (nx.me.isPacman ==> f[StartDist] == dist(MyPos(nx), start))
  {
    AgreesWithBase(st, nx, action, start, dist, OnDefense);
    AgreesWithBase(st, nx, action, start, dist, InvaderCount);
    AgreesWithBase(st, nx, action, start, dist, InvaderDist);
    AgreesWithBase(st, nx, action, start, dist, StartDist);
    BaseDefence(st, nx, action, start, dist);
    VisibleCount(nx.opponents, true, MyPos(nx), dist);
  }

  /** The move marks and food features of the counter built before the loop. */
  lemma BaseMoveAndFood(st: GameState, nx: GameState, action: Direction, start: Pos, dist: (Pos, Pos) -> nat)
    requires Located(nx)
    ensures var f := BaseFeatures(st, nx, action, start, dist);
      && (Stopped in f <==> action == Stop) && (Stopped in f ==> f[Stopped] == 1)
      && (Reversed in f <==> action == Reverse(st.me.direction)) && (Reversed in f ==> f[Reversed] == 1)
      && SuccessorScore in f && f[SuccessorScore] == -|nx.food|
      && (FoodDist in f <==> |nx.food| > 0)
      && (FoodDist in f ==> f[FoodDist] == MinOf(FoodDists(nx.food, MyPos(nx), dist)))
  {
    var d := DefenceBase(nx, start, dist);
    assert Stopped !in d && Reversed !in d && SuccessorScore !in d && FoodDist !in d;
  }

  /** stop, reverse, successor_score and distance_to_food. */
  lemma MoveAndFoodFeatures(st: GameState, nx: GameState, action: Direction, start: Pos, dist: (Pos, Pos) -> nat)
    requires Located(nx)
    ensures var f := Features(st, nx, action, start, dist);
      && (Stopped in f <==> action == Stop) && (Stopped in f ==> f[Stopped] == 1)
      && (Reversed in f <==> action == Reverse(st.me.direction)) && (Reversed in f ==> f[Reversed] == 1)
      && SuccessorScore in f && f[SuccessorScore] == -|nx.food|
      && (FoodDist in f <==> |nx.food| > 0)
      && (FoodDist in f ==>
            (forall i :: 0 <= i < |nx.food| ==> f[FoodDist] <= dist(MyPos(nx), nx.food[i]))
            && exists i :: 0 <= i < |nx.food| && f[FoodDist] == dist(MyPos(nx), nx.food[i]))
  {
    AgreesWithBase(st, nx, action, start, dist, Stopped);
    AgreesWithBase(st, nx, action, start, dist, Reversed);
    AgreesWithBase(st, nx, action, start, dist, SuccessorScore);
    AgreesWithBase(st, nx, action, start, dist, FoodDist);
    BaseMoveAndFood(st, nx, action, start, dist);
    if |nx.food| > 0 {
      var ds := FoodDists(nx.food, MyPos(nx), dist);
      assert |ds| == |nx.food| && forall i :: 0 <= i < |nx.food| ==> ds[i] == dist(MyPos(nx), nx.food[i]);
      var m := MinOf(ds);
      assert m in ds;
      var i :| 0 <= i < |ds| && ds[i] == m;
      assert forall i :: 0 <= i < |nx.food| ==> ds[i] in ds;
    }
  }

  /** `invader_distance` is the distance to the nearest visible invader, and `flee` is set (to 1)
      exactly when that distance is below 10. */
  lemma InvaderDistance(st: GameState, nx: GameState, action: Direction, start: Pos, dist: (Pos, Pos) -> nat)
    requires Located(nx)
    ensures var f := Features(st, nx, action, start, dist); var opps := nx.opponents;
      && (InvaderDist in f ==>
            (forall j :: 0 <= j < |opps| && Visible(opps[j], true) ==>
               f[InvaderDist] <= dist(MyPos(nx), opps[j].pos.value))
            && exists j :: 0 <= j < |opps| && Visible(opps[j], true) && f[InvaderDist] == dist(MyPos(nx), opps[j].pos.value))
      && (Flee in f <==> InvaderDist in f && f[InvaderDist] < 10)
      && (Flee in f ==> f[Flee] == 1)
  {
    var here := MyPos(nx);
    AgreesWithBase(st, nx, action, start, dist, InvaderDist);
    AgreesWithBase(st, nx, action, start, dist, Flee);
    BaseDefence(st, nx, action, start, dist);
    VisibleDistsSpec(nx.opponents, true, here, dist);
    var inv := VisibleDists(nx.opponents, true, here, dist);
    if |inv| > 0 {
      var m := MinOf(inv);
      assert m in inv;
    }
  }

  /** No danger bucket is set before the loop. */
  lemma BaseHasNoBuckets(st: GameState, nx: GameState, action: Direction, start: Pos, dist: (Pos, Pos) -> nat)
    requires Located(nx)
    ensures BucketsAgree(BaseFeatures(st, nx, action, start, dist), map[])
  {
    var d := DefenceBase(nx, start, dist);
    assert BucketsAgree(d, map[]);
    MarksAndFoodKeep(d, st, nx, action, dist, GhostReallyClose);
    MarksAndFoodKeep(d, st, nx, action, dist, GetOutOfThere);
    MarksAndFoodKeep(d, st, nx, action, dist, GhostClose);
    MarksAndFoodKeep(d, st, nx, action, dist, GhostFar);
  }

  /** The danger buckets, with d the distance to the nearest visible defender of the successor:
      when some ghost of the current state is dangerous and a defender is in sight, exactly one of
      `ghost_really_close` (= 3 - d, d < 3), `ghost_close` (= d, 3 <= d < 8) and `ghost_far`
      (= d, d >= 8) is set, and `getoutofthere` (= 1) is set exactly when d < 8; otherwise none is. */
  lemma DangerBuckets(st: GameState, nx: GameState, action: Direction, start: Pos, dist: (Pos, Pos) -> nat)
    requires Located(nx)
    ensures var f := Features(st, nx, action, start, dist); var danger := Danger(nx, dist);
      if danger.Some? && exists j :: 0 <= j < |st.opponents| && Threat(st.opponents[j]) then
        var d := danger.value;
        && (GhostReallyClose in f <==> d < 3) && (GhostClose in f <==> 3 <= d < 8)
        && (GhostFar in f <==> d >= 8) && (GetOutOfThere in f <==> d < 8)
        && (d < 3 ==> f[GhostReallyClose] == 3 - d)
        && (3 <= d < 8 ==> f[GhostClose] == d)
        && (d >= 8 ==> f[GhostFar] == d)
        && (d < 8 ==> f[GetOutOfThere] == 1)
      else
        GhostReallyClose !in f && GhostClose !in f && GhostFar !in f && GetOutOfThere !in f
  {
    var base := BaseFeatures(st, nx, action, start, dist);
    BaseHasNoBuckets(st, nx, action, start, dist);
    SweepBuckets(st.opponents, |st.opponents|, MyPos(nx), Danger(nx, dist), dist, Sweep(0, None, base));
  }

  /** The distance the buckets are set for is that of the nearest defender in sight, None when no
      defender is in sight. */
  lemma NearestDefender(nx: GameState, dist: (Pos, Pos) -> nat)
    requires Located(nx)
    ensures var danger := Danger(nx, dist);
      && (danger.None? <==> forall j :: 0 <= j < |nx.opponents| ==> !Visible(nx.opponents[j], false))
      && (danger.Some? ==>
            (forall j :: 0 <= j < |nx.opponents| && Visible(nx.opponents[j], false) ==>
               danger.value <= dist(MyPos(nx), nx.opponents[j].pos.value))
            && exists j :: 0 <= j < |nx.opponents| && Visible(nx.opponents[j], false)
                           && danger.value == dist(MyPos(nx), nx.opponents[j].pos.value))
  {
    var here := MyPos(nx);
    VisibleDistsSpec(nx.opponents, false, here, dist);
    var defenders := VisibleDists(nx.opponents, false, here, dist);
    if |defenders| > 0 {
      assert MinOf(defenders) in defenders;
    }
  }

  /** `scared_ghost_time` is the largest scared timer among the current state's ghosts, 0 if none. */
  lemma ScaredGhostTime(st: GameState, nx: GameState, action: Direction, start: Pos, dist: (Pos, Pos) -> nat)
    requires Located(nx)
    ensures var f := Features(st, nx, action, start, dist); var opps := st.opponents;
      && ScaredTime in f
      && (forall j :: 0 <= j < |opps| && !opps[j].isPacman ==> opps[j].scaredTimer <= f[ScaredTime])
      && (f[ScaredTime] == 0 || exists j :: 0 <= j < |opps| && !opps[j].isPacman && opps[j].scaredTimer == f[ScaredTime])
      && ((forall j :: 0 <= j < |opps| ==> opps[j].isPacman) ==> f[ScaredTime] == 0)
  {
    var base := BaseFeatures(st, nx, action, start, dist);
    SweepMax(st.opponents, |st.opponents|, MyPos(nx), Danger(nx, dist), dist, Sweep(0, None, base));
  }

  /** With no dangerous ghost about, `distance_to_scared_ghost` is set exactly when a scared ghost is
      in sight, and holds the distance to the nearest one. */
  lemma ScaredGhostDistance(st: GameState, nx: GameState, action: Direction, start: Pos, dist: (Pos, Pos) -> nat)
    requires Located(nx)
    requires forall j :: 0 <= j < |st.opponents| ==> !Threat(st.opponents[j])
    ensures var f := Features(st, nx, action, start, dist); var opps := st.opponents;
      && (ScaredGhostDist in f <==> exists j :: 0 <= j < |opps| && ScaredInSight(opps[j]))
      && (ScaredGhostDist in f ==>
            (forall j :: 0 <= j < |opps| && ScaredInSight(opps[j]) ==>
               f[ScaredGhostDist] <= dist(MyPos(nx), opps[j].pos.value))
            && exists j :: 0 <= j < |opps| && ScaredInSight(opps[j])
                           && f[ScaredGhostDist] == dist(MyPos(nx), opps[j].pos.value))
  {
    var base := BaseFeatures(st, nx, action, start, dist);
    SweepScaredDistance(st.opponents, |st.opponents|, MyPos(nx), Danger(nx, dist), dist, Sweep(0, None, base));
  }

  /** When the engine lists a dangerous ghost after every other ghost, `distance_to_scared_ghost` is 0. */
  lemma LastGhostDangerous(st: GameState, nx: GameState, action: Direction, start: Pos, dist: (Pos, Pos) -> nat, j: nat)
    requires Located(nx)
    requires j < |st.opponents| && Threat(st.opponents[j])
    requires forall k :: j < k < |st.opponents| ==> st.opponents[k].isPacman
    ensures var f := Features(st, nx, action, start, dist);
      ScaredGhostDist in f && f[ScaredGhostDist] == 0
  {
    var base := BaseFeatures(st, nx, action, start, dist);
    SweepLastThreatZero(st.opponents, |st.opponents|, j, MyPos(nx), Danger(nx, dist), dist, Sweep(0, None, base));
  }

  /** Listing a scared ghost in sight at distance 4 and a dangerous ghost in the other order changes
      `distance_to_scared_ghost` from 0 to 4. */
  lemma OpponentOrderMatters(here: Pos, p: Pos, q: Pos)
    ensures var scared := AgentState(false, 10, Some(p), North);
            var hunter := AgentState(false, 0, Some(q), North);
            var four := (a: Pos, b: Pos) => 4;
            var init := Sweep(0, None, map[]);
            SweepPrefix([scared, hunter], 2, here, None, four, init).feats[ScaredGhostDist] == 0
            && SweepPrefix([hunter, scared], 2, here, None, four, init).feats[ScaredGhostDist] == 4
  {
    var scared := AgentState(false, 10, Some(p), North);
    var hunter := AgentState(false, 0, Some(q), North);
    var four := (a: Pos, b: Pos) => 4;
    var init := Sweep(0, None, map[]);
    var opps := [hunter, scared];
    assert SweepPrefix(opps, 0, here, None, four, init) == init;
    assert SweepPrefix(opps, 1, here, None, four, init) == SweepStep(init, hunter, here, None, four);
    assert SweepPrefix(opps, 1, here, None, four, init) == Sweep(0, None, map[ScaredGhostDist := 0]);
    assert SweepPrefix([hunter, scared], 2, here, None, four, init)
        == Sweep(10, Some(4), map[ScaredGhostDist := 4]);
  }

  // ---------------------------------------------------------------------------------------------
  // How the counter scores
  // ---------------------------------------------------------------------------------------------

  /** The weight `distance_enemy_most_food` never contributes to an action's score. */
  lemma DeadWeightIgnored(st: GameState, nx: GameState, action: Direction, start: Pos, dist: (Pos, Pos) -> nat,
                          defensive: bool, pacman: bool, scared: nat)
    requires Located(nx)
    ensures var f := Features(st, nx, action, start, dist); var w := Weights(defensive, pacman, scared);
      Dot(f, w) == Dot(f, w - {EnemyMostFoodDist})
  {
    FeatureKeys(st, nx, action, start, dist);
    DotIgnoresUnsetKey(Features(st, nx, action, start, dist), Weights(defensive, pacman, scared), EnemyMostFoodDist);
  }

  /** Under every table the STOP action pays 200 for its `stop` feature, and no other action sets it. */
  lemma StopPenalty(st: GameState, nx: GameState, action: Direction, start: Pos, dist: (Pos, Pos) -> nat,
                    defensive: bool, pacman: bool, scared: nat)
    requires Located(nx)
    ensures var f := Features(st, nx, action, start, dist); var w := Weights(defensive, pacman, scared);
      if action == Stop then Dot(f, w) == Dot(f - {Stopped}, w) - 200 else Stopped !in f
  {
    MoveAndFoodFeatures(st, nx, action, start, dist);
    if action == Stop {
      StopCosts200(Features(st, nx, action, start, dist), defensive, pacman, scared);
    }
  }
}
