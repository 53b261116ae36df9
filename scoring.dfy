/** Linear scoring: the feature names, the dot product of a feature counter with a weight table,
    and the five weight tables `get_weights` chooses between. */
module Scoring {

  /** The keys of the feature counters and weight tables of the hybrid agents: the feature
      strings, one constructor each (on_defense, num_invaders, invader_distance, flee,
      distance_to_start, stop, reverse, successor_score, distance_to_food, distance_to_scared_ghost,
      ghost_really_close, getoutofthere, ghost_close, ghost_far, scared_ghost_time,
      distance_enemy_most_food). */
  datatype Feature =
    | OnDefense | InvaderCount | InvaderDist | Flee | StartDist | Stopped | Reversed
    | SuccessorScore | FoodDist | ScaredGhostDist | GhostReallyClose | GetOutOfThere
    | GhostClose | GhostFar | ScaredTime | EnemyMostFoodDist

  /** A counter's lookup: missing keys read as 0. */
  function Get(f: map<Feature, int>, k: Feature): (v: int) {
    if k in f then f[k] else 0
  }

  /** The contribution of key `k`: its feature times its weight when both hold it, else nothing. */
  function Term(k: Feature, f: map<Feature, int>, w: map<Feature, int>): (t: int) {
    if k in f && k in w then f[k] * w[k] else 0
  }

  /** The number of features. */
  const FeatureCount: nat := 16

  /** The position of each feature in the order my_team.py first names them. */
  function Index(k: Feature): (i: nat)
    ensures i < FeatureCount
  {
    match k
    case OnDefense => 0
    case InvaderCount => 1
    case InvaderDist => 2
    case Flee => 3
    case StartDist => 4
    case Stopped => 5
    case Reversed => 6
    case SuccessorScore => 7
    case FoodDist => 8
    case ScaredGhostDist => 9
    case GhostReallyClose => 10
    case GetOutOfThere => 11
    case GhostClose => 12
    case GhostFar => 13
    case ScaredTime => 14
    case EnemyMostFoodDist => 15
  }

  /** The feature at position `i`. */
  function FeatureAt(i: nat): (k: Feature)
    requires i < FeatureCount
    ensures Index(k) == i
  {
    if i == 0 then OnDefense else
    if i == 1 then InvaderCount else
    if i == 2 then InvaderDist else
    if i == 3 then Flee else
    if i == 4 then StartDist else
    if i == 5 then Stopped else
    if i == 6 then Reversed else
    if i == 7 then SuccessorScore else
    if i == 8 then FoodDist else
    if i == 9 then ScaredGhostDist else
    if i == 10 then GhostReallyClose else
    if i == 11 then GetOutOfThere else
    if i == 12 then GhostClose else
    if i == 13 then GhostFar else
    if i == 14 then ScaredTime else
    EnemyMostFoodDist
  }

  /** Every feature sits at its own position. */
  lemma FeatureAtIndex(k: Feature)
    ensures FeatureAt(Index(k)) == k
  {
  }

  /** The sum of the terms of the features from position `i` on. */
  function SumFrom(i: nat, f: map<Feature, int>, w: map<Feature, int>): (s: int)
    requires i <= FeatureCount
    decreases FeatureCount - i
  {
    if i == FeatureCount then 0 else Term(FeatureAt(i), f, w) + SumFrom(i + 1, f, w)
  }

  /** `features * weights` of a counter: the sum, over the keys both hold, of feature times weight,
      taken once over every feature. */
  function Dot(f: map<Feature, int>, w: map<Feature, int>): (s: int) {
    SumFrom(0, f, w)
  }

  /** Sums whose terms agree key by key are equal. */
  lemma {:induction false} SumFromPointwise(i: nat, f: map<Feature, int>, w: map<Feature, int>,
                                            g: map<Feature, int>, v: map<Feature, int>)
    requires i <= FeatureCount
    requires forall k :: Term(k, f, w) == Term(k, g, v)
    ensures SumFrom(i, f, w) == SumFrom(i, g, v)
    decreases FeatureCount - i
  {
    if i < FeatureCount {
      SumFromPointwise(i + 1, f, w, g, v);
    }
  }

  /** A sum of zero terms is zero. */
  lemma {:induction false} SumFromZero(i: nat, f: map<Feature, int>, w: map<Feature, int>)
    requires i <= FeatureCount
    requires forall k :: Term(k, f, w) == 0
    ensures SumFrom(i, f, w) == 0
    decreases FeatureCount - i
  {
    if i < FeatureCount {
      SumFromZero(i + 1, f, w);
    }
  }

  /** From position `i` on, the sum is the sum without key `k` plus `k`'s term when `k` lies ahead. */
  lemma {:induction false} SumFromSplit(i: nat, f: map<Feature, int>, w: map<Feature, int>, k: Feature)
    requires i <= FeatureCount
    ensures SumFrom(i, f, w) == SumFrom(i, f - {k}, w) + (if i <= Index(k) then Term(k, f, w) else 0)
    decreases FeatureCount - i
  {
    if i < FeatureCount {
      SumFromSplit(i + 1, f, w, k);
      FeatureAtIndex(k);
      var n := FeatureAt(i);
      if n == k {
        assert Term(n, f - {k}, w) == 0;
      } else {
        assert i != Index(k);
        assert Term(n, f - {k}, w) == Term(n, f, w);
      }
    }
  }

  /** Each key contributes its product exactly once to the dot product. */
  lemma DotSplit(f: map<Feature, int>, w: map<Feature, int>, k: Feature)
    ensures Dot(f, w) == Dot(f - {k}, w) + Term(k, f, w)
  {
    SumFromSplit(0, f, w, k);
  }

  /** A weight whose key the features never set contributes nothing. */
  lemma DotIgnoresUnsetKey(f: map<Feature, int>, w: map<Feature, int>, k: Feature)
    requires k !in f
    ensures Dot(f, w) == Dot(f, w - {k})
  {
    SumFromPointwise(0, f, w, f, w - {k});
  }

  /** A counter and a table with no key in common score 0. */
  lemma DotOfDisjoint(f: map<Feature, int>, w: map<Feature, int>)
    requires f.Keys !! w.Keys
    ensures Dot(f, w) == 0
  {
    SumFromZero(0, f, w);
  }

  /** Defensive while a pacman on the other half: drift home, keep clear of ghosts, chase invaders. */
  const DefensiveCarrierWeights: map<Feature, int> := map[
    OnDefense := 100, InvaderDist := -500, Stopped := -200, Reversed := -1,
    StartDist := -30, GhostReallyClose := -500, GhostClose := 100,
    GetOutOfThere := -100, EnemyMostFoodDist := -100]

  /** Defensive at home while scared: only run from invaders. */
  const FleeWeights: map<Feature, int> := map[Flee := -500, Stopped := -200, Reversed := -1]

  /** Defensive at home and not scared: hunt invaders. */
  const GuardWeights: map<Feature, int> := map[
    InvaderCount := -5000, OnDefense := 100, InvaderDist := -500, Stopped := -200,
    Reversed := -1, EnemyMostFoodDist := -50]

  /** Offensive while still a ghost at home. */
  const OffensiveGhostWeights: map<Feature, int> := map[
    SuccessorScore := 100, FoodDist := -2, GhostReallyClose := -200,
    GhostClose := 50, Stopped := -200, GhostFar := 20, GetOutOfThere := -100,
    ScaredGhostDist := -500]

  /** Offensive while a pacman on the other half. */
  const OffensiveCarrierWeights: map<Feature, int> := map[
    SuccessorScore := 100, FoodDist := -2, GhostReallyClose := -2000,
    GhostClose := 200, Stopped := -200, GhostFar := 500, GetOutOfThere := -100,
    ScaredGhostDist := -500]

  /** `get_weights`: a total case split on the role flag, whether the agent is a pacman in the
      current state, and whether its own scared timer runs. */
  function Weights(defensive: bool, pacman: bool, scared: nat): (w: map<Feature, int>)
    ensures w == DefensiveCarrierWeights || w == FleeWeights || w == GuardWeights
         || w == OffensiveGhostWeights || w == OffensiveCarrierWeights
    ensures Stopped in w && w[Stopped] == -200
    ensures EnemyMostFoodDist in w ==> defensive
    ensures defensive && !pacman && scared > 0 ==> w.Keys == {Flee, Stopped, Reversed}
    ensures !defensive ==> SuccessorScore in w && w[SuccessorScore] == 100
    ensures defensive ==> (w == DefensiveCarrierWeights <==> pacman)
    ensures defensive && !pacman ==> (w == FleeWeights <==> scared > 0)
    ensures defensive && !pacman ==> (w == GuardWeights <==> scared == 0)
    ensures !defensive ==> (w == OffensiveCarrierWeights <==> pacman)
  {
    if defensive && pacman then DefensiveCarrierWeights
    else if defensive && !pacman then
      assert Flee !in DefensiveCarrierWeights && Flee !in GuardWeights && InvaderCount !in DefensiveCarrierWeights;
      if scared > 0 then FleeWeights else GuardWeights
    else if !defensive && !pacman then
      assert OffensiveGhostWeights[GhostFar] != OffensiveCarrierWeights[GhostFar];
      OffensiveGhostWeights
    else OffensiveCarrierWeights
  }

  /** Only whether the scared timer runs matters, not how long it still runs. */
  lemma WeightsSeeOnlyScaredFlag(defensive: bool, pacman: bool, s1: nat, s2: nat)
    requires (s1 > 0) == (s2 > 0)
    ensures Weights(defensive, pacman, s1) == Weights(defensive, pacman, s2)
  {
  }

  /** The five tables are pairwise different, so each branch of the case split yields its own table. */
  lemma TablesDiffer()
    ensures DefensiveCarrierWeights != FleeWeights && DefensiveCarrierWeights != GuardWeights
    ensures DefensiveCarrierWeights != OffensiveGhostWeights && DefensiveCarrierWeights != OffensiveCarrierWeights
    ensures FleeWeights != GuardWeights && FleeWeights != OffensiveGhostWeights && FleeWeights != OffensiveCarrierWeights
    ensures GuardWeights != OffensiveGhostWeights && GuardWeights != OffensiveCarrierWeights
    ensures OffensiveGhostWeights != OffensiveCarrierWeights
  {
    assert Flee in FleeWeights && Flee !in DefensiveCarrierWeights;
    assert InvaderCount in GuardWeights && InvaderCount !in DefensiveCarrierWeights;
    assert SuccessorScore in OffensiveGhostWeights && SuccessorScore !in DefensiveCarrierWeights;
    assert SuccessorScore in OffensiveCarrierWeights;
    assert InvaderCount !in FleeWeights;
    assert SuccessorScore !in FleeWeights && SuccessorScore !in GuardWeights;
    assert OffensiveGhostWeights[GhostFar] != OffensiveCarrierWeights[GhostFar];
  }

  /** Under every table a set `stop` feature costs exactly 200 points. */
  lemma StopCosts200(f: map<Feature, int>, defensive: bool, pacman: bool, scared: nat)
    requires Stopped in f && f[Stopped] == 1
    ensures Dot(f, Weights(defensive, pacman, scared)) == Dot(f - {Stopped}, Weights(defensive, pacman, scared)) - 200
  {
    DotSplit(f, Weights(defensive, pacman, scared), Stopped);
  }

  /** Removing key `k` from the features takes away exactly `k`'s weighted value. */
  lemma DotDrop(f: map<Feature, int>, w: map<Feature, int>, k: Feature)
    requires k in w
    ensures Dot(f, w) == Dot(f - {k}, w) + Get(f, k) * w[k]
  {
    DotSplit(f, w, k);
    if k in f {
      assert Term(k, f, w) == f[k] * w[k];
    }
  }

  /** The flee table scores `-500 * flee - 200 * stop - reverse` and nothing else. */
  lemma FleeTableScore(f: map<Feature, int>)
    ensures Dot(f, FleeWeights) == -500 * Get(f, Flee) - 200 * Get(f, Stopped) - Get(f, Reversed)
  {
    var w := FleeWeights;
    var f1 := f - {Flee};
    var f2 := f1 - {Stopped};
    var f3 := f2 - {Reversed};
    DotDrop(f, w, Flee);
    DotDrop(f1, w, Stopped);
    DotDrop(f2, w, Reversed);
    DotOfDisjoint(f3, w);
  }

  /** A scared defender at home only weighs fleeing, stopping and reversing. */
  lemma FleeScore(f: map<Feature, int>, scared: nat)
    requires scared > 0
    ensures Dot(f, Weights(true, false, scared)) == -500 * Get(f, Flee) - 200 * Get(f, Stopped) - Get(f, Reversed)
  {
    FleeTableScore(f);
  }
}
