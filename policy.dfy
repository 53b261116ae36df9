/** The role policy of the hybrid agents: which half of the board is home, how many pellets the
    agent is carrying, and whether it plays defence or offence this tick. */
module Policy {
  import opened Game

  /** The two numbers that tell the two hybrid agents apart. */
  datatype Tuning = Tuning(threshold: int, maxFood: int)

  /** HybridReflexAgent1: defend from a score of 18, or when carrying more than 2 pellets. */
  const FirstAgent: Tuning := Tuning(18, 2)

  /** HybridReflexAgent2: defend from a score of 10, or when carrying more than 3 pellets. */
  const SecondAgent: Tuning := Tuning(10, 3)

  /** `pacman_on_own_side`: red owns the columns left of `width // 2`, blue the columns right of it.
      For a positive divisor Dafny's `/` floors like Python's `//`. */
  function OnOwnSide(red: bool, width: int, x: int): (own: bool)
    ensures own ==> x != width / 2
  {
    var mid := width / 2;
    if red then x < mid else x > mid
  }

  /** The midline column is home to neither colour. */
  lemma MidlineIsNoMansLand(width: int, x: int)
    requires x == width / 2
    ensures !OnOwnSide(true, width, x) && !OnOwnSide(false, width, x)
  {
  }

  /** Every other column is home to exactly one colour. */
  lemma SidesSplitTheBoard(width: int, x: int)
    requires x != width / 2
    ensures OnOwnSide(true, width, x) != OnOwnSide(false, width, x)
    ensures OnOwnSide(true, width, x) <==> x < width / 2
  {
  }

  /** The carried-food counter of `get_features`: `food` after one call, given the previous
      `last_food_count` (None before the first call), the current number of pellets left to
      attack, and whether the agent stands on its own side. */
  function CarriedAfter(food: int, last: Option<nat>, remaining: nat, ownSide: bool): (r: int)
    ensures ownSide ==> r == 0
    ensures food >= 0 ==> r >= food || ownSide
    ensures food >= 0 ==> r >= 0
  {
    var before := if last.None? then remaining else last.value;
    var eaten := before - remaining;
    var grown := if eaten > 0 then food + eaten else food;
    if ownSide then 0 else grown
  }

  /** Off its own side the counter grows by exactly the drop in remaining pellets, when there is one. */
  lemma CarriedGrowsByDrop(food: int, last: nat, remaining: nat)
    ensures last > remaining ==> CarriedAfter(food, Some(last), remaining, false) == food + (last - remaining)
    ensures last <= remaining ==> CarriedAfter(food, Some(last), remaining, false) == food
  {
  }

  /** The first call only records the pellet count. */
  lemma FirstCallCountsNothing(food: int, remaining: nat)
    ensures CarriedAfter(food, None, remaining, false) == food
  {
  }

  /** Calling the counter again in the same tick (once per candidate action) adds nothing. */
  lemma CarriedIdempotent(food: int, last: Option<nat>, remaining: nat, ownSide: bool)
    ensures CarriedAfter(CarriedAfter(food, last, remaining, ownSide), Some(remaining), remaining, ownSide)
         == CarriedAfter(food, last, remaining, ownSide)
  {
  }

  /** `food` after a run of ticks spent off the agent's own side, starting from pellet count `last`
      and seeing the remaining counts `counts` one tick after another. */
  function CarriedAcross(food: int, last: nat, counts: seq<nat>): int
    decreases |counts|
  {
    if counts == [] then food
    else CarriedAcross(CarriedAfter(food, Some(last), counts[0], false), counts[0], counts[1..])
  }

  /** While the pellet count only falls, the counter holds exactly the total drop since `last`. */
  lemma {:induction false} CarriedAcrossIsTotalDrop(food: int, last: nat, counts: seq<nat>)
    requires |counts| > 0
    requires counts[0] <= last
    requires forall i :: 0 < i < |counts| ==> counts[i] <= counts[i - 1]
    ensures CarriedAcross(food, last, counts) == food + (last - counts[|counts| - 1])
    decreases |counts|
  {
    var next := CarriedAfter(food, Some(last), counts[0], false);
    assert next == food + (last - counts[0]);
    if |counts| > 1 {
      CarriedAcrossIsTotalDrop(next, counts[0], counts[1..]);
    }
  }

  /** The role rule of `get_features`, first match wins: defend when ahead on score or carrying too
      much and not scared; else defend when at home with an invader in sight; else attack. */
  function Role(t: Tuning, score: int, carried: int, scared: nat, ownSide: bool, invaders: nat): (defensive: bool)
    ensures scared == 0 && (score >= t.threshold || carried > t.maxFood) ==> defensive
    ensures ownSide && invaders > 0 ==> defensive
    ensures scared > 0 ==> (defensive <==> ownSide && invaders > 0)
    ensures !ownSide || invaders == 0 ==> (defensive <==> scared == 0 && (score >= t.threshold || carried > t.maxFood))
  {
    if (score >= t.threshold || carried > t.maxFood) && scared == 0 then true
    else if ownSide && invaders > 0 then true
    else false
  }
}
