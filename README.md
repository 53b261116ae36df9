# Hybrid reflex capture agents — a verified model

This project models the per-tick decision logic of the two capture-the-flag agents of `my_team.py`,
`HybridReflexAgent1` and `HybridReflexAgent2`, together with the `choose_action` and `evaluate` they
inherit from `ReflexCaptureAgent`. Each tick an agent:

- enumerates its legal actions;
- runs `get_features` once per action;
  - this updates its carried-food counter (`food`, `last_food_count`) and its role flag
    (`is_defensive`);
  - and it fills a feature counter;
- scores each action as the dot product of that counter with one of five weight tables, chosen by
  `get_weights` from the role flag;
- returns one of the best-scoring actions, or, with at most two pellets left, the first action whose
  successor is nearest its start cell.

The two agents differ only in the two constants `threshold` and `maxfood`. The model is one class,
`Agent.HybridAgent`, whose `tuning` holds them: `Policy.FirstAgent` is (18, 2) and
`Policy.SecondAgent` is (10, 3).

Modules:

- `Game` (`game.dfy`): positions, directions and the reversal table, agent states, one tick's
  snapshot, and the list built-ins `min` and `max`.
- `Policy` (`policy.dfy`):
  - the own-side test;
  - the carried-food counter as a function of its inputs;
  - the role rule.
- `Scoring` (`scoring.dfy`):
  - the feature keys;
  - the dot product of a feature counter with a weight table;
  - the five weight tables and `get_weights`.
- `Extraction` (`extraction.dfy`):
  - the counter `get_features` returns, as a function of the current state, the successor state, the
    action, the start cell and the maze distance;
  - its opponent loop, as a recursion over the opponents visited so far;
  - what every feature holds.
- `Agent` (`agent.dfy`): the agent as a class.
  - Its fields are the per-agent memory the Python agents keep.
  - `GetFeatures` updates them in place and runs the opponent loop as a `while` loop.
  - `ChooseAction` evaluates every action in order, then decides.

The engine appears as parameters:

- the successor of each action: `next: Direction -> GameState`;
- the maze distance: `dist: (Pos, Pos) -> nat`;
- the legal actions: the `actions` parameter of `ChooseAction`;
- the layout width, the score, the agent's own record, the opponent records and the food list: fields of `GameState`.

## Model

| member | source | states |
|---|---|---|
| Game.Reverse | my_team.py:218 | the direction an action must equal to count as a reversal; only Stop is its own reverse |
| Game.ReverseInvolution | my_team.py:218 | reversing a direction twice gives it back |
| Game.MinOf | my_team.py:206 | `min` of a non-empty list is an element of it and no larger than any element |
| Game.MaxOf | my_team.py:82 | `max` of a non-empty list is an element of it and no smaller than any element |
| Policy.FirstAgent | my_team.py:140-142 | `HybridReflexAgent1` defends from a score of 18 or when carrying more than 2 pellets |
| Policy.SecondAgent | my_team.py:338-340 | `HybridReflexAgent2` defends from a score of 10 or when carrying more than 3 pellets |
| Policy.OnOwnSide | my_team.py:147-153 | red is home left of `width // 2` and blue right of it; the midline column is never home |
| Policy.MidlineIsNoMansLand | my_team.py:147-153 | the column `width // 2` is home to neither colour |
| Policy.SidesSplitTheBoard | my_team.py:147-153 | every other column is home to exactly one colour, and to red exactly when left of the midline |
| Policy.CarriedAfter | my_team.py:166-194 | the counter is 0 on the agent's own side; it never shrinks off it; it stays non-negative |
| Policy.CarriedGrowsByDrop | my_team.py:171-174 | off its own side the counter grows by exactly the drop in remaining pellets when that is positive, and otherwise stays put |
| Policy.FirstCallCountsNothing | my_team.py:168-174 | the first call, with no previous count, records the count and adds nothing |
| Policy.CarriedIdempotent | my_team.py:176-177 | a second call in the same tick, after the count was recorded, leaves the counter as it is |
| Policy.CarriedAcrossIsTotalDrop | my_team.py:168-177 | over a run of ticks off its own side with the count falling, the counter holds the total drop |
| Policy.Role | my_team.py:267-272 | defensive when not scared and ahead on score or carrying too much; defensive when at home with an invader in sight; a running scared timer disables the first rule; otherwise offensive |
| Scoring.Dot | my_team.py:119 | `features * weights`: the sum over the keys both sides hold of feature times weight; its meaning is given by `DotSplit`, `DotIgnoresUnsetKey`, `DotOfDisjoint` and `DotDrop` |
| Scoring.SumFromSplit | my_team.py:119 | each feature's product is counted once in the sum over the features from any position on |
| Scoring.SumFromPointwise | my_team.py:119 | sums whose products agree key by key are equal |
| Scoring.SumFromZero | my_team.py:119 | a sum whose products are all zero is zero |
| Scoring.DotSplit | my_team.py:119 | the dot product is the product of any one key plus the dot product without that key |
| Scoring.DotIgnoresUnsetKey | my_team.py:119 | a weight whose key the counter lacks contributes nothing |
| Scoring.DotOfDisjoint | my_team.py:119 | a counter and a table with no key in common score 0 |
| Scoring.DotDrop | my_team.py:119 | removing a weighted key from the counter takes away exactly its feature times its weight |
| Scoring.Weights | my_team.py:277-332 | the result is one of the five tables; the defensive carrier table exactly for a defensive pacman, the flee table exactly for a scared defensive ghost, the guard table exactly for an unscared defensive ghost, the offensive carrier table exactly for an offensive pacman; every table weighs `stop` at -200; `distance_enemy_most_food` is weighted only in defensive tables; a scared defender at home gets exactly the flee table's keys; an attacker weighs `successor_score` at 100 |
| Scoring.WeightsSeeOnlyScaredFlag | my_team.py:294 | the choice of table depends on the scared timer only through whether it runs |
| Scoring.TablesDiffer | my_team.py:277-332 | the five tables are pairwise different |
| Scoring.StopCosts200 | my_team.py:285 | under every table a `stop` feature of 1 lowers the score by exactly 200 |
| Scoring.FleeTableScore | my_team.py:295-297 | the flee table scores `-500 * flee - 200 * stop - reverse` and nothing else |
| Scoring.FleeScore | my_team.py:293-298 | a scared defender at home scores only fleeing, stopping and reversing |
| Extraction.VisibleDists | my_team.py:201-205 | the distance list has at most one entry per opponent |
| Extraction.VisibleCount | my_team.py:202-203 | the list has exactly one entry per opponent of the kind whose position is known |
| Extraction.VisibleDistsSpec | my_team.py:205 | the list holds the distance to every visible opponent of the kind and nothing else |
| Extraction.Danger | my_team.py:248-252 | `mindist`: the nearest visible defender's distance in the successor, None with none in sight; `NearestDefender` states it |
| Extraction.DefenceBase | my_team.py:197-215 | the defence features, whose values `BaseDefence` and `DefenceFeatures` state |
| Extraction.MoveMarks | my_team.py:217-219 | the `stop` and `reverse` marks, whose values `BaseMoveAndFood` and `MoveAndFoodFeatures` state |
| Extraction.FoodBase | my_team.py:224-229 | `successor_score` and `distance_to_food`, whose values `MoveAndFoodFeatures` states |
| Extraction.DangerFeatures | my_team.py:253-260 | the danger buckets for one distance, stated by `DangerBuckets` |
| Extraction.SweepStep | my_team.py:235-260 | one pass of the opponent loop; the `Sweep*` lemmas state what the passes compute |
| Extraction.SweepPrefix | my_team.py:235-260 | the opponent loop's state after the first n opponents; the `Sweep*` lemmas state it |
| Extraction.Features | my_team.py:156-275 | the counter `get_features` returns; `DefenceFeatures`, `InvaderDistance`, `MoveAndFoodFeatures`, `DangerBuckets`, `ScaredGhostTime`, `ScaredGhostDistance` and `FeatureKeys` state its entries |
| Extraction.SweepKeepsOtherKeys | my_team.py:235-260 | the opponent loop writes no key outside its five ghost keys |
| Extraction.SweepMax | my_team.py:238-239 | `max_scared_time` is at least every visited ghost's timer and is 0 or some ghost's timer |
| Extraction.SweepBuckets | my_team.py:246-260 | after a dangerous ghost is visited with a defender in sight, the buckets are those for the nearest defender; otherwise none is set |
| Extraction.SweepScaredDistance | my_team.py:240-245 | `closest_scared_ghost_dist` is set exactly when a scared ghost is in sight and is the nearest one's distance; with no dangerous ghost visited the feature holds it |
| Extraction.SweepLastThreatZero | my_team.py:246-247 | a dangerous ghost visited after every other ghost leaves `distance_to_scared_ghost` at 0 |
| Extraction.FeatureKeys | my_team.py:197-262 | `distance_enemy_most_food` is never a feature |
| Extraction.AgreesWithBase | my_team.py:232-262 | outside the loop's keys and `scared_ghost_time`, the returned counter equals the counter built before the loop |
| Extraction.MarksAndFoodKeep | my_team.py:217-229 | the move marks and food features leave every other key alone |
| Extraction.BaseDefence | my_team.py:197-215 | before the loop, the defence keys hold the defence rules' values |
| Extraction.DefenceFeatures | my_team.py:197-215 | `on_defense` is 1 exactly when the successor agent is a ghost and 0 exactly when it is a pacman; `num_invaders` counts the visible pacman opponents; `invader_distance` is set exactly when one is visible; `distance_to_start` is nonzero only for a pacman and then is its distance to the start |
| Extraction.BaseMoveAndFood | my_team.py:217-229 | before the loop, the move and food keys hold the move and food rules' values |
| Extraction.MoveAndFoodFeatures | my_team.py:217-229 | `stop` is set (to 1) exactly for STOP; `reverse` exactly for the reverse of the current direction; `successor_score` is minus the pellets left; `distance_to_food` is set exactly when pellets remain and is the distance to the nearest one |
| Extraction.InvaderDistance | my_team.py:204-208 | `invader_distance` is the distance to the nearest visible invader; `flee` is 1 exactly when that is below 10 |
| Extraction.BaseHasNoBuckets | my_team.py:197-229 | no danger bucket is set before the opponent loop |
| Extraction.DangerBuckets | my_team.py:248-260 | with a dangerous ghost and a defender in sight at nearest distance d, exactly one of `ghost_really_close` (3 - d, d < 3), `ghost_close` (d, 3 <= d < 8), `ghost_far` (d, d >= 8) is set, and `getoutofthere` (1) exactly when d < 8; otherwise none of them |
| Extraction.NearestDefender | my_team.py:248-252 | the bucket distance is absent exactly when no defender is in sight, and otherwise is the nearest defender's distance |
| Extraction.ScaredGhostTime | my_team.py:233-262 | `scared_ghost_time` is the largest timer over the ghost opponents, 0 when there are none |
| Extraction.ScaredGhostDistance | my_team.py:240-247 | with no dangerous ghost, `distance_to_scared_ghost` is set exactly when a scared ghost is in sight and is the nearest one's distance |
| Extraction.LastGhostDangerous | my_team.py:246-247 | a dangerous ghost listed after all other ghosts sets `distance_to_scared_ghost` to 0 |
| Extraction.OpponentOrderMatters | my_team.py:235-247 | swapping a scared ghost and a dangerous ghost changes `distance_to_scared_ghost` from 0 to 4 |
| Extraction.DeadWeightIgnored | my_team.py:291 | the `distance_enemy_most_food` weight never changes a score |
| Extraction.StopPenalty | my_team.py:217 | under every table STOP pays exactly 200 for its `stop` feature, and no other action sets it |
| Agent.BestActions | my_team.py:83 | an action is among the best exactly when some position holds it with the top value |
| Agent.Rated | my_team.py:79 | the list built from the first n actions has n entries |
| Agent.RatedAt | my_team.py:79 | entry j of the list is the rating of action j |
| Agent.MaxIsBest | my_team.py:82-83 | an entry equal to `max(values)` is no smaller than any entry |
| Agent.SweepOpponents | my_team.py:232-262 | the opponent loop ends in the state the loop's recursive definition gives for all opponents |
| Agent.HybridAgent.OwnSide | my_team.py:147-153 | the own-side test asked of the current state, as `OnOwnSide` states |
| Agent.HybridAgent.RoleFor | my_team.py:267-272 | the role flag the feature pass leaves for one successor, as `Role` states |
| Agent.HybridAgent.ActionValue | my_team.py:113-119 | `evaluate`: the successor's features against the weights of the role that pass set |
| Agent.HybridAgent.constructor | my_team.py:137-144 | a fresh agent carries nothing, has no previous count and starts defensive |
| Agent.HybridAgent.CountCarried | my_team.py:166-194 | the counter becomes its value after one call, and the count seen is recorded |
| Agent.HybridAgent.DefenceCounter | my_team.py:196-215 | fills the defence features and returns the invader distances |
| Agent.HybridAgent.BaseCounter | my_team.py:196-229 | fills every feature set before the opponent loop |
| Agent.HybridAgent.GetFeatures | my_team.py:156-275 | updates the counter and the role flag for this action's successor and returns the full counter |
| Agent.HybridAgent.Evaluate | my_team.py:113-119 | scores the action with the weights of the role its own feature pass set |
| Agent.HybridAgent.ReturnHome | my_team.py:87-97 | returns None exactly when no successor is nearer the start than 9999, else the first action of least distance |
| Agent.HybridAgent.Values | my_team.py:79 | the value list of the first n actions has n entries |
| Agent.HybridAgent.ValuesAt | my_team.py:79 | entry j is the value of action j |
| Agent.HybridAgent.EvaluateFirst | my_team.py:79 | the first evaluation moves the counter once, to a value a further call keeps |
| Agent.HybridAgent.EvaluateNext | my_team.py:79 | a later evaluation leaves the counter alone and appends the next value |
| Agent.HybridAgent.EvaluateAll | my_team.py:79 | the value list of all actions; the counter moves once; the role flag is the last action's |
| Agent.HybridAgent.Decide | my_team.py:82-99 | endgame: the home loop's result; otherwise some action of highest value |
| Agent.HybridAgent.ChooseAction | my_team.py:71-99 | with no legal action it fails and changes nothing; in the endgame it returns the first action nearest home, or nothing; otherwise an action of highest value; the memory ends as the evaluation left it |

## Left out

- `get_successor`'s half-step re-stepping (my_team.py:101-111) is not modelled. Each action's successor is the given `next`.
- Engine queries are inputs, not computations: legal actions, successors, food lists, opponent records, score, layout width and maze distances.
- `random.choice` (my_team.py:99) is a nondeterministic pick (`:|`) from the best actions.
- `create_team` and its `eval` of class names (my_team.py:35-51) are not modelled. The constants `FirstAgent` and `SecondAgent` stand for the two classes.
- The base class's `get_features`/`get_weights` (my_team.py:121-135) are not modelled, because both agents override them.
- `Directions.REVERSE` is defined in game.py, which is not part of this model. `Game.Reverse` gives each compass direction its opposite and STOP itself.
- `util.Counter` internals are not modelled.
  - Feature and weight keys are the closed datatype `Scoring.Feature`, not strings. Every key the agents use is one of its sixteen constructors.
  - The dot product sums over those sixteen keys. A key missing from either side contributes 0, as with the Counter's default.
- `float('inf')` as the initial `closest_scared_ghost_dist` becomes `None`.
- Time budgets, commented-out profiling and prints are not modelled.
- The agent index is not modelled. `register_initial_state` and `__init__` are one constructor that takes the team colour and the start cell.
- Agent.HybridAgent.ChooseAction: the choice is stated as "some position k of highest value holds the returned action". It is not stated as membership in `best_actions`; the contract of `BestActions` makes the two the same set.
- Agent.HybridAgent.Values: its own contract gives only the length of the list. `ValuesAt` gives the entries.
- Extraction.VisibleDists: its own contract gives only a length bound. `VisibleCount` and `VisibleDistsSpec` give the count and the contents.
