/** The part of the capture game the agents observe: positions, moves, agent states and
    one tick's snapshot, plus the two list built-ins (min, max) the agents apply to them. */
module Game {

  datatype Option<T> = None | Some(value: T)

  /** A board cell; x is the column, counted from the red (left) edge. */
  datatype Pos = Pos(x: int, y: int)

  /** The moves an agent can take in one tick. */
  datatype Direction = North | South | East | West | Stop

  /** The engine's reversal table: each compass direction maps to its opposite and Stop to itself. */
  function Reverse(d: Direction): (r: Direction)
    ensures r == d <==> d == Stop
  {
    match d
    case North => South
    case South => North
    case East => West
    case West => East
    case Stop => Stop
  }

  /** Reversing twice gives back the original direction. */
  lemma ReverseInvolution(d: Direction)
    ensures Reverse(Reverse(d)) == d
  {
  }

  /** What the engine reports about one agent: whether it is a pacman (on the other team's half),
      its scared timer, its position when within sensor range, and the direction it faces. */
  datatype AgentState = AgentState(isPacman: bool, scaredTimer: nat, pos: Option<Pos>, direction: Direction)

  /** One tick's world as one agent sees it: the layout width, its team's score, its own state,
      the opponents in the order the engine lists them, and the food it is attacking. */
  datatype GameState = GameState(
    width: int,
    score: int,
    me: AgentState,
    opponents: seq<AgentState>,
    food: seq<Pos>)

  /** An agent always knows its own position. */
  predicate Located(s: GameState) {
    s.me.pos.Some?
  }

  function MyPos(s: GameState): Pos
    requires Located(s)
  {
    s.me.pos.value
  }

  /** Python's `min` over a non-empty list. */
  function MinOf(s: seq<nat>): (m: nat)
    requires |s| > 0
    ensures m in s
    ensures forall x :: x in s ==> m <= x
  {
    if |s| == 1 then s[0]
    else
      var rest := MinOf(s[..|s| - 1]);
      assert forall x :: x in s ==> x in s[..|s| - 1] || x == s[|s| - 1];
      if s[|s| - 1] < rest then s[|s| - 1] else rest
  }

  /** Python's `max` over a non-empty list. */
  function MaxOf(s: seq<int>): (m: int)
    requires |s| > 0
    ensures m in s
    ensures forall x :: x in s ==> x <= m
  {
    if |s| == 1 then s[0]
    else
      var rest := MaxOf(s[..|s| - 1]);
      assert forall x :: x in s ==> x in s[..|s| - 1] || x == s[|s| - 1];
      if s[|s| - 1] > rest then s[|s| - 1] else rest
  }
}
