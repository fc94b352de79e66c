/**
 * The game state and its transitions: creation, direction buffering, the
 * per-tick advance, pausing and restarting. Every transition returns a new
 * state value; nothing is updated in place.
 */
module Engine {

  import opened Wrappers
  import opened Geometry
  import opened Food
  import opened Collision

  datatype Status = Ready | Playing | Paused | Over

  /**
   * The whole game. Player `i` owns `snakes[i]` (head first),
   * `directions[i]` (the direction of the last tick), `nextDirections[i]`
   * (the requested direction for the next tick) and `scores[i]`.
   */
  datatype GameState = GameState(
    mode: string,
    snakes: seq<seq<Pos>>,
    directions: seq<Direction>,
    nextDirections: seq<Direction>,
    food: Option<Pos>,
    scores: seq<int>,
    status: Status)

  /** The mode string that selects two players; any other mode has one. */
  const MULTI: string := "multi"

  /** The spawn snakes: two cells each, symmetric about the centre in multi mode. */
  function SpawnSnakes(mode: string): seq<seq<Pos>> {
    var mid := GRID / 2;
    if mode == MULTI then
      [[Pos(mid - 4, mid), Pos(mid - 5, mid)], [Pos(mid + 4, mid), Pos(mid + 5, mid)]]
    else
      [[Pos(mid - 1, mid), Pos(mid - 2, mid)]]
  }

  /** The spawn directions: right, and left for the second player. */
  function SpawnDirections(mode: string): seq<Direction> {
    if mode == MULTI then [Right, Left] else [Right]
  }

  /**
   * The state of a fresh game: spawn snakes facing their spawn directions,
   * zero scores, status ready, and food placed against the spawn snakes.
   */
  function InitialState(mode: string, rng: nat -> nat): (r: GameState)
    requires IsChooser(rng)
    ensures r.mode == mode && r.status == Ready
    ensures |r.snakes| == |r.directions| == |r.scores| == if mode == MULTI then 2 else 1
    ensures r.nextDirections == r.directions
    ensures forall i :: 0 <= i < |r.scores| ==> r.scores[i] == 0
    ensures forall i :: 0 <= i < |r.snakes| ==>
      |r.snakes[i]| == 2 && r.snakes[i][1] == Step(r.snakes[i][0], Opposite(r.directions[i]))
    ensures mode == MULTI ==>
      r.snakes[0][0] == Pos(6, 10) && r.snakes[1][0] == Pos(14, 10) && r.directions == [Right, Left]
    ensures mode != MULTI ==> r.snakes[0][0] == Pos(9, 10) && r.directions == [Right]
    ensures r.food == FoodChoice(r.snakes, rng)
  {
    var directions := SpawnDirections(mode);
    var base := GameState(mode, SpawnSnakes(mode), directions, directions, None,
                          seq(|directions|, _ => 0), Ready);
    base.(food := FoodChoice(base.snakes, rng))
  }

  /** Builds the spawn state and places its food with a board scan. */
  method InitState(mode: string, rng: nat -> nat) returns (s: GameState)
    requires IsChooser(rng)
    ensures s == InitialState(mode, rng)
  {
    var directions := SpawnDirections(mode);
    var base := GameState(mode, SpawnSnakes(mode), directions, directions, None,
                          seq(|directions|, _ => 0), Ready);
    var food := PlaceFood(base.snakes, rng);
    s := base.(food := food);
  }

  /** A new game in the mode of the old one. */
  method Restart(s: GameState, rng: nat -> nat) returns (r: GameState)
    requires IsChooser(rng)
    ensures r == InitialState(s.mode, rng)
  {
    r := InitState(s.mode, rng);
  }

  /**
   * A direction request is taken when it names a direction, the player
   * exists, and it does not reverse the player's current direction.
   */
  predicate Accepted(s: GameState, player: int, name: string) {
    && ParseDirection(name).Some?
    && 0 <= player < |s.snakes|
    && !(player < |s.directions| && IsOpposite(ParseDirection(name).value, s.directions[player]))
  }

  /**
   * Buffers a direction request for the next tick. The request is checked
   * against the current direction, not against an earlier buffered one.
   */
  function SetDirection(s: GameState, player: int, name: string): (r: GameState)
    requires |s.snakes| <= |s.nextDirections|
    ensures r.(nextDirections := s.nextDirections) == s
    ensures |r.nextDirections| == |s.nextDirections|
    ensures forall q :: 0 <= q < |s.nextDirections| && q != player ==>
      r.nextDirections[q] == s.nextDirections[q]
    ensures Accepted(s, player, name) ==> r.nextDirections[player] == ParseDirection(name).value
    ensures !Accepted(s, player, name) ==> r == s
  {
    match ParseDirection(name)
    case None => s
    case Some(d) =>
      if player < 0 || player >= |s.snakes| then s
      else if player < |s.directions| && IsOpposite(d, s.directions[player]) then s
      else s.(nextDirections := s.nextDirections[player := d])
  }

  /** Pausing flips playing and paused, and is ignored before start and after the end. */
  function TogglePause(s: GameState): (r: GameState)
    ensures r.(status := s.status) == s
    ensures s.status == Ready || s.status == Over ==> r == s
    ensures s.status == Playing ==> r.status == Paused
    ensures s.status == Paused ==> r.status == Playing
  {
    if s.status == Over || s.status == Ready then s
    else s.(status := if s.status == Paused then Playing else Paused)
  }

  /** A tick does nothing once the game is over or while it is paused. */
  predicate Frozen(s: GameState) {
    s.status == Over || s.status == Paused
  }

  /** What a moving tick reads: a head per snake and a buffered direction per snake. */
  predicate Movable(s: GameState) {
    && |s.snakes| <= |s.nextDirections|
    && forall i :: 0 <= i < |s.snakes| ==> |s.snakes[i]| > 0
  }

  /** The current head of every snake. */
  function Heads(snakes: seq<seq<Pos>>): seq<Pos>
    requires forall i :: 0 <= i < |snakes| ==> |snakes[i]| > 0
  {
    seq(|snakes|, i requires 0 <= i < |snakes| => snakes[i][0])
  }

  /** Every head moved one step in its player's buffered direction. */
  function NextHeads(s: GameState): seq<Pos>
    requires Movable(s)
  {
    seq(|s.snakes|, i requires 0 <= i < |s.snakes| => Step(s.snakes[i][0], s.nextDirections[i]))
  }

  /** A player grows when its next head is the food cell. */
  function WillGrow(food: Option<Pos>, nextHeads: seq<Pos>): seq<bool>
  {
    seq(|nextHeads|, i requires 0 <= i < |nextHeads| => food.Some? && PositionsEqual(nextHeads[i], food.value))
  }

  /** Some player grows this tick. */
  predicate AnyGrows(grow: seq<bool>) {
    exists i :: 0 <= i < |grow| && grow[i]
  }

  /** The collision body of every snake, given who grows. */
  function CollisionBodies(snakes: seq<seq<Pos>>, grow: seq<bool>): seq<seq<Pos>>
    requires |grow| == |snakes|
    requires forall i :: 0 <= i < |snakes| ==> |snakes[i]| > 0
  {
    seq(|snakes|, i requires 0 <= i < |snakes| => CollisionBody(snakes[i], grow[i]))
  }

  /**
   * A snake after one step: the new head in front of the old body, whose tail
   * is dropped unless the snake grows.
   */
  function Moved(snake: seq<Pos>, head: Pos, grow: bool): (r: seq<Pos>)
    ensures |r| == if grow then |snake| + 1 else if |snake| == 0 then 0 else |snake|
    ensures |snake| > 0 ==> r[0] == head
    ensures forall k :: 1 <= k < |r| ==> r[k] == snake[k - 1]
  {
    var grown := [head] + snake;
    if grow then grown else grown[..|grown| - 1]
  }

  /** Every snake after one step. */
  function MovedSnakes(snakes: seq<seq<Pos>>, nextHeads: seq<Pos>, grow: seq<bool>): seq<seq<Pos>>
    requires |nextHeads| == |grow| == |snakes|
  {
    seq(|snakes|, i requires 0 <= i < |snakes| => Moved(snakes[i], nextHeads[i], grow[i]))
  }

  /** One point for every player that grows. */
  function BumpedScores(scores: seq<int>, grow: seq<bool>): seq<int>
  {
    seq(|scores|, i requires 0 <= i < |scores| => scores[i] + if i < |grow| && grow[i] then 1 else 0)
  }

  /** The collision resolver's verdict on the coming tick. */
  predicate TickCollides(s: GameState)
    requires Movable(s)
  {
    var nextHeads := NextHeads(s);
    Collides(Heads(s.snakes), nextHeads, CollisionBodies(s.snakes, WillGrow(s.food, nextHeads)))
  }

  /**
   * The state after a tick without collision: snakes moved, scores bumped,
   * buffered directions committed, food re-placed when someone ate it.
   */
  function Commit(s: GameState, rng: nat -> nat): GameState
    requires Movable(s) && IsChooser(rng)
  {
    var nextHeads := NextHeads(s);
    var grow := WillGrow(s.food, nextHeads);
    var nextSnakes := MovedSnakes(s.snakes, nextHeads, grow);
    s.(snakes := nextSnakes,
       directions := s.nextDirections,
       food := if AnyGrows(grow) then FoodChoice(nextSnakes, rng) else s.food,
       scores := BumpedScores(s.scores, grow),
       status := Playing)
  }

  /** One tick of the game. */
  function Tick(s: GameState, rng: nat -> nat): GameState
    requires Frozen(s) || Movable(s)
    requires IsChooser(rng)
  {
    if Frozen(s) then s
    else if TickCollides(s) then s.(status := Over)
    else Commit(s, rng)
  }

  /**
   * Advances the game by one tick: candidate heads, growth flags, collision
   * bodies, the collision scan, then either the end of the game or the move.
   */
  method Advance(s: GameState, rng: nat -> nat) returns (r: GameState)
    requires Frozen(s) || Movable(s)
    requires IsChooser(rng)
    ensures r == Tick(s, rng)
  {
    if s.status == Over || s.status == Paused {
      return s;
    }
    var nextDirections := s.nextDirections;
    var nextHeads := NextHeads(s);
    var willGrow := WillGrow(s.food, nextHeads);
    var collisionBodies := CollisionBodies(s.snakes, willGrow);
    var collision := DetectCollision(Heads(s.snakes), nextHeads, collisionBodies);
    if collision {
      return s.(status := Over);
    }
    var nextSnakes := MovedSnakes(s.snakes, nextHeads, willGrow);
    var nextScores := BumpedScores(s.scores, willGrow);
    var nextFood := s.food;
    if AnyGrows(willGrow) {
      nextFood := PlaceFood(nextSnakes, rng);
    }
    r := s.(snakes := nextSnakes,
            directions := nextDirections,
            nextDirections := nextDirections,
            food := nextFood,
            scores := nextScores,
            status := Playing);
  }
}
