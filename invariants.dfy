/**
 * What the transitions promise: which fields each one touches, how a tick
 * moves, grows and scores, when it ends the game, and the invariants that
 * every reachable state keeps (snakes on the board, no snake crossing
 * itself, food on a free cell).
 */
module Invariants {

  import opened Wrappers
  import opened Geometry
  import opened Food
  import opened Collision
  import opened Engine

  /** The parallel per-player lists agree in length and every snake has a head. */
  predicate Shaped(s: GameState) {
    && |s.directions| == |s.snakes|
    && |s.nextDirections| == |s.snakes|
    && |s.scores| == |s.snakes|
    && forall i :: 0 <= i < |s.snakes| ==> |s.snakes[i]| > 0
  }

  /** Every segment lies on the board. */
  predicate SnakesInGrid(snakes: seq<seq<Pos>>) {
    forall i, k :: 0 <= i < |snakes| && 0 <= k < |snakes[i]| ==> InGrid(snakes[i][k])
  }

  /** No snake covers a cell twice. */
  predicate SelfAvoiding(snakes: seq<seq<Pos>>) {
    forall i, a, b :: 0 <= i < |snakes| && 0 <= a < b < |snakes[i]| ==> snakes[i][a] != snakes[i][b]
  }

  /** The food, when present, is a board cell that no segment covers. */
  predicate FoodFree(s: GameState) {
    s.food.Some? ==> InGrid(s.food.value) && s.food.value !in Occupied(s.snakes)
  }

  /** The invariant of every state the engine produces. */
  predicate Valid(s: GameState) {
    Shaped(s) && SnakesInGrid(s.snakes) && SelfAvoiding(s.snakes) && FoodFree(s)
  }

  /** The number of players a mode spawns. */
  predicate Populated(s: GameState) {
    |s.snakes| == |SpawnDirections(s.mode)|
  }

  // ---------------------------------------------------------------- creation

  /** A fresh game satisfies the invariant, in either mode. */
  lemma InitialStateValid(mode: string, rng: nat -> nat)
    requires IsChooser(rng)
    ensures Valid(InitialState(mode, rng))
  {
    var r := InitialState(mode, rng);
    SpawnOnBoard(mode);
    assert r.snakes == SpawnSnakes(mode);
    assert Shaped(r);
  }

  /** The spawn snakes lie on the board and do not cross themselves. */
  lemma SpawnOnBoard(mode: string)
    ensures SnakesInGrid(SpawnSnakes(mode)) && SelfAvoiding(SpawnSnakes(mode))
  {
    var snakes := SpawnSnakes(mode);
    forall i, k | 0 <= i < |snakes| && 0 <= k < |snakes[i]| ensures InGrid(snakes[i][k]) {
    }
  }

  // ------------------------------------------------------- direction buffer

  /** Asking a player to reverse its current direction is ignored. */
  lemma ReversalIgnored(s: GameState, player: int)
    requires |s.snakes| <= |s.nextDirections|
    requires 0 <= player < |s.snakes| && player < |s.directions|
    ensures SetDirection(s, player, Name(Opposite(s.directions[player]))) == s
  {
    OppositeUnique(ParseDirection(Name(Opposite(s.directions[player]))).value, s.directions[player]);
  }

  /** Of two requests for one player before a tick, the later one wins if it is accepted. */
  lemma LastRequestWins(s: GameState, player: int, first: string, second: string)
    requires |s.snakes| <= |s.nextDirections|
    ensures SetDirection(SetDirection(s, player, first), player, second) ==
      if Accepted(s, player, second) then SetDirection(s, player, second)
      else SetDirection(s, player, first)
  {
  }

  /** Requests of different players do not interfere. */
  lemma RequestsCommute(s: GameState, p: int, q: int, a: string, b: string)
    requires |s.snakes| <= |s.nextDirections| && p != q
    ensures SetDirection(SetDirection(s, p, a), q, b) == SetDirection(SetDirection(s, q, b), p, a)
  {
  }

  /** Buffering a direction keeps the invariant. */
  lemma SetDirectionValid(s: GameState, player: int, name: string)
    requires Valid(s)
    ensures Valid(SetDirection(s, player, name))
  {
  }

  // ------------------------------------------------------------------- pause

  /** Pausing twice from a running or paused game gives back the same state. */
  lemma PauseTwice(s: GameState)
    requires s.status == Playing || s.status == Paused
    ensures TogglePause(s) != s
    ensures TogglePause(TogglePause(s)) == s
  {
  }

  /** A paused game does not move, and unpausing resumes it unchanged. */
  lemma PausedGameHolds(s: GameState, rng: nat -> nat)
    requires s.status == Playing && IsChooser(rng)
    ensures Tick(TogglePause(s), rng) == TogglePause(s)
    ensures TogglePause(Tick(TogglePause(s), rng)) == s
  {
  }

  /** Pausing keeps the invariant. */
  lemma TogglePauseValid(s: GameState)
    requires Valid(s)
    ensures Valid(TogglePause(s))
  {
  }

  // -------------------------------------------------------------------- tick

  /** A tick changes nothing once the game is over or while it is paused. */
  lemma FrozenTick(s: GameState, rng: nat -> nat)
    requires Frozen(s) && IsChooser(rng)
    ensures Tick(s, rng) == s
  {
  }

  /**
   * When a collision check fires the game ends and nothing else changes: the
   * snakes stay as they were going into the tick.
   */
  lemma CollisionEndsGame(s: GameState, rng: nat -> nat)
    requires Movable(s) && !Frozen(s) && IsChooser(rng)
    requires TickCollides(s)
    ensures Tick(s, rng) == s.(status := Over)
  {
  }

  /** A candidate head off the board ends the game. */
  lemma WallEndsGame(s: GameState, rng: nat -> nat, i: int)
    requires Movable(s) && !Frozen(s) && IsChooser(rng)
    requires 0 <= i < |s.snakes| && !InGrid(Step(s.snakes[i][0], s.nextDirections[i]))
    ensures Tick(s, rng) == s.(status := Over)
  {
    assert HitsWall(NextHeads(s)[i]);
  }

  /** Two players heading into the same cell end the game. */
  lemma HeadOnEndsGame(s: GameState, rng: nat -> nat, i: int, j: int)
    requires Movable(s) && !Frozen(s) && IsChooser(rng)
    requires 0 <= i < |s.snakes| && 0 <= j < |s.snakes| && i != j
    requires Step(s.snakes[i][0], s.nextDirections[i]) == Step(s.snakes[j][0], s.nextDirections[j])
    ensures Tick(s, rng) == s.(status := Over)
  {
    var nextHeads := NextHeads(s);
    if i < j {
      assert nextHeads[i] == nextHeads[j];
    } else {
      assert nextHeads[j] == nextHeads[i];
    }
  }

  /** Two players moving into each other's head cell end the game. */
  lemma SwapEndsGame(s: GameState, rng: nat -> nat, i: int, j: int)
    requires Movable(s) && !Frozen(s) && IsChooser(rng)
    requires 0 <= i < |s.snakes| && 0 <= j < |s.snakes| && i != j
    requires Step(s.snakes[i][0], s.nextDirections[i]) == s.snakes[j][0]
    requires Step(s.snakes[j][0], s.nextDirections[j]) == s.snakes[i][0]
    ensures Tick(s, rng) == s.(status := Over)
  {
    var heads, nextHeads := Heads(s.snakes), NextHeads(s);
    if i < j {
      assert nextHeads[i] == heads[j] && nextHeads[j] == heads[i];
    } else {
      assert nextHeads[j] == heads[i] && nextHeads[i] == heads[j];
    }
  }

  /**
   * A tick without collision moves every snake one step in its buffered
   * direction. A snake whose new head is the food grows by one cell and its
   * player scores one point; any other snake keeps its length, drops its old
   * tail and keeps its score. The buffered directions become the current ones
   * and the game is playing, also when it was ready before. The food stays
   * where it was unless someone eats it; then it is placed once, against the
   * moved snakes.
   */
  lemma MoveGrowScore(s: GameState, rng: nat -> nat, i: int)
    requires Movable(s) && !Frozen(s) && IsChooser(rng)
    requires !TickCollides(s)
    requires 0 <= i < |s.snakes|
    ensures var r := Tick(s, rng);
      var before := s.snakes[i];
      var head := Step(before[0], s.nextDirections[i]);
      var grows := s.food == Some(head);
      && |r.snakes| == |s.snakes|
      && r.snakes[i][0] == head
      && (grows ==> |r.snakes[i]| == |before| + 1 && r.snakes[i][1..] == before)
      && (!grows ==> |r.snakes[i]| == |before| && r.snakes[i][1..] == before[..|before| - 1])
      && (i < |s.scores| ==> r.scores[i] == s.scores[i] + if grows then 1 else 0)
      && |r.scores| == |s.scores|
      && r.directions == r.nextDirections == s.nextDirections
      && r.status == Playing && r.mode == s.mode
      && r.food == if SomeoneEats(s) then FoodChoice(r.snakes, rng) else s.food
  {
    var r := Tick(s, rng);
    var nextHeads := NextHeads(s);
    var grow := WillGrow(s.food, nextHeads);
    assert r.snakes[i] == Moved(s.snakes[i], nextHeads[i], grow[i]);
    assert grow[i] <==> s.food == Some(nextHeads[i]);
    EatersGrow(s);
  }

  /** Some player's next head is the food cell. */
  predicate SomeoneEats(s: GameState)
    requires Movable(s)
  {
    exists j :: 0 <= j < |s.snakes| && s.food == Some(Step(s.snakes[j][0], s.nextDirections[j]))
  }

  /** The growth flags raise some flag exactly when some player eats. */
  lemma EatersGrow(s: GameState)
    requires Movable(s)
    ensures AnyGrows(WillGrow(s.food, NextHeads(s))) <==> SomeoneEats(s)
  {
    var grow := WillGrow(s.food, NextHeads(s));
    if SomeoneEats(s) {
      var j :| 0 <= j < |s.snakes| && s.food == Some(Step(s.snakes[j][0], s.nextDirections[j]));
      assert grow[j];
    }
    if AnyGrows(grow) {
      var j :| 0 <= j < |grow| && grow[j];
      assert s.food == Some(Step(s.snakes[j][0], s.nextDirections[j]));
    }
  }

  /**
   * Two players cannot both eat in one tick that goes on: two eaters have
   * the same next head, and that ends the game.
   */
  lemma TwoEatersCollide(s: GameState, i: int, j: int)
    requires Movable(s)
    requires 0 <= i < |s.snakes| && 0 <= j < |s.snakes| && i != j
    requires s.food == Some(Step(s.snakes[i][0], s.nextDirections[i]))
    requires s.food == Some(Step(s.snakes[j][0], s.nextDirections[j]))
    ensures TickCollides(s)
  {
    var nextHeads := NextHeads(s);
    if i < j {
      assert nextHeads[i] == nextHeads[j];
    } else {
      assert nextHeads[j] == nextHeads[i];
    }
  }

  /** Facts about the candidate heads of a tick that raised no collision. */
  lemma NoCollisionFacts(s: GameState, i: int)
    requires Valid(s) && !TickCollides(s)
    requires 0 <= i < |s.snakes|
    ensures var nextHeads := NextHeads(s);
      InGrid(nextHeads[i]) &&
      forall j :: 0 <= j < |s.snakes| ==>
        nextHeads[i] !in CollisionBodies(s.snakes, WillGrow(s.food, nextHeads))[j]
  {
    var nextHeads := NextHeads(s);
    var bodies := CollisionBodies(s.snakes, WillGrow(s.food, nextHeads));
    assert !WallHit(nextHeads);
    assert !BodyHit(nextHeads, bodies);
  }

  /** The moving branch of a tick keeps the invariant. */
  lemma CommitValid(s: GameState, rng: nat -> nat)
    requires Valid(s) && IsChooser(rng) && !TickCollides(s)
    ensures Valid(Commit(s, rng))
  {
    var nextHeads := NextHeads(s);
    var grow := WillGrow(s.food, nextHeads);
    var bodies := CollisionBodies(s.snakes, grow);
    var r := Commit(s, rng);
    assert r.snakes == MovedSnakes(s.snakes, nextHeads, grow);
    forall i, k | 0 <= i < |r.snakes| && 0 <= k < |r.snakes[i]|
      ensures InGrid(r.snakes[i][k])
    {
      NoCollisionFacts(s, i);
    }
    forall i, a, b | 0 <= i < |r.snakes| && 0 <= a < b < |r.snakes[i]|
      ensures r.snakes[i][a] != r.snakes[i][b]
    {
      var snake := s.snakes[i];
      if a == 0 {
        if b == 1 {
          StepBack(snake[0], s.nextDirections[i]);
        } else {
          NoCollisionFacts(s, i);
          assert bodies[i][b - 2] == snake[b - 1];
        }
      }
    }
    if !AnyGrows(grow) && s.food.Some? {
      forall i, k | 0 <= i < |r.snakes| && 0 <= k < |r.snakes[i]|
        ensures r.snakes[i][k] != s.food.value
      {
        if k > 0 {
          OccupiedAt(s.snakes, i, k - 1);
        } else {
          assert !grow[i];
        }
      }
    }
  }

  /** Every tick keeps the invariant. */
  lemma TickValid(s: GameState, rng: nat -> nat)
    requires Valid(s) && IsChooser(rng)
    ensures Valid(Tick(s, rng))
  {
    if !Frozen(s) && !TickCollides(s) {
      CommitValid(s, rng);
    }
  }

  // --------------------------------------------------------------- sessions

  /** The inputs the surrounding game feeds the engine, each with its own random source. */
  datatype Action =
    | RequestDirection(player: int, name: string)
    | TimerTick(tickRng: nat -> nat)
    | PauseToggle
    | NewGame(newRng: nat -> nat)

  ghost predicate FairAction(a: Action) {
    match a
    case TimerTick(rng) => IsChooser(rng)
    case NewGame(rng) => IsChooser(rng)
    case _ => true
  }

  function Apply(s: GameState, a: Action): GameState
    requires Valid(s) && FairAction(a)
  {
    match a
    case RequestDirection(player, name) => SetDirection(s, player, name)
    case TimerTick(rng) => Tick(s, rng)
    case PauseToggle => TogglePause(s)
    case NewGame(rng) => InitialState(s.mode, rng)
  }

  /** Every input keeps the invariant and the mode. */
  lemma ApplyValid(s: GameState, a: Action)
    requires Valid(s) && FairAction(a)
    ensures Valid(Apply(s, a)) && Apply(s, a).mode == s.mode
    ensures Populated(s) ==> Populated(Apply(s, a))
  {
    match a
    case RequestDirection(player, name) => SetDirectionValid(s, player, name);
    case TimerTick(rng) => TickValid(s, rng);
    case PauseToggle => TogglePauseValid(s);
    case NewGame(rng) => InitialStateValid(s.mode, rng);
  }

  /**
   * The state after a sequence of inputs. It is valid and keeps its mode:
   * every snake segment stays on the board and the food off the snakes.
   */
  function Run(s: GameState, actions: seq<Action>): (r: GameState)
    requires Valid(s)
    requires forall k :: 0 <= k < |actions| ==> FairAction(actions[k])
    ensures Valid(r) && r.mode == s.mode
    ensures Populated(s) ==> Populated(r)
    decreases |actions|
  {
    if actions == [] then s
    else
      ApplyValid(s, actions[0]);
      Run(Apply(s, actions[0]), actions[1..])
  }

  /**
   * A session: a fresh game followed by a sequence of inputs. Every state it
   * reaches has its spawn number of players, snakes on the board that do not
   * cross themselves, and food on a free cell.
   */
  function Session(mode: string, rng: nat -> nat, actions: seq<Action>): (r: GameState)
    requires IsChooser(rng)
    requires forall k :: 0 <= k < |actions| ==> FairAction(actions[k])
    ensures r.mode == mode
    ensures |r.snakes| == |r.scores| == (if mode == MULTI then 2 else 1)
    ensures SnakesInGrid(r.snakes) && SelfAvoiding(r.snakes) && FoodFree(r)
  {
    InitialStateValid(mode, rng);
    Run(InitialState(mode, rng), actions)
  }
}
