/**
 * The collision bodies leave out every snake's current head, for the other
 * players as well as for the snake itself. A player's head may therefore
 * enter the cell where another player's head stands, as long as that player
 * moves elsewhere and the two do not swap. That cell becomes the other
 * snake's neck, so after the tick two snakes cover the same cell.
 *
 * This module shows a valid state in which that happens under the tick as
 * written, and proves that a tick which also treats the other players'
 * current heads as obstacles keeps the snakes apart. The gap is latent: no
 * game reaches such a state, because all heads start on cells of one colour
 * of the chessboard colouring and all change colour on every moving tick, so
 * no head is ever next to another. In every game the snakes stay apart, the
 * two ticks agree, and the swap check never fires.
 */
module Findings {

  import opened Wrappers
  import opened Geometry
  import opened Food
  import opened Collision
  import opened Engine
  import opened Invariants

  /** No two snakes cover the same cell. */
  predicate Apart(snakes: seq<seq<Pos>>) {
    forall i, j, a, b ::
      (0 <= i < |snakes| && 0 <= j < |snakes| && i != j && 0 <= a < |snakes[i]| && 0 <= b < |snakes[j]|)
      ==> snakes[i][a] != snakes[j][b]
  }

  // ------------------------------------------------------------ as written

  /** Player 0 heads right into player 1's head cell, and player 1 turns up. */
  const Chase: GameState := GameState(
    MULTI,
    [[Pos(5, 5), Pos(4, 5)], [Pos(6, 5), Pos(7, 5)]],
    [Right, Left], [Right, Up],
    Some(Pos(0, 0)), [0, 0], Playing)

  lemma ChaseRaisesNoCollision()
    ensures NextHeads(Chase) == [Pos(6, 5), Pos(6, 4)]
    ensures WillGrow(Chase.food, NextHeads(Chase)) == [false, false]
    ensures !TickCollides(Chase)
  {
    var nextHeads := NextHeads(Chase);
    assert nextHeads == [Pos(6, 5), Pos(6, 4)];
    var grow := WillGrow(Chase.food, nextHeads);
    assert grow == [false, false];
    assert CollisionBody(Chase.snakes[0], false) == [];
    assert CollisionBody(Chase.snakes[1], false) == [];
    assert CollisionBodies(Chase.snakes, grow) == [[], []];
    assert Heads(Chase.snakes) == [Pos(5, 5), Pos(6, 5)];
  }

  /** The game is valid and its snakes are apart. */
  lemma ChaseValid()
    ensures Valid(Chase) && Apart(Chase.snakes)
  {
    assert FoodFree(Chase) by {
      forall p | p in Occupied(Chase.snakes) ensures p != Pos(0, 0) {
      }
    }
  }

  /** The moving branch of the tick: both snakes step, neither grows. */
  lemma ChaseCommit(rng: nat -> nat)
    requires IsChooser(rng)
    ensures var r := Commit(Chase, rng);
      r.status == Playing && r.snakes == [[Pos(6, 5), Pos(5, 5)], [Pos(6, 4), Pos(6, 5)]]
  {
    ChaseRaisesNoCollision();
    var nextHeads := NextHeads(Chase);
    var grow := WillGrow(Chase.food, nextHeads);
    assert Moved(Chase.snakes[0], nextHeads[0], false) == [Pos(6, 5), Pos(5, 5)];
    assert Moved(Chase.snakes[1], nextHeads[1], false) == [Pos(6, 4), Pos(6, 5)];
    assert MovedSnakes(Chase.snakes, nextHeads, grow) == [[Pos(6, 5), Pos(5, 5)], [Pos(6, 4), Pos(6, 5)]];
  }

  /**
   * The tick as written lets two apart snakes of a valid game overlap: player
   * 0's new head is player 1's new neck.
   */
  lemma ChaseOverlaps(rng: nat -> nat)
    requires IsChooser(rng)
    ensures Valid(Chase) && Apart(Chase.snakes)
    ensures var r := Tick(Chase, rng);
      && r.status == Playing
      && r.snakes == [[Pos(6, 5), Pos(5, 5)], [Pos(6, 4), Pos(6, 5)]]
      && r.snakes[0][0] == r.snakes[1][1]
      && !Apart(r.snakes)
  {
    ChaseValid();
    ChaseRaisesNoCollision();
    ChaseCommit(rng);
    var r := Tick(Chase, rng);
    assert r.snakes[0][0] == r.snakes[1][1];
  }

  // ------------------------------------------------------------- corrected

  /** Some player heads into the cell where another player's head stands now. */
  predicate EntersHead(heads: seq<Pos>, nextHeads: seq<Pos>)
    requires |heads| == |nextHeads|
  {
    exists i, j :: 0 <= i < |nextHeads| && 0 <= j < |heads| && i != j && nextHeads[i] == heads[j]
  }

  /** The collision verdict with the other players' current heads as obstacles. */
  predicate GuardedCollides(s: GameState)
    requires Movable(s)
  {
    TickCollides(s) || EntersHead(Heads(s.snakes), NextHeads(s))
  }

  /** One tick with the corrected collision verdict. */
  function GuardedTick(s: GameState, rng: nat -> nat): GameState
    requires Frozen(s) || Movable(s)
    requires IsChooser(rng)
  {
    if Frozen(s) then s
    else if GuardedCollides(s) then s.(status := Over)
    else Commit(s, rng)
  }

  /** The correction changes only the ticks in which a head enters another head's cell. */
  lemma GuardedTickAgrees(s: GameState, rng: nat -> nat)
    requires Movable(s) && IsChooser(rng)
    requires !EntersHead(Heads(s.snakes), NextHeads(s))
    ensures GuardedTick(s, rng) == Tick(s, rng)
  {
  }

  /** After a tick that raised no corrected collision, a new head meets no kept segment of another snake. */
  lemma GuardedHeadClear(s: GameState, i: int, j: int, b: int)
    requires Valid(s) && !GuardedCollides(s)
    requires 0 <= i < |s.snakes| && 0 <= j < |s.snakes| && i != j
    requires var grow := WillGrow(s.food, NextHeads(s));
      0 <= b < |s.snakes[j]| - (if grow[j] then 0 else 1)
    ensures NextHeads(s)[i] != s.snakes[j][b]
  {
    var heads, nextHeads := Heads(s.snakes), NextHeads(s);
    var bodies := CollisionBodies(s.snakes, WillGrow(s.food, nextHeads));
    if b == 0 {
      assert heads[j] == s.snakes[j][0];
      assert !EntersHead(heads, nextHeads);
    } else {
      assert bodies[j][b - 1] == s.snakes[j][b];
      assert !BodyHit(nextHeads, bodies);
    }
  }

  /** Two cells of two different snakes after a tick without corrected collision differ. */
  lemma MovedApart(s: GameState, i: int, j: int, a: int, b: int)
    requires Valid(s) && Apart(s.snakes) && !GuardedCollides(s)
    requires var moved := MovedSnakes(s.snakes, NextHeads(s), WillGrow(s.food, NextHeads(s)));
      0 <= i < |s.snakes| && 0 <= j < |s.snakes| && i != j && 0 <= a < |moved[i]| && 0 <= b < |moved[j]|
    ensures var moved := MovedSnakes(s.snakes, NextHeads(s), WillGrow(s.food, NextHeads(s)));
      moved[i][a] != moved[j][b]
  {
    var nextHeads := NextHeads(s);
    var grow := WillGrow(s.food, nextHeads);
    var moved := MovedSnakes(s.snakes, nextHeads, grow);
    assert moved[i] == Moved(s.snakes[i], nextHeads[i], grow[i]);
    assert moved[j] == Moved(s.snakes[j], nextHeads[j], grow[j]);
    if a == 0 && b == 0 {
      assert !HeadOn(nextHeads);
      if i < j {
        assert nextHeads[i] != nextHeads[j];
      } else {
        assert nextHeads[j] != nextHeads[i];
      }
    } else if a == 0 {
      GuardedHeadClear(s, i, j, b - 1);
    } else if b == 0 {
      GuardedHeadClear(s, j, i, a - 1);
    } else {
      assert moved[i][a] == s.snakes[i][a - 1] && moved[j][b] == s.snakes[j][b - 1];
    }
  }

  /** The corrected tick keeps a valid game valid and its snakes apart. */
  lemma GuardedTickKeepsApart(s: GameState, rng: nat -> nat)
    requires Valid(s) && Apart(s.snakes) && IsChooser(rng)
    ensures Valid(GuardedTick(s, rng)) && Apart(GuardedTick(s, rng).snakes)
  {
    if !Frozen(s) && !GuardedCollides(s) {
      CommitValid(s, rng);
      var moved := MovedSnakes(s.snakes, NextHeads(s), WillGrow(s.food, NextHeads(s)));
      assert Commit(s, rng).snakes == moved;
      forall i, j, a, b | 0 <= i < |moved| && 0 <= j < |moved| && i != j && 0 <= a < |moved[i]| && 0 <= b < |moved[j]|
        ensures moved[i][a] != moved[j][b]
      {
        MovedApart(s, i, j, a, b);
      }
    }
  }

  // ------------------------------------------------------- reachable games

  /** The colour of a cell in the chessboard colouring of the board. */
  function Colour(p: Pos): int {
    (p.x + p.y) % 2
  }

  /** Every step lands on a cell of the other colour. */
  lemma StepChangesColour(p: Pos, d: Direction)
    ensures Colour(Step(p, d)) != Colour(p)
  {
  }

  /** All heads stand on cells of one colour. */
  predicate HeadsOneColour(snakes: seq<seq<Pos>>) {
    forall i, j :: 0 <= i < |snakes| && 0 <= j < |snakes| && |snakes[i]| > 0 && |snakes[j]| > 0 ==>
      Colour(snakes[i][0]) == Colour(snakes[j][0])
  }

  /** With all heads on one colour, no head reaches another player's current head cell. */
  lemma OneColourNoEntry(s: GameState)
    requires Movable(s) && HeadsOneColour(s.snakes)
    ensures !EntersHead(Heads(s.snakes), NextHeads(s))
    ensures !Swapped(Heads(s.snakes), NextHeads(s))
  {
    var heads, nextHeads := Heads(s.snakes), NextHeads(s);
    forall i, j | 0 <= i < |nextHeads| && 0 <= j < |heads| && i != j
      ensures nextHeads[i] != heads[j]
    {
      StepChangesColour(s.snakes[i][0], s.nextDirections[i]);
    }
  }

  /** The spawn snakes are apart and their heads share a colour. */
  lemma SpawnApart(mode: string)
    ensures Apart(SpawnSnakes(mode)) && HeadsOneColour(SpawnSnakes(mode))
  {
  }

  /** Every input keeps the snakes apart and their heads on one colour. */
  lemma ApplyKeepsApart(s: GameState, a: Action)
    requires Valid(s) && Apart(s.snakes) && HeadsOneColour(s.snakes) && FairAction(a)
    ensures Apart(Apply(s, a).snakes) && HeadsOneColour(Apply(s, a).snakes)
  {
    match a
    case RequestDirection(_, _) =>
    case PauseToggle =>
    case NewGame(rng) =>
      SpawnApart(s.mode);
    case TimerTick(rng) =>
      if !Frozen(s) && !TickCollides(s) {
        OneColourNoEntry(s);
        GuardedTickAgrees(s, rng);
        GuardedTickKeepsApart(s, rng);
        var r := Commit(s, rng);
        var nextHeads := NextHeads(s);
        forall i | 0 <= i < |r.snakes| ensures |r.snakes[i]| > 0 && r.snakes[i][0] == nextHeads[i] {
          assert r.snakes[i] == Moved(s.snakes[i], nextHeads[i], WillGrow(s.food, nextHeads)[i]);
        }
        forall i, j | 0 <= i < |r.snakes| && 0 <= j < |r.snakes|
          ensures Colour(r.snakes[i][0]) == Colour(r.snakes[j][0])
        {
          StepChangesColour(s.snakes[i][0], s.nextDirections[i]);
          StepChangesColour(s.snakes[j][0], s.nextDirections[j]);
        }
      }
  }

  /** The snakes are apart and their heads on one colour, in a valid state. */
  predicate Kept(s: GameState) {
    Valid(s) && Apart(s.snakes) && HeadsOneColour(s.snakes)
  }

  /** One input of a sequence keeps the state kept, and the rest stays fair. */
  lemma StepKept(s: GameState, actions: seq<Action>)
    requires Kept(s) && actions != []
    requires forall k :: 0 <= k < |actions| ==> FairAction(actions[k])
    ensures Kept(Apply(s, actions[0]))
    ensures forall k :: 0 <= k < |actions[1..]| ==> FairAction(actions[1..][k])
  {
    ApplyValid(s, actions[0]);
    ApplyKeepsApart(s, actions[0]);
    forall k | 0 <= k < |actions[1..]| ensures FairAction(actions[1..][k]) {
      assert actions[1..][k] == actions[k + 1];
    }
  }

  /** Any sequence of inputs keeps the snakes apart and their heads on one colour. */
  lemma {:induction false} RunKeepsApart(s: GameState, actions: seq<Action>)
    requires Kept(s)
    requires forall k :: 0 <= k < |actions| ==> FairAction(actions[k])
    ensures Kept(Run(s, actions))
    decreases |actions|
  {
    if actions != [] {
      StepKept(s, actions);
      RunKeepsApart(Apply(s, actions[0]), actions[1..]);
    }
  }

  /**
   * In every game the snakes stay apart, so the overlap above needs a state
   * that no game reaches: heads start on one colour and all change colour on
   * every moving tick, so no head is ever next to another head.
   */
  lemma SessionApart(mode: string, rng: nat -> nat, actions: seq<Action>)
    requires IsChooser(rng)
    requires forall k :: 0 <= k < |actions| ==> FairAction(actions[k])
    ensures var r := Session(mode, rng, actions);
      Valid(r) && Apart(r.snakes) && HeadsOneColour(r.snakes)
  {
    InitialStateValid(mode, rng);
    SpawnApart(mode);
    RunKeepsApart(InitialState(mode, rng), actions);
  }

  /**
   * In every game the corrected tick and the tick as written agree, and the
   * swap check never fires.
   */
  lemma SessionUnaffected(mode: string, rng: nat -> nat, actions: seq<Action>, tickRng: nat -> nat)
    requires IsChooser(rng) && IsChooser(tickRng)
    requires forall k :: 0 <= k < |actions| ==> FairAction(actions[k])
    ensures var r := Session(mode, rng, actions);
      && GuardedTick(r, tickRng) == Tick(r, tickRng)
      && !Swapped(Heads(r.snakes), NextHeads(r))
  {
    SessionApart(mode, rng, actions);
    var r := Session(mode, rng, actions);
    OneColourNoEntry(r);
    GuardedTickAgrees(r, tickRng);
  }
}
