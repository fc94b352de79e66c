/**
 * Concrete games: eating on the first move, running into the wall, meeting
 * head-on, and reversing on the spot.
 */
module Scenarios {

  import opened Wrappers
  import opened Geometry
  import opened Food
  import opened Collision
  import opened Engine
  import opened Invariants

  /** The single-player spawn snake after eating one cell ahead. */
  const Grown: seq<seq<Pos>> := [[Pos(10, 10), Pos(9, 10), Pos(8, 10)]]

  /** A three-cell snake leaves 397 free cells for the food. */
  lemma GrownLeaves397()
    ensures |EmptyCells(Occupied(Grown))| == 397
  {
    var occ := Occupied(Grown);
    assert occ == {Pos(10, 10), Pos(9, 10), Pos(8, 10)} by {
      forall p | p in occ ensures p == Pos(10, 10) || p == Pos(9, 10) || p == Pos(8, 10) {
      }
      OccupiedAt(Grown, 0, 0);
      OccupiedAt(Grown, 0, 1);
      OccupiedAt(Grown, 0, 2);
    }
    assert (set p | p in occ && InGrid(p)) == occ;
    EmptyCellsCount(occ);
  }

  /** The single-player spawn state with the food one cell ahead of the head. */
  const BaitedSpawn: GameState := GameState("single", [[Pos(9, 10), Pos(8, 10)]], [Right], [Right], Some(Pos(10, 10)), [0], Ready)

  /** It is the spawn state of a single-player game, food apart. */
  lemma BaitedSpawnIsSpawn(rng: nat -> nat)
    requires IsChooser(rng)
    ensures InitialState("single", rng).(food := Some(Pos(10, 10))) == BaitedSpawn
  {
  }

  /** The bait is one step ahead, so the snake will grow and no check fires. */
  lemma BaitedSpawnSafe()
    ensures NextHeads(BaitedSpawn) == [Pos(10, 10)]
    ensures WillGrow(BaitedSpawn.food, NextHeads(BaitedSpawn)) == [true]
    ensures !TickCollides(BaitedSpawn)
  {
    var s := BaitedSpawn;
    var nextHeads := NextHeads(s);
    assert nextHeads == [Pos(10, 10)];
    var grow := WillGrow(s.food, nextHeads);
    assert grow == [true];
    assert CollisionBody(s.snakes[0], true) == [Pos(8, 10)];
    assert CollisionBodies(s.snakes, grow) == [[Pos(8, 10)]];
  }

  /** The moving branch of that tick. */
  lemma BaitedCommit(rng: nat -> nat)
    requires IsChooser(rng)
    ensures var r := Commit(BaitedSpawn, rng);
      r.snakes == Grown && r.scores == [1] && r.status == Playing && r.food == FoodChoice(r.snakes, rng)
  {
    BaitedSpawnSafe();
    var s := BaitedSpawn;
    var grow := WillGrow(s.food, NextHeads(s));
    assert Moved(s.snakes[0], Pos(10, 10), true) == Grown[0];
    assert MovedSnakes(s.snakes, NextHeads(s), grow) == Grown;
    assert grow[0];
    assert AnyGrows(grow);
    assert BumpedScores(s.scores, grow) == [1];
  }

  /** The first tick of a spawn game with the food one cell ahead. */
  lemma SpawnBite(rng: nat -> nat)
    requires IsChooser(rng)
    ensures var r := Tick(BaitedSpawn, rng);
      r.snakes == Grown && r.scores == [1] && r.status == Playing && r.food == FoodChoice(r.snakes, rng)
  {
    BaitedSpawnSafe();
    BaitedCommit(rng);
  }

  /**
   * A single-player game at spawn, with the food forced one cell ahead of the
   * head: the first tick eats it, the snake grows to three cells, the score is
   * one, and the new food is drawn from the 397 cells left free.
   */
  lemma FirstBite(rng: nat -> nat)
    requires IsChooser(rng)
    ensures var s := InitialState("single", rng).(food := Some(Pos(10, 10)));
      var r := Tick(s, rng);
      && r.snakes == Grown
      && r.scores == [1]
      && r.status == Playing
      && |EmptyCells(Occupied(r.snakes))| == 397
      && r.food == Some(EmptyCells(Occupied(r.snakes))[rng(397)])
  {
    BaitedSpawnIsSpawn(rng);
    SpawnBite(rng);
    GrownLeaves397();
  }

  /** A snake at the right edge heading right ends the game and stays where it was. */
  lemma IntoTheWall(rng: nat -> nat)
    requires IsChooser(rng)
    ensures var s := GameState("single", [[Pos(19, 10), Pos(18, 10)]], [Right], [Right], Some(Pos(3, 3)), [5], Playing);
      Tick(s, rng) == s.(status := Over)
  {
    var s := GameState("single", [[Pos(19, 10), Pos(18, 10)]], [Right], [Right], Some(Pos(3, 3)), [5], Playing);
    WallEndsGame(s, rng, 0);
  }

  /** Two snakes heading into the same cell end the game for both. */
  lemma HeadOnCollision(rng: nat -> nat)
    requires IsChooser(rng)
    ensures var s := GameState(MULTI, [[Pos(9, 10), Pos(8, 10)], [Pos(11, 10), Pos(12, 10)]],
                                [Right, Left], [Right, Left], Some(Pos(0, 0)), [2, 3], Playing);
      Tick(s, rng).status == Over && Tick(s, rng).snakes == s.snakes
  {
    var s := GameState(MULTI, [[Pos(9, 10), Pos(8, 10)], [Pos(11, 10), Pos(12, 10)]],
                       [Right, Left], [Right, Left], Some(Pos(0, 0)), [2, 3], Playing);
    HeadOnEndsGame(s, rng, 0, 1);
  }

  /** At spawn, a request to turn back left is ignored and right stays buffered. */
  lemma NoTurningBack(rng: nat -> nat)
    requires IsChooser(rng)
    ensures var s := InitialState("single", rng);
      SetDirection(s, 0, "left") == s && s.nextDirections == [Right]
  {
    var s := InitialState("single", rng);
    ReversalIgnored(s, 0);
  }
}
