/**
 * The collision resolver of one tick. Given every player's current head, its
 * candidate next head and its collision body, four checks decide whether the
 * tick ends the game: wall, head-to-head, swap and body.
 */
module Collision {

  import opened Geometry

  /** Some candidate head leaves the board. */
  predicate WallHit(nextHeads: seq<Pos>) {
    exists i :: 0 <= i < |nextHeads| && HitsWall(nextHeads[i])
  }

  /** Two players move into the same cell. */
  predicate HeadOn(nextHeads: seq<Pos>) {
    exists i, j :: 0 <= i < j < |nextHeads| && nextHeads[i] == nextHeads[j]
  }

  /** Two players move into each other's current head cell. */
  predicate Swapped(heads: seq<Pos>, nextHeads: seq<Pos>)
    requires |heads| == |nextHeads|
  {
    exists i, j :: 0 <= i < j < |nextHeads| && nextHeads[i] == heads[j] && nextHeads[j] == heads[i]
  }

  /** Some candidate head lands on a segment of some player's collision body. */
  predicate BodyHit(nextHeads: seq<Pos>, bodies: seq<seq<Pos>>) {
    exists i, j :: 0 <= i < |nextHeads| && 0 <= j < |bodies| && nextHeads[i] in bodies[j]
  }

  /** Players `a` and `b` meet head-on or swap heads. */
  predicate PairClash(heads: seq<Pos>, nextHeads: seq<Pos>, a: int, b: int)
    requires |heads| == |nextHeads| && 0 <= a < |nextHeads| && 0 <= b < |nextHeads|
  {
    nextHeads[a] == nextHeads[b] || (nextHeads[a] == heads[b] && nextHeads[b] == heads[a])
  }

  /** Any of the four checks fires. */
  predicate Collides(heads: seq<Pos>, nextHeads: seq<Pos>, bodies: seq<seq<Pos>>)
    requires |heads| == |nextHeads|
  {
    WallHit(nextHeads) || HeadOn(nextHeads) || Swapped(heads, nextHeads) || BodyHit(nextHeads, bodies)
  }

  /**
   * The segments a head may not enter: the body after the head and, unless
   * the player grows this tick, without the tail, which moves away.
   */
  function CollisionBody(snake: seq<Pos>, grow: bool): (r: seq<Pos>)
    requires |snake| > 0
    ensures |r| == if grow || |snake| == 1 then |snake| - 1 else |snake| - 2
    ensures forall k :: 0 <= k < |r| ==> r[k] == snake[k + 1]
  {
    var end := if grow then |snake| else if |snake| - 1 > 1 then |snake| - 1 else 1;
    snake[1..end]
  }

  /**
   * Raises one flag over the wall check of every head, then the head-to-head
   * and swap checks of every pair, then the body check of every head against
   * every body; the flag ends up set exactly when some check fires.
   */
  method DetectCollision(heads: seq<Pos>, nextHeads: seq<Pos>, bodies: seq<seq<Pos>>)
    returns (collision: bool)
    requires |heads| == |nextHeads| == |bodies|
    ensures collision == Collides(heads, nextHeads, bodies)
  {
    var n := |nextHeads|;
    collision := false;
    for k := 0 to n
      invariant collision <==> exists i :: 0 <= i < k && HitsWall(nextHeads[i])
    {
      if HitsWall(nextHeads[k]) {
        collision := true;
      }
    }
    ghost var wall := collision;

    for i := 0 to n
      invariant collision <==> (wall || exists a, b :: 0 <= a < i && a < b < n && PairClash(heads, nextHeads, a, b))
    {
      for j := i + 1 to n
        invariant collision <==> (wall
          || (exists a, b :: 0 <= a < i && a < b < n && PairClash(heads, nextHeads, a, b))
          || (exists b :: i < b < j && PairClash(heads, nextHeads, i, b)))
      {
        if PositionsEqual(nextHeads[i], nextHeads[j]) {
          collision := true;
        }
        var headI := heads[i];
        var headJ := heads[j];
        if PositionsEqual(nextHeads[i], headJ) && PositionsEqual(nextHeads[j], headI) {
          collision := true;
        }
        assert PairClash(heads, nextHeads, i, j) ==> collision;
      }
    }
    ghost var pairs := collision;
    assert pairs <==> WallHit(nextHeads) || HeadOn(nextHeads) || Swapped(heads, nextHeads) by {
      if HeadOn(nextHeads) {
        var a, b :| 0 <= a < b < n && nextHeads[a] == nextHeads[b];
        assert PairClash(heads, nextHeads, a, b);
      }
      if Swapped(heads, nextHeads) {
        var a, b :| 0 <= a < b < n && nextHeads[a] == heads[b] && nextHeads[b] == heads[a];
        assert PairClash(heads, nextHeads, a, b);
      }
    }

    for i := 0 to n
      invariant collision <==> (pairs || exists a, b :: 0 <= a < i && 0 <= b < n && nextHeads[a] in bodies[b])
    {
      if HitsSelf(nextHeads[i], bodies[i]) {
        collision := true;
      }
      for j := 0 to n
        invariant collision <==> (pairs
          || (exists a, b :: 0 <= a < i && 0 <= b < n && nextHeads[a] in bodies[b])
          || nextHeads[i] in bodies[i]
          || (exists b :: 0 <= b < j && nextHeads[i] in bodies[b]))
      {
        if i == j {
          continue;
        }
        if HitsSelf(nextHeads[i], bodies[j]) {
          collision := true;
        }
      }
    }
  }
}
