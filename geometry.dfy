/**
 * Board geometry of the Snake engine: the fixed square grid, cells, the four
 * directions with their unit steps, and the small predicates the collision
 * checks are built from.
 */
module Geometry {

  import opened Wrappers

  /** Side length of the square board. */
  const GRID: int := 20

  /** A board cell, or a step between cells; coordinates are unbounded. */
  datatype Pos = Pos(x: int, y: int)

  /** The four movement directions; `y` grows downwards. */
  datatype Direction = Up | Down | Left | Right

  /** A cell of the board. */
  predicate InGrid(p: Pos) {
    0 <= p.x < GRID && 0 <= p.y < GRID
  }

  /** The key under which a direction is stored in the delta table. */
  function Name(d: Direction): string {
    match d
    case Up => "up"
    case Down => "down"
    case Left => "left"
    case Right => "right"
  }

  /** The lookup of a requested direction name in the delta table. */
  function ParseDirection(name: string): (r: Option<Direction>)
    ensures forall d :: r == Some(d) <==> Name(d) == name
  {
    if name == "up" then Some(Up)
    else if name == "down" then Some(Down)
    else if name == "left" then Some(Left)
    else if name == "right" then Some(Right)
    else None
  }

  /** The unit step of a direction (the delta table). */
  function Delta(d: Direction): (r: Pos)
    ensures (r.x == 0 || r.y == 0) && (r.x == 0 <==> (d == Up || d == Down))
    ensures r.x + r.y == (if d == Down || d == Right then 1 else -1)
  {
    match d
    case Up => Pos(0, -1)
    case Down => Pos(0, 1)
    case Left => Pos(-1, 0)
    case Right => Pos(1, 0)
  }

  /** The cell one unit step from `p` in direction `d`. */
  function Step(p: Pos, d: Direction): Pos {
    Pos(p.x + Delta(d).x, p.y + Delta(d).y)
  }

  /** True when a cell lies outside the board. */
  function HitsWall(p: Pos): (r: bool)
    ensures r <==> !InGrid(p)
  {
    p.x < 0 || p.x >= GRID || p.y < 0 || p.y >= GRID
  }

  /** Coordinate-wise comparison of two cells. */
  function PositionsEqual(a: Pos, b: Pos): (r: bool)
    ensures r <==> a == b
  {
    a.x == b.x && a.y == b.y
  }

  /** True when some segment of `snake` is the cell `p`. */
  function HitsSelf(p: Pos, snake: seq<Pos>): (r: bool)
    ensures r <==> p in snake
  {
    exists k :: 0 <= k < |snake| && PositionsEqual(snake[k], p)
  }

  /** True for the two pairs up/down and left/right, in either order. */
  function IsOpposite(a: Direction, b: Direction): (r: bool)
    ensures r <==> Delta(a).x == -Delta(b).x && Delta(a).y == -Delta(b).y
  {
    (a == Up && b == Down) || (a == Down && b == Up) ||
    (a == Left && b == Right) || (a == Right && b == Left)
  }

  /** The reverse of a direction. */
  function Opposite(d: Direction): Direction {
    match d
    case Up => Down
    case Down => Up
    case Left => Right
    case Right => Left
  }

  /** Each direction has exactly one opposite, and the relation is symmetric. */
  lemma OppositeUnique(a: Direction, b: Direction)
    ensures IsOpposite(a, b) <==> b == Opposite(a)
    ensures IsOpposite(a, b) <==> IsOpposite(b, a)
    ensures Opposite(Opposite(a)) == a
  {
  }

  /** Stepping forward and then back returns to the start. */
  lemma StepBack(p: Pos, d: Direction)
    ensures Step(Step(p, d), Opposite(d)) == p
    ensures Step(p, d) != p
  {
  }

  /**
   * From a board cell, a step runs into the wall exactly when the cell is on
   * the edge the step faces.
   */
  lemma WallOnlyAtEdge(p: Pos, d: Direction)
    requires InGrid(p)
    ensures HitsWall(Step(p, d)) <==>
      match d
      case Up => p.y == 0
      case Down => p.y == GRID - 1
      case Left => p.x == 0
      case Right => p.x == GRID - 1
  {
  }

  /** Every direction name resolves, and only those names do. */
  lemma NameRoundTrip(d: Direction, name: string)
    ensures ParseDirection(Name(d)) == Some(d)
    ensures ParseDirection(name).Some? ==> Name(ParseDirection(name).value) == name
  {
  }
}
