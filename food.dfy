/**
 * Food placement: the row-major scan of the board for cells no snake
 * segment covers, and the choice of one of them by an injected random index.
 */
module Food {

  import opened Wrappers
  import opened Geometry

  /** Number of cells on the board. */
  const CELLS: nat := 400

  /**
   * The random source, as the index it yields for a list of `n` empty cells
   * (the source computes `floor(rng() * n)` with `0 <= rng() < 1`).
   */
  ghost predicate IsChooser(rng: nat -> nat) {
    forall n: nat :: 0 < n ==> rng(n) < n
  }

  /** Every cell covered by some segment of some snake. */
  function Occupied(snakes: seq<seq<Pos>>): set<Pos> {
    set i, p | 0 <= i < |snakes| && p in snakes[i] :: p
  }

  /** A segment covers its cell. */
  lemma OccupiedAt(snakes: seq<seq<Pos>>, i: int, k: int)
    requires 0 <= i < |snakes| && 0 <= k < |snakes[i]|
    ensures snakes[i][k] in Occupied(snakes)
  {
    assert snakes[i][k] in snakes[i];
  }

  /** The `i`-th cell of the scan: rows top to bottom, cells left to right. */
  function Cell(i: nat): Pos {
    Pos(i % GRID, i / GRID)
  }

  /** Position of a cell in the scan. */
  function Index(p: Pos): int {
    p.y * GRID + p.x
  }

  lemma CellIndex(p: Pos)
    requires InGrid(p)
    ensures 0 <= Index(p) < CELLS && Cell(Index(p)) == p
  {
  }

  lemma IndexCell(i: nat)
    requires i < CELLS
    ensures InGrid(Cell(i)) && Index(Cell(i)) == i
  {
  }

  /** The uncovered cells among the first `n` of the scan, in scan order. */
  function EmptyBelow(occ: set<Pos>, n: nat): (r: seq<Pos>)
    requires n <= CELLS
    ensures |r| <= n
    ensures forall k :: 0 <= k < |r| ==> InGrid(r[k]) && r[k] !in occ && Index(r[k]) < n
    ensures forall k, l :: 0 <= k < l < |r| ==> Index(r[k]) < Index(r[l])
  {
    if n == 0 then []
    else
      var c := Cell(n - 1);
      IndexCell(n - 1);
      EmptyBelow(occ, n - 1) + (if c in occ then [] else [c])
  }

  /** The list of empty cells the whole scan produces. */
  function EmptyCells(occ: set<Pos>): seq<Pos> {
    EmptyBelow(occ, CELLS)
  }

  /** The scan up to `n` misses no uncovered cell before `n`. */
  lemma {:induction false} EmptyBelowComplete(occ: set<Pos>, n: nat, p: Pos)
    requires n <= CELLS && InGrid(p) && p !in occ && Index(p) < n
    ensures p in EmptyBelow(occ, n)
  {
    CellIndex(p);
    if Index(p) < n - 1 {
      EmptyBelowComplete(occ, n - 1, p);
    }
  }

  /** A cell is listed by the scan exactly when it is on the board and uncovered. */
  lemma EmptyCellsExact(occ: set<Pos>, p: Pos)
    ensures p in EmptyCells(occ) <==> InGrid(p) && p !in occ
  {
    if InGrid(p) && p !in occ {
      CellIndex(p);
      EmptyBelowComplete(occ, CELLS, p);
    }
  }

  /** The scan lists every empty cell once: it has no repeated entry. */
  lemma EmptyCellsDistinct(occ: set<Pos>)
    ensures forall k, l :: 0 <= k < l < |EmptyCells(occ)| ==> EmptyCells(occ)[k] != EmptyCells(occ)[l]
  {
  }

  /** The covered board cells that come before `n` in the scan. */
  function CoveredBelow(occ: set<Pos>, n: nat): set<Pos> {
    set p | p in occ && InGrid(p) && Index(p) < n
  }

  /** Every one of the first `n` cells is either listed as empty or covered. */
  lemma {:induction false} EmptyBelowCount(occ: set<Pos>, n: nat)
    requires n <= CELLS
    ensures |EmptyBelow(occ, n)| + |CoveredBelow(occ, n)| == n
  {
    if n == 0 {
      assert CoveredBelow(occ, 0) == {};
    } else {
      var c := Cell(n - 1);
      IndexCell(n - 1);
      EmptyBelowCount(occ, n - 1);
      forall p | p in CoveredBelow(occ, n) && p !in CoveredBelow(occ, n - 1)
        ensures p == c
      {
        CellIndex(p);
      }
      if c in occ {
        assert CoveredBelow(occ, n) == CoveredBelow(occ, n - 1) + {c};
      } else {
        assert CoveredBelow(occ, n) == CoveredBelow(occ, n - 1);
      }
    }
  }

  /** The number of empty cells is the board size less the covered board cells. */
  lemma EmptyCellsCount(occ: set<Pos>)
    ensures |EmptyCells(occ)| == CELLS - |set p | p in occ && InGrid(p)|
  {
    EmptyBelowCount(occ, CELLS);
    forall p | p in occ && InGrid(p) ensures p in CoveredBelow(occ, CELLS) {
      CellIndex(p);
    }
    assert CoveredBelow(occ, CELLS) == set p | p in occ && InGrid(p);
  }

  /**
   * The food cell placement yields: absent exactly when every board cell is
   * covered, otherwise an uncovered board cell picked from the scan.
   */
  function FoodChoice(snakes: seq<seq<Pos>>, rng: nat -> nat): (r: Option<Pos>)
    requires IsChooser(rng)
    ensures r.None? <==> forall p :: InGrid(p) ==> p in Occupied(snakes)
    ensures r.Some? ==> InGrid(r.value) && r.value !in Occupied(snakes)
  {
    var empty := EmptyCells(Occupied(snakes));
    if |empty| == 0 then
      assert forall p :: InGrid(p) ==> p in Occupied(snakes) by {
        forall p | InGrid(p) ensures p in Occupied(snakes) {
          EmptyCellsExact(Occupied(snakes), p);
        }
      }
      None
    else
      Some(empty[rng(|empty|)])
  }

  /**
   * Scans the board row by row, collecting the cells no segment covers, and
   * picks one of them with the random index; none when the board is full.
   */
  method PlaceFood(snakes: seq<seq<Pos>>, rng: nat -> nat) returns (food: Option<Pos>)
    requires IsChooser(rng)
    ensures food == FoodChoice(snakes, rng)
  {
    var empty: seq<Pos> := [];
    var occupied := Occupied(snakes);
    for y := 0 to GRID
      invariant empty == EmptyBelow(occupied, y * GRID)
    {
      for x := 0 to GRID
        invariant empty == EmptyBelow(occupied, y * GRID + x)
      {
        assert Cell(y * GRID + x) == Pos(x, y);
        if Pos(x, y) !in occupied {
          empty := empty + [Pos(x, y)];
        }
      }
    }
    if |empty| == 0 {
      return None;
    }
    var index := rng(|empty|);
    food := Some(empty[index]);
  }
}
