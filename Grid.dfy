/**
 * Grid geometry shared by the search engine, the units and the turn logic:
 * tile coordinates, the Manhattan metric, 4-adjacency, and the view of the
 * grid that the search needs (which cells exist and which are occupied).
 */
module Grid {

  import opened Lists

  /** The coordinates (x, z) of a tile; a tile of a generated grid is identified by them. */
  datatype Pos = Pos(x: int, z: int)

  /** C#'s int.MaxValue, the "no distance" sentinel of GetDistance and of the search. */
  const MaxInt: int := 0x7fff_ffff

  function Abs(n: int): nat
  {
    if n < 0 then -n else n
  }

  /** |dx| + |dz| (Mathf.Abs(a.x - b.x) + Mathf.Abs(a.z - b.z)). */
  function Manhattan(a: Pos, b: Pos): nat
  {
    Abs(a.x - b.x) + Abs(a.z - b.z)
  }

  /** The Manhattan distance is a metric: symmetric, zero exactly on equal positions, triangular. */
  lemma ManhattanIsMetric(a: Pos, b: Pos, c: Pos)
    ensures Manhattan(a, b) == Manhattan(b, a)
    ensures Manhattan(a, b) == 0 <==> a == b
    ensures Manhattan(a, c) <= Manhattan(a, b) + Manhattan(b, c)
  {
  }

  /** Up, down, left or right of each other. */
  predicate Adjacent(a: Pos, b: Pos)
  {
    Manhattan(a, b) == 1
  }

  /**
   * What the search sees of the grid: `cells` are the positions for which
   * GridManager.GetTile returns a tile, `occupied` those whose tile has an
   * occupying unit.
   */
  datatype Board = Board(cells: set<Pos>, occupied: set<Pos>)

  /** A tile a unit may step onto: it exists and nobody stands on it. */
  predicate Passable(b: Board, p: Pos)
  {
    p in b.cells && p !in b.occupied
  }

  /**
   * Pathfinding.GetNeighbors: the existing tiles up (z + 1), down (z - 1),
   * left (x - 1) and right (x + 1) of p, in that order, each listed once.
   */
  function Neighbors(b: Board, p: Pos): (r: seq<Pos>)
    ensures forall q :: q in r <==> q in b.cells && Adjacent(p, q)
    ensures NoDuplicates(r)
    ensures |r| <= 4
  {
    AdjacentCases(p);
    KeepCells(b, [Pos(p.x, p.z + 1), Pos(p.x, p.z - 1), Pos(p.x - 1, p.z), Pos(p.x + 1, p.z)])
  }

  /** The positions of qs that are cells of the board, in order. */
  function KeepCells(b: Board, qs: seq<Pos>): (r: seq<Pos>)
    ensures forall q :: q in r <==> q in qs && q in b.cells
    ensures NoDuplicates(qs) ==> NoDuplicates(r)
    ensures |r| <= |qs|
  {
    if qs == [] then []
    else
      var rest := KeepCells(b, qs[1..]);
      assert forall q :: q in qs <==> q == qs[0] || q in qs[1..];
      if qs[0] in b.cells then [qs[0]] + rest else rest
  }

  /** The positions adjacent to p are the four one step up, down, left and right. */
  lemma AdjacentCases(p: Pos)
    ensures forall q :: Adjacent(p, q) <==>
      q == Pos(p.x, p.z + 1) || q == Pos(p.x, p.z - 1) || q == Pos(p.x - 1, p.z) || q == Pos(p.x + 1, p.z)
  {
  }

  /**
   * A walk a unit can take from `start`: consecutive positions are adjacent and
   * every position after the start is an existing, unoccupied tile. (The start
   * itself is where the moving unit stands, so it may be occupied.)
   */
  ghost predicate IsWalk(b: Board, start: Pos, w: seq<Pos>)
  {
    && |w| >= 1
    && w[0] == start
    && forall i :: 1 <= i < |w| ==> Adjacent(w[i - 1], w[i]) && Passable(b, w[i])
  }

  /** Along a walk, the Manhattan distance between two stops never exceeds the hops between them. */
  lemma {:induction false} WalkDistanceBound(b: Board, start: Pos, w: seq<Pos>, i: nat, j: nat)
    requires IsWalk(b, start, w)
    requires i <= j < |w|
    ensures Manhattan(w[i], w[j]) <= j - i
  {
    if i < j {
      WalkDistanceBound(b, start, w, i, j - 1);
      ManhattanIsMetric(w[i], w[j - 1], w[j]);
    }
  }

  /** Every prefix of a walk is a walk. */
  lemma WalkPrefix(b: Board, start: Pos, w: seq<Pos>, n: nat)
    requires IsWalk(b, start, w) && 1 <= n <= |w|
    ensures IsWalk(b, start, w[..n])
  {
  }
}
