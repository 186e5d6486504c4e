/**
 * GridManager.cs: the width × height array of tiles and the bounds-checked
 * lookup the rest of the game goes through. Instantiating the tile prefab is
 * `new Tile(x, z)`; whether a prefab is assigned and whether it carries the
 * Tile script are inspector settings, given to the constructor.
 */
module GridManager {

  import opened Grid
  import opened Battlefield

  class GridManager {
    const width: int
    const height: int
    /** tilePrefab != null */
    const hasTilePrefab: bool
    /** The prefab carries a Tile component (GetComponent<Tile>() != null). */
    const hasTileScript: bool

    var grid: array2?<Tile?>
    var isGridGenerated: bool

    /** An allocated grid has the configured dimensions. */
    ghost predicate Valid()
      reads this
    {
      grid != null ==> grid.Length0 == width && grid.Length1 == height
    }

    /** The component before Start: no grid yet. */
    constructor (width: int, height: int, hasTilePrefab: bool, hasTileScript: bool)
      ensures this.width == width && this.height == height
      ensures this.hasTilePrefab == hasTilePrefab && this.hasTileScript == hasTileScript
      ensures grid == null && !isGridGenerated && Valid()
    {
      this.width, this.height := width, height;
      this.hasTilePrefab, this.hasTileScript := hasTilePrefab, hasTileScript;
      grid, isGridGenerated := null, false;
    }

    /** Every cell holds a tile whose coordinates are the cell's indices (or none, when the prefab lacks the script). */
    ghost predicate Filled()
      reads this, grid
      requires Valid()
    {
      && grid != null
      && forall x, z :: 0 <= x < width && 0 <= z < height ==> Holds(grid[x, z], x, z)
    }

    /** What GenerateGrid puts in cell (x, z). */
    predicate Holds(t: Tile?, x: int, z: int)
    {
      if hasTileScript then t != null && t.x == x && t.z == z else t == null
    }

    /**
     * GenerateGrid: without a prefab nothing happens; otherwise a fresh
     * width × height array is filled column by column with tiles that know
     * their coordinates, and the grid is marked generated.
     */
    method GenerateGrid()
      requires Valid() && width >= 0 && height >= 0
      modifies this
      ensures Valid()
      ensures !hasTilePrefab ==> grid == old(grid) && isGridGenerated == old(isGridGenerated)
      ensures hasTilePrefab ==> fresh(grid) && isGridGenerated && Filled()
    {
      if !hasTilePrefab {
        return;
      }
      var cells := new Tile?[width, height]((_, _) => null);
      for x := 0 to width
        invariant forall i, j :: 0 <= i < x && 0 <= j < height ==> Holds(cells[i, j], i, j)
        invariant forall i, j :: x <= i < width && 0 <= j < height ==> cells[i, j] == null
      {
        for z := 0 to height
          invariant forall i, j :: 0 <= i < x && 0 <= j < height ==> Holds(cells[i, j], i, j)
          invariant forall j :: 0 <= j < z ==> Holds(cells[x, j], x, j)
          invariant forall i, j :: x <= i < width && 0 <= j < height && (i > x || j >= z) ==> cells[i, j] == null
        {
          if hasTileScript {
            var tile := new Tile(x, z);
            cells[x, z] := tile;
          }
        }
      }
      grid := cells;
      isGridGenerated := true;
    }

    /** GetTile: the tile at (x, z); none before generation or outside the grid. */
    function GetTile(x: int, z: int): (t: Tile?)
      reads this, grid
      requires Valid()
      ensures t != null ==> isGridGenerated && 0 <= x < width && 0 <= z < height
    {
      if !isGridGenerated || grid == null then null
      else if 0 <= x < width && 0 <= z < height then grid[x, z]
      else null
    }

    /** IsGridReady: generation has completed. */
    predicate IsGridReady()
      reads this
    {
      isGridGenerated && grid != null
    }
  }

  /**
   * On a generated grid, GetTile(x, z) is the tile with coordinates (x, z)
   * exactly when (x, z) is inside the grid (and the prefab carries the script).
   */
  lemma GetTileHasCoordinates(g: GridManager, x: int, z: int)
    requires g.Valid() && g.IsGridReady() && g.Filled()
    ensures g.GetTile(x, z) != null <==> g.hasTileScript && 0 <= x < g.width && 0 <= z < g.height
    ensures g.GetTile(x, z) != null ==> g.GetTile(x, z).At() == Pos(x, z)
  {
  }

  /** Different cells of a generated grid hold different tiles. */
  lemma GeneratedTilesAreDistinct(g: GridManager, x: int, z: int, x': int, z': int)
    requires g.Valid() && g.IsGridReady() && g.Filled()
    requires g.GetTile(x, z) != null && g.GetTile(x, z) == g.GetTile(x', z')
    ensures x == x' && z == z'
  {
    GetTileHasCoordinates(g, x, z);
    GetTileHasCoordinates(g, x', z');
  }

  /** The tiles GetTile can return, as a frame. */
  ghost function Tiles(g: GridManager): set<Tile>
    reads g, g.grid
    requires g.Valid()
  {
    set x, z | 0 <= x < g.width && 0 <= z < g.height && g.GetTile(x, z) != null :: g.GetTile(x, z)
  }

  /**
   * The view of the grid that Pathfinding works on: the cells for which
   * GetTile finds a tile, and those whose tile has an occupying unit.
   */
  function BoardOf(g: GridManager): (b: Board)
    reads g, g.grid, Tiles(g)
    requires g.Valid()
    ensures forall p :: p in b.cells <==> g.GetTile(p.x, p.z) != null
    ensures forall p :: p in b.occupied <==> g.GetTile(p.x, p.z) != null && g.GetTile(p.x, p.z).occupyingUnit != null
  {
    Board(set x, z | 0 <= x < g.width && 0 <= z < g.height && g.GetTile(x, z) != null :: Pos(x, z),
          set x, z | 0 <= x < g.width && 0 <= z < g.height && g.GetTile(x, z) != null
                     && g.GetTile(x, z).occupyingUnit != null :: Pos(x, z))
  }

  /**
   * GetNeighbors on the live grid: the neighbours of p are exactly the
   * adjacent positions where GetTile finds a tile.
   */
  lemma NeighborsAreTiles(g: GridManager, p: Pos)
    requires g.Valid()
    ensures forall q :: q in Neighbors(BoardOf(g), p) <==> Adjacent(p, q) && g.GetTile(q.x, q.z) != null
  {
  }

  /**
   * IsGridReady is what GetTile hits need: a lookup finds a tile only on a
   * ready grid, and on a ready, filled grid every in-bounds lookup finds one
   * (when the prefab carries the Tile script).
   */
  lemma LookupHitsOnlyWhenReady(g: GridManager, x: int, z: int)
    requires g.Valid()
    ensures g.GetTile(x, z) != null ==> g.IsGridReady()
    ensures g.IsGridReady() && g.Filled() && g.hasTileScript && 0 <= x < g.width && 0 <= z < g.height
      ==> g.GetTile(x, z) != null && g.GetTile(x, z) == g.grid[x, z]
  {
  }

  /** Before generation every lookup misses. */
  lemma NoTileBeforeGeneration(g: GridManager, x: int, z: int)
    requires g.Valid() && !g.isGridGenerated
    ensures g.GetTile(x, z) == null && !g.IsGridReady()
  {
  }
}
