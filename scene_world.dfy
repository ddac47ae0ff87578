/**
 The terrain update of the world scene: the grid-change tracker, the copy
 of the 3x3 tile neighbourhood into the dense height grid, and the scan
 for the highest and lowest height.
 */
module WorldScene {
  import opened TerrainIndex
  import opened Tiles

  /** The height a cell holds after one synthesis pass over the tiles
      `near`, given the height `prev` it held before: a cell inside the
      144x144 block of a present tile takes that tile's sample, every other
      cell (the block of a missing tile, row and column 432) keeps `prev`.
      Grid index x belongs to tile row `tiley = x / 144`, grid index y to
      tile column `tilex = y / 144`, and the tile is `GetNearTile(tilex - 1,
      tiley - 1)`. */
  function PassHeight(near: map<(int, int), Tile>, x: nat, y: nat, prev: int): int
  {
    if x < MapSize && y < MapSize && (y / TileSpan - 1, x / TileSpan - 1) in near
    then TileCellHeight(near[(y / TileSpan - 1, x / TileSpan - 1)], x % TileSpan, y % TileSpan)
    else prev
  }

  /** The cell a pass writes for sample (hx, hy) of chunk (chx, chy) of the
      present tile at (tilex, tiley) ends up holding exactly that sample's
      `hmap_rough[hx * 9 + hy] + baseheight`. */
  lemma PassHeightAtSample(near: map<(int, int), Tile>, tilex: nat, tiley: nat,
                           chx: nat, chy: nat, hx: nat, hy: nat, prev: int)
    requires tilex < NeighbourTiles && tiley < NeighbourTiles
    requires chx < ChunksPerTile && chy < ChunksPerTile
    requires hx < SamplesPerChunk && hy < SamplesPerChunk
    requires (tilex - 1, tiley - 1) in near
    ensures PassHeight(near, Place(tiley, chx, hx), Place(tilex, chy, hy), prev)
            == SampleHeight(near[(tilex - 1, tiley - 1)], chx, chy, hx, hy)
  {
    var x, y := Place(tiley, chx, hx), Place(tilex, chy, hy);
    Mod9OfTileOffset(x / TileSpan, x % TileSpan);
    Mod9OfTileOffset(y / TileSpan, y % TileSpan);
  }

  /** Inside the block of neighbourhood tile (tilex, tiley) a pass writes
      the tile's height at the cell's offset in the block when the tile is
      present, and leaves the previous height when it is not. */
  lemma PassHeightOnBlock(near: map<(int, int), Tile>, tilex: nat, tiley: nat, x: nat, y: nat, prev: int)
    requires tilex < NeighbourTiles && tiley < NeighbourTiles
    requires TileSpan * tiley <= x < TileSpan * tiley + TileSpan
    requires TileSpan * tilex <= y < TileSpan * tilex + TileSpan
    ensures (tilex - 1, tiley - 1) in near ==>
              PassHeight(near, x, y, prev)
              == TileCellHeight(near[(tilex - 1, tiley - 1)], x - TileSpan * tiley, y - TileSpan * tilex)
    ensures (tilex - 1, tiley - 1) !in near ==> PassHeight(near, x, y, prev) == prev
  {
    SplitTile(tiley, x - TileSpan * tiley);
    SplitTile(tilex, y - TileSpan * tilex);
  }

  /** A pass changes a cell only inside the block of a present tile: row and
      column 432 and the blocks of missing tiles keep their heights. */
  lemma PassChangesOnlyPresentBlocks(near: map<(int, int), Tile>, x: nat, y: nat, prev: int)
    requires x < GridSize && y < GridSize
    requires PassHeight(near, x, y, prev) != prev
    ensures x < MapSize && y < MapSize
    ensures (Locate(y).tile - 1, Locate(x).tile - 1) in near
  {
  }

  /** `highest` and `lowest` bound every cell of the grid and both occur in it. */
  ghost predicate IsExtent(a: array2<int>, highest: int, lowest: int)
    reads a
    requires a.Length0 == GridSize && a.Length1 == GridSize
  {
    && (forall x, y :: 0 <= x < GridSize && 0 <= y < GridSize ==> lowest <= a[x, y] <= highest)
    && (exists x, y :: 0 <= x < GridSize && 0 <= y < GridSize && a[x, y] == highest)
    && (exists x, y :: 0 <= x < GridSize && 0 <= y < GridSize && a[x, y] == lowest)
  }

  /** The terrain scene node's height grid: `mapsize + 1` cells per axis,
      sized once and never resized; only its contents are overwritten. */
  class TerrainSurface {
    const heights: array2<int>

    ghost predicate Valid()
    {
      heights.Length0 == GridSize && heights.Length1 == GridSize
    }

    constructor ()
      ensures Valid() && fresh(heights)
      ensures forall x, y :: 0 <= x < GridSize && 0 <= y < GridSize ==> heights[x, y] == 0
    {
      heights := new int[GridSize, GridSize]((x, y) => 0);
    }

    /** `getHeight(x, y)`. */
    function GetHeight(x: nat, y: nat): int
      reads heights
      requires Valid() && x < GridSize && y < GridSize
    {
      heights[x, y]
    }

    /** `setHeight(x, y, h)`: cell (x, y) holds `h`, every other cell is kept. */
    method SetHeight(x: nat, y: nat, h: int)
      requires Valid() && x < GridSize && y < GridSize
      modifies heights
      ensures heights[x, y] == h
      ensures forall i, j :: 0 <= i < GridSize && 0 <= j < GridSize && (i, j) != (x, y) ==>
                heights[i, j] == old(heights[i, j])
    {
      heights[x, y] := h;
    }
  }

  /** Finds the highest and lowest height of the grid, starting from cell
      (0, 0) and visiting every one of the 433 x 433 cells. */
  method ScanExtent(terrain: TerrainSurface) returns (highest: int, lowest: int)
    requires terrain.Valid()
    ensures IsExtent(terrain.heights, highest, lowest)
    ensures lowest <= highest
  {
    highest := terrain.GetHeight(0, 0);
    lowest := terrain.GetHeight(0, 0);
    ghost var hiX, hiY, loX, loY := 0, 0, 0, 0;
    var j := 0;
    while j < GridSize
      invariant 0 <= j <= GridSize
      invariant hiX < GridSize && hiY < GridSize && terrain.heights[hiX, hiY] == highest
      invariant loX < GridSize && loY < GridSize && terrain.heights[loX, loY] == lowest
      invariant forall x, y :: 0 <= x < GridSize && 0 <= y < j ==>
                  lowest <= terrain.heights[x, y] <= highest
    {
      var i := 0;
      while i < GridSize
        invariant 0 <= i <= GridSize
        invariant hiX < GridSize && hiY < GridSize && terrain.heights[hiX, hiY] == highest
        invariant loX < GridSize && loY < GridSize && terrain.heights[loX, loY] == lowest
        invariant forall x, y :: 0 <= x < GridSize && 0 <= y < j ==>
                    lowest <= terrain.heights[x, y] <= highest
        invariant forall x :: 0 <= x < i ==> lowest <= terrain.heights[x, j] <= highest
      {
        var curheight := terrain.GetHeight(i, j);
        if curheight > highest {
          highest, hiX, hiY := curheight, i, j;
        }
        if curheight < lowest {
          lowest, loX, loY := curheight, i, j;
        }
        i := i + 1;
      }
      j := j + 1;
    }
  }

  /** The scene the GUI is told to show. */
  datatype GuiScene = InWorld | GuiStart

  /** How a call of UpdateTerrain ended. */
  datatype UpdateOutcome =
    | GridUnchanged
    | NoMapsLoaded
    | Redrawn(highest: int, lowest: int)

  class SceneWorld {
    /** `map_gridX`, `map_gridY`: the grid of the last pass; None before the first. */
    var mapGrid: Option<GridCoord>
    /** The last scene state requested from the GUI. */
    var guiState: GuiScene
    const terrain: TerrainSurface

    ghost predicate Valid()
      reads terrain
    {
      terrain.Valid()
    }

    constructor ()
      ensures Valid() && fresh(terrain) && fresh(terrain.heights)
      ensures mapGrid == None && guiState == InWorld
    {
      mapGrid := None;
      guiState := InWorld;
      terrain := new TerrainSurface();
    }

    /** Redraws the terrain when the map manager's grid differs from the one
        of the last pass. An unchanged grid does nothing. A changed grid is
        stored first; then, with no map loaded, the GUI is sent back to the
        start scene and no height is written; otherwise every cell takes its
        PassHeight over the near tiles and the extent of the new grid is
        returned. */
    method UpdateTerrain(src: TileSource) returns (outcome: UpdateOutcome)
      requires Valid()
      modifies this, terrain.heights
      ensures Valid()
      ensures old(mapGrid) == Some(src.grid) ==>
                && outcome == GridUnchanged
                && mapGrid == old(mapGrid) && guiState == old(guiState)
                && unchanged(terrain.heights)
      ensures mapGrid == Some(src.grid)  // so an immediate second call is GridUnchanged
      ensures old(mapGrid) != Some(src.grid) && src.loadedMapsCount == 0 ==>
                && outcome == NoMapsLoaded
                && guiState == GuiStart
                && unchanged(terrain.heights)
      ensures old(mapGrid) != Some(src.grid) && src.loadedMapsCount > 0 ==>
                && outcome.Redrawn?
                && guiState == old(guiState)
                && (forall x, y :: 0 <= x < GridSize && 0 <= y < GridSize ==>
                      terrain.heights[x, y] == PassHeight(src.near, x, y, old(terrain.heights[x, y])))
                && IsExtent(terrain.heights, outcome.highest, outcome.lowest)
    {
      if mapGrid == Some(src.grid) {
        return GridUnchanged;
      }
      mapGrid := Some(src.grid);

      if src.loadedMapsCount == 0 {
        guiState := GuiStart;
        return NoMapsLoaded;
      }

      CopyNeighbourhood(src);
      var highest, lowest := ScanExtent(terrain);
      outcome := Redrawn(highest, lowest);
    }

    /** Copies every present tile of the 3x3 neighbourhood into the grid;
        a missing tile is skipped and its block keeps its heights. */
    method CopyNeighbourhood(src: TileSource)
      requires Valid()
      modifies terrain.heights
      ensures forall x, y :: 0 <= x < GridSize && 0 <= y < GridSize ==>
                terrain.heights[x, y] == PassHeight(src.near, x, y, old(terrain.heights[x, y]))
    {
      var tiley := 0;
      while tiley < NeighbourTiles
        invariant 0 <= tiley <= NeighbourTiles
        invariant forall x, y :: 0 <= x < GridSize && 0 <= y < GridSize ==>
                    terrain.heights[x, y] ==
                      if x < TileSpan * tiley && y < MapSize
                      then PassHeight(src.near, x, y, old(terrain.heights[x, y]))
                      else old(terrain.heights[x, y])
      {
        var tilex := 0;
        while tilex < NeighbourTiles
          invariant 0 <= tilex <= NeighbourTiles
          invariant forall x, y :: 0 <= x < GridSize && 0 <= y < GridSize ==>
                      terrain.heights[x, y] ==
                        if (x < TileSpan * tiley || (x < TileSpan * tiley + TileSpan && y < TileSpan * tilex)) && y < MapSize
                        then PassHeight(src.near, x, y, old(terrain.heights[x, y]))
                        else old(terrain.heights[x, y])
        {
          var maptile := NearTile(src, tilex - 1, tiley - 1);
          if maptile.Some? {
            CopyTile(maptile.value, tilex, tiley);
          }
          forall x, y | TileSpan * tiley <= x < TileSpan * tiley + TileSpan && TileSpan * tilex <= y < TileSpan * tilex + TileSpan
            ensures terrain.heights[x, y] == PassHeight(src.near, x, y, old(terrain.heights[x, y]))
          {
            PassHeightOnBlock(src.near, tilex, tiley, x, y, old(terrain.heights[x, y]));
          }
          tilex := tilex + 1;
        }
        tiley := tiley + 1;
      }
    }

    /** Copies the 16x16 chunks of one tile into the tile's 144x144 block. */
    method CopyTile(tile: Tile, tilex: nat, tiley: nat)
      requires Valid()
      requires tilex < NeighbourTiles && tiley < NeighbourTiles
      modifies terrain.heights
      ensures forall x, y :: 0 <= x < GridSize && 0 <= y < GridSize ==>
                terrain.heights[x, y] ==
                  if TileSpan * tiley <= x < TileSpan * tiley + TileSpan && TileSpan * tilex <= y < TileSpan * tilex + TileSpan
                  then TileCellHeight(tile, x - TileSpan * tiley, y - TileSpan * tilex)
                  else old(terrain.heights[x, y])
    {
      var xBase, yBase := TileSpan * tiley, TileSpan * tilex;
      var chy := 0;
      while chy < ChunksPerTile
        invariant 0 <= chy <= ChunksPerTile
        invariant forall x, y :: 0 <= x < GridSize && 0 <= y < GridSize ==>
                    terrain.heights[x, y] ==
                      if xBase <= x < xBase + TileSpan && yBase <= y < yBase + 9 * chy
                      then TileCellHeight(tile, x - xBase, y - yBase)
                      else old(terrain.heights[x, y])
      {
        var chx := 0;
        while chx < ChunksPerTile
          invariant 0 <= chx <= ChunksPerTile
          invariant forall x, y :: 0 <= x < GridSize && 0 <= y < GridSize ==>
                      terrain.heights[x, y] ==
                        if xBase <= x < xBase + TileSpan
                           && (yBase <= y < yBase + 9 * chy || (yBase + 9 * chy <= y < yBase + 9 * chy + 9 && x < xBase + 9 * chx))
                        then TileCellHeight(tile, x - xBase, y - yBase)
                        else old(terrain.heights[x, y])
        {
          var chunk := tile.chunks[chx][chy];
          CopyChunk(chunk, xBase + 9 * chx, yBase + 9 * chy);
          forall hx, hy | 0 <= hx < SamplesPerChunk && 0 <= hy < SamplesPerChunk
            ensures ChunkSampleHeight(chunk, hx, hy) == TileCellHeight(tile, 9 * chx + hx, 9 * chy + hy)
          {
            SplitChunk(chx, hx);
            SplitChunk(chy, hy);
          }
          chx := chx + 1;
        }
        chy := chy + 1;
      }
    }

    /** Writes the 9x9 samples of one chunk, each plus the chunk's base
        height, into the 9x9 cells starting at (x0, y0). */
    method CopyChunk(chunk: Chunk, x0: nat, y0: nat)
      requires Valid()
      requires x0 + SamplesPerChunk <= MapSize && y0 + SamplesPerChunk <= MapSize
      modifies terrain.heights
      ensures forall x, y :: 0 <= x < GridSize && 0 <= y < GridSize ==>
                terrain.heights[x, y] ==
                  if x0 <= x < x0 + SamplesPerChunk && y0 <= y < y0 + SamplesPerChunk
                  then ChunkSampleHeight(chunk, x - x0, y - y0)
                  else old(terrain.heights[x, y])
    {
      var hy := 0;
      while hy < SamplesPerChunk
        invariant 0 <= hy <= SamplesPerChunk
        invariant forall x, y :: 0 <= x < GridSize && 0 <= y < GridSize ==>
                    terrain.heights[x, y] ==
                      if x0 <= x < x0 + SamplesPerChunk && y0 <= y < y0 + hy
                      then ChunkSampleHeight(chunk, x - x0, y - y0)
                      else old(terrain.heights[x, y])
      {
        var hx := 0;
        while hx < SamplesPerChunk
          invariant 0 <= hx <= SamplesPerChunk
          invariant forall x, y :: 0 <= x < GridSize && 0 <= y < GridSize ==>
                      terrain.heights[x, y] ==
                        if x0 <= x < x0 + SamplesPerChunk && (y0 <= y < y0 + hy || (y == y0 + hy && x < x0 + hx))
                        then ChunkSampleHeight(chunk, x - x0, y - y0)
                        else old(terrain.heights[x, y])
        {
          var h := chunk.hmapRough[hx * 9 + hy] + chunk.baseHeight;
          terrain.SetHeight(x0 + hx, y0 + hy, h);
          hx := hx + 1;
        }
        hy := hy + 1;
      }
    }
  }
}
