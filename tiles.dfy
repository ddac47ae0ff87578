/**
 The tile data the terrain pass reads from the map manager: a tile holds
 16x16 chunks, a chunk holds a 9x9 rough heightmap and a base height.
 Heights are whole numbers here (the source stores 32-bit floats).
 */
module Tiles {
  import opened TerrainIndex

  datatype Option<T> = None | Some(value: T)

  /** A chunk's `hmap_rough`: 9x9 samples in one flat array. */
  type RoughMap = s: seq<int> | |s| == 81 witness seq(81, _ => 0)

  datatype Chunk = Chunk(hmapRough: RoughMap, baseHeight: int)

  /** The 16x16 chunks of a tile; `chunks[chx][chy]` is `GetChunk(chx, chy)`. */
  type ChunkGrid = g: seq<seq<Chunk>> | |g| == 16 && forall i :: 0 <= i < |g| ==> |g[i]| == 16
    witness seq(16, _ => seq(16, _ => Chunk(seq(81, _ => 0), 0)))

  datatype Tile = Tile(chunks: ChunkGrid)

  /** A map-grid coordinate, as `GetGridX()`/`GetGridY()` report it. */
  datatype GridCoord = GridCoord(x: int, y: int)

  /** What the map manager reports once it says the maps are loaded: the
      current grid, the number of loaded maps, and the tiles near the
      current grid keyed by the offset `(dx, dy)` that `GetNearTile(dx, dy)`
      is asked for; an offset without a key is a tile that is not loaded. */
  datatype TileSource = TileSource(grid: GridCoord, loadedMapsCount: nat, near: map<(int, int), Tile>)

  /** Stands for the call `GetNearTile(dx, dy)`: the tile loaded for
      offset (dx, dy), or None when that tile is not loaded. */
  function NearTile(src: TileSource, dx: int, dy: int): Option<Tile>
  {
    if (dx, dy) in src.near then Some(src.near[(dx, dy)]) else None
  }

  /** The absolute height of sample (hx, hy) of a chunk: the rough sample
      plus the chunk's base height. */
  function ChunkSampleHeight(chunk: Chunk, hx: nat, hy: nat): int
    requires hx < SamplesPerChunk && hy < SamplesPerChunk
  {
    chunk.hmapRough[SampleIndex(hx, hy)] + chunk.baseHeight
  }

  /** The absolute height of sample (hx, hy) of chunk (chx, chy) of a tile. */
  function SampleHeight(tile: Tile, chx: nat, chy: nat, hx: nat, hy: nat): int
    requires chx < ChunksPerTile && chy < ChunksPerTile
    requires hx < SamplesPerChunk && hy < SamplesPerChunk
  {
    ChunkSampleHeight(tile.chunks[chx][chy], hx, hy)
  }

  /** The height a tile gives to the cell at offset (u, v) of its 144x144
      block: offset u selects chunk column u / 9 and sample u % 9, offset v
      chunk row v / 9 and sample v % 9. */
  function TileCellHeight(tile: Tile, u: nat, v: nat): int
    requires u < TileSpan && v < TileSpan
  {
    SampleHeight(tile, u / 9, v / 9, u % 9, v % 9)
  }
}
