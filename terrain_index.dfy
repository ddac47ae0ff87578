/**
 The index arithmetic of the terrain synthesis pass: how a sample of a
 chunk of a tile of the 3x3 neighbourhood is placed on one axis of the
 dense height grid, and how a grid index is taken apart again.
 */
module TerrainIndex {

  /** Height samples per chunk, per axis. */
  const SamplesPerChunk: nat := 9
  /** Chunks per map tile, per axis. */
  const ChunksPerTile: nat := 16
  /** Map tiles of the neighbourhood, per axis. */
  const NeighbourTiles: nat := 3
  /** Grid cells covered by one tile, per axis: 16 chunks of 9 samples. */
  const TileSpan: nat := 144
  /** `mapsize` of the scene: 9 samples * 16 chunks * 3 tiles. */
  const MapSize: nat := 432
  /** The height grid holds `mapsize + 1` cells per axis. */
  const GridSize: nat := 433

  /** Position of a grid index on one axis: tile, chunk inside the tile,
      sample inside the chunk. */
  datatype AxisPos = AxisPos(tile: nat, chunk: nat, sample: nat)

  predicate ValidPos(p: AxisPos)
  {
    p.tile < NeighbourTiles && p.chunk < ChunksPerTile && p.sample < SamplesPerChunk
  }

  /** Index of sample (hx, hy) in a chunk's 9x9 `hmap_rough` array; the
      row/column pair is recovered from it by division. */
  function SampleIndex(hx: nat, hy: nat): (i: nat)
    requires hx < SamplesPerChunk && hy < SamplesPerChunk
    ensures i < SamplesPerChunk * SamplesPerChunk
    ensures i / SamplesPerChunk == hx && i % SamplesPerChunk == hy
  {
    hx * 9 + hy
  }

  /** Grid index of sample `sample` of chunk `chunk` of neighbourhood tile
      `tile` on one axis; it lies inside the `mapsize` cells the tiles
      cover, and division by 144 and by 9 recovers all three parts. */
  function Place(tile: nat, chunk: nat, sample: nat): (r: nat)
    requires ValidPos(AxisPos(tile, chunk, sample))
    ensures r < MapSize
    ensures r / TileSpan == tile
    ensures (r % TileSpan) / SamplesPerChunk == chunk
    ensures r % SamplesPerChunk == sample
  {
    SplitTile(tile, 9 * chunk + sample);
    SplitChunk(chunk, sample);
    Mod9OfTileOffset(tile, 9 * chunk + sample);
    144 * tile + 9 * chunk + sample
  }

  /** The tile, chunk and sample a covered grid index belongs to. */
  function Locate(r: nat): (p: AxisPos)
    requires r < MapSize
    ensures ValidPos(p)
    ensures Place(p.tile, p.chunk, p.sample) == r
  {
    AxisPos(r / 144, (r % 144) / 9, r % 9)
  }

  lemma SplitTile(t: nat, u: nat)
    requires u < TileSpan
    ensures (144 * t + u) / TileSpan == t && (144 * t + u) % TileSpan == u
  {
  }

  lemma SplitChunk(c: nat, s: nat)
    requires s < SamplesPerChunk
    ensures (9 * c + s) / SamplesPerChunk == c && (9 * c + s) % SamplesPerChunk == s
  {
  }

  lemma Mod9OfTileOffset(t: nat, u: nat)
    ensures (144 * t + u) % SamplesPerChunk == u % SamplesPerChunk
  {
    var q, s := u / 9, u % 9;
    assert 144 * t + u == 9 * (16 * t + q) + s;
    SplitChunk(16 * t + q, s);
  }

  /** Place is the inverse of Locate on every covered grid index. */
  lemma LocatePlace(p: AxisPos)
    requires ValidPos(p)
    ensures Locate(Place(p.tile, p.chunk, p.sample)) == p
  {
  }

  /** Two different (tile, chunk, sample) positions never share a grid
      index, so no two samples of one pass write the same cell. */
  lemma PlaceInjective(p: AxisPos, q: AxisPos)
    requires ValidPos(p) && ValidPos(q)
    requires Place(p.tile, p.chunk, p.sample) == Place(q.tile, q.chunk, q.sample)
    ensures p == q
  {
    LocatePlace(p);
    LocatePlace(q);
  }
}
