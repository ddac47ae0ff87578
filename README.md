# Terrain heightmap synthesis of the PseuWoW world scene

This project models the terrain update of the world scene of the PseuWoW
client (`SceneWorld::UpdateTerrain`) and proves properties of the model.

The scene keeps the map grid coordinate of its last terrain pass. Each frame
it compares that coordinate with the map manager's current grid:

- If the two are equal, nothing happens.
- If they differ, the new coordinate is stored first.
- If no map is loaded, the GUI is sent back to its start scene and no
  height is written.
- Otherwise the tiles of the 3x3 neighbourhood are copied into one dense
  433 x 433 height grid. That size is `mapsize + 1` per axis, where
  `mapsize` = 9 samples x 16 chunks x 3 tiles = 432.
- Each present tile writes each sample of its 16 x 16 chunks of 9 x 9
  samples at the following place:
  - terrain x = `144*tiley + 9*chx + hx`
  - terrain y = `144*tilex + 9*chy + hy`
  - value = `hmap_rough[hx*9 + hy] + baseheight`
- A missing tile is skipped, so its block keeps its earlier heights.
- A scan of the whole grid then finds the highest and the lowest height.

The project also models the clean-up of the screenshot file name's date
string:

- every ':' becomes '_';
- a trailing ' ' cuts the string to its first `length() - 2` characters.

Modules:

- `TerrainIndex` (terrain_index.dfy): the grid constants and the index
  arithmetic. `Place` puts a (tile, chunk, sample) position on one axis;
  `Locate` takes a grid index apart again.
- `Tiles` (tiles.dfy): chunks, tiles, and the map manager's view of them.
  `TileSource` is a snapshot taken once the manager reports its maps loaded.
  `near` holds the tile `GetNearTile(dx, dy)` returns, for each offset that
  has one.
- `WorldScene` (scene_world.dfy):
  - `PassHeight` is the height a cell holds after one pass.
  - `TerrainSurface` is the height grid of the terrain scene node, an
    `array2<int>`.
  - `SceneWorld` holds the stored grid coordinate and the GUI state.
  - Its `UpdateTerrain` is split along the source's loop nest into
    `CopyNeighbourhood` (tile loops), `CopyTile` (chunk loops) and
    `CopyChunk` (sample loops). Each keeps the source's loop order.
  - `ScanExtent` is the highest/lowest scan.
- `ScreenshotName` (screenshot_name.dfy): the date-string clean-up.

Some behaviour the model makes explicit:

- The stored grid is updated before the "no maps loaded" test. After that
  abort, a second call with the same grid is therefore a no-op, although
  no terrain was drawn.
- `date.substr(0, date.length() - 2)` subtracts in `size_t`. For the
  one-character string " ", `length() - 2` wraps to the largest `size_t`,
  and `substr` then keeps the whole string. `SanitiseDate` models the
  wrap-around, so " " is returned unchanged.

## Model

| member | source | states |
|---|---|---|
| `TerrainIndex.SampleIndex` | src/Client/GUI/SceneWorld.cpp:263 | the chunk sample index `hx*9 + hy` lies in [0, 81), and division and remainder by 9 give back `hx` and `hy` |
| `TerrainIndex.Place` | src/Client/GUI/SceneWorld.cpp:264-265 | a terrain index built from tile 0..2, chunk 0..15 and sample 0..8 lies in [0, 432); `x / 144` gives back the tile, `(x % 144) / 9` the chunk and `x % 9` the sample |
| `TerrainIndex.Locate` | src/Client/GUI/SceneWorld.cpp:264-265 | every grid index below 432 is the terrain index of exactly the (tile, chunk, sample) that division by 144 and 9 selects |
| `TerrainIndex.LocatePlace` | src/Client/GUI/SceneWorld.cpp:264-265 | taking a terrain index apart gives back the position it was built from |
| `TerrainIndex.PlaceInjective` | src/Client/GUI/SceneWorld.cpp:264-266 | two different positions never get the same terrain index, so no two samples of one pass write the same cell |
| `Tiles.NearTile` | src/Client/GUI/SceneWorld.cpp:251-252 | the lookup that stands for the call `GetNearTile(dx, dy)`: it yields the tile loaded for offset (dx, dy), or nothing when that tile is not loaded; it has no contract and states no property |
| `WorldScene.PassHeight` | src/Client/GUI/SceneWorld.cpp:247-276 | the reference function for one pass: the height a cell holds afterwards, given its earlier height; `CopyNeighbourhood` is proved equal to it, `CopyTile` and `CopyChunk` give the block contents it is built from, and the three lemmas below characterise it |
| `WorldScene.PassHeightAtSample` | src/Client/GUI/SceneWorld.cpp:258-266 | the cell for sample (hx, hy) of chunk (chx, chy) of a present tile ends up holding `hmap_rough[hx*9 + hy] + baseheight` of exactly that tile, chunk and sample; the tile row maps to terrain x |
| `WorldScene.PassHeightOnBlock` | src/Client/GUI/SceneWorld.cpp:247-276 | inside the 144 x 144 block of neighbourhood tile (tilex, tiley), a present tile `GetNearTile(tilex-1, tiley-1)` decides the height; a missing tile leaves the earlier height |
| `WorldScene.PassChangesOnlyPresentBlocks` | src/Client/GUI/SceneWorld.cpp:247-276 | a pass changes a cell only inside the block of a present tile; row and column 432 are never written |
| `WorldScene.TerrainSurface.constructor` | src/Client/GUI/SceneWorld.cpp:196-203 | the height grid has `mapsize + 1` = 433 cells per axis |
| `WorldScene.TerrainSurface.GetHeight` | src/Client/GUI/SceneWorld.cpp:280-286 | `getHeight(x, y)` reads cell (x, y) of the grid |
| `WorldScene.TerrainSurface.SetHeight` | src/Client/GUI/SceneWorld.cpp:266 | `setHeight(x, y, h)` writes cell (x, y) and no other |
| `WorldScene.ScanExtent` | src/Client/GUI/SceneWorld.cpp:279-290 | after the scan, `highest` is at least every cell and `lowest` at most every cell; both occur in the grid, and `highest - lowest` >= 0 |
| `WorldScene.SceneWorld.UpdateTerrain` | src/Client/GUI/SceneWorld.cpp:214-290 | an unchanged grid writes nothing and keeps the stored grid. Afterwards the stored grid always equals the loader's grid, so an immediate second call is a no-op. With zero maps loaded, the GUI state becomes the start scene and no height is written. Otherwise every cell holds its `PassHeight`, and the extent of the new grid is returned |
| `WorldScene.SceneWorld.CopyNeighbourhood` | src/Client/GUI/SceneWorld.cpp:245-277 | after the tile loops, every cell holds its `PassHeight` over the near tiles of the previous heights |
| `WorldScene.SceneWorld.CopyTile` | src/Client/GUI/SceneWorld.cpp:255-269 | the tile's 144 x 144 block holds the tile's heights at each cell's offset; all other cells are unchanged |
| `WorldScene.SceneWorld.CopyChunk` | src/Client/GUI/SceneWorld.cpp:258-268 | the chunk's 9 x 9 cells hold `hmap_rough[hx*9 + hy] + baseheight`; all other cells are unchanged |
| `WorldScene.SceneWorld.constructor` | src/Client/GUI/SceneWorld.cpp:196-203 | the scene starts with no stored grid coordinate and a fresh 433 x 433 terrain |
| `ScreenshotName.Prefix` | src/Client/GUI/SceneWorld.cpp:124 | `substr(0, n)` keeps at most `n` leading characters |
| `ScreenshotName.SanitiseDate` | src/Client/GUI/SceneWorld.cpp:116-125 | no ':' remains, and every other character is kept in place. The length is kept unless the last character is ' ' in a string of two or more characters, which loses its last two characters. A one-character " " is kept whole |

## Left out

- Heights are integers; the source uses 32-bit floats. Rounding in `hmap_rough + baseheight` (line 263) is not modelled. Nor is NaN: with a NaN height, the result of `max`/`min` in the scan (lines 287-288) depends on the order of the operands, which integers cannot express.
- The colour gradient (lines 293-302) is left out. It divides by `highest`, which may be zero or negative, and converts the result to `u32`, which is undefined for negative values.
- `terrain->smoothNormals()` (line 305) is left out, because `ShTlTerrainSceneNode` is not part of this model.
- The mutex around the copy (lines 245 and 277) is left out. The copy is one atomic step over a snapshot of the tiles.
- The busy-wait on `mapmgr->Loaded()` (lines 225-230) is left out. `TileSource` is the loader's state once it reports loaded.
- `WorldScene.TerrainSurface.constructor`: the initial heights of `ShTlTerrainSceneNode` are not visible, so the model starts from 0. No property depends on that value.
- `WorldScene.SceneWorld.constructor`: the initial `map_gridX`/`map_gridY` are not visible. The model starts with no stored coordinate, so the first `UpdateTerrain` always runs a pass.
- `WorldScene.SceneWorld.constructor`: the source constructor calls `InitTerrain()` and then `UpdateTerrain()` (lines 56-57). The model's constructor stops after the terrain is created. The caller's first `UpdateTerrain` stands for the call at line 57, not for the first frame's call in `OnUpdate` (line 66).
- The implementations of `MapMgr::GetNearTile` and `MapTile::GetChunk` are not part of this model; `Tiles.NearTile` stands for the call. A tile is taken to be its 16 x 16 chunks, with `GetChunk(chx, chy)` = `chunks[chx][chy]`, and the near tiles are keyed by the offset asked for.
- Logging, the `DEBUG` macros, the camera, input handling, light, sky, fog, textures, the debug text and screenshot capture and writing are left out. They are input, output or rendering.
- The scene-construction path of `InitTerrain` without a map manager (lines 189-194) is left out. Only its grid-size constants are modelled.
- `ScreenshotName.SanitiseDate` requires a string of 1 to 2^32 - 1 characters; the source rejects neither exclusion. On the empty string, `date[date.length() - 1]` (line 122) reads index `SIZE_MAX`, which is undefined behaviour. On a string of 2^32 or more characters, the `uint32` counter of the loop at line 117 wraps before it reaches `length()`, so the loop never ends.
