# Hex-map tiles and selection, in Dafny

This project models the map logic of a small turn-based hex-map game. There are two parts.

- **Tiles** (`tiles.dfy`, from `Tile.cs`): a tile at `(xIndex, zIndex)` lists its traversable neighbours. Rows alternate between two fixed six-entry offset tables (right, bottom right, bottom left, left, top left, top right), chosen by row parity. A candidate is dropped when it is off the map, when no tile sits in its cell, or when its tile is water. The survivors keep the table's order. `CostTo` charges the travel cost of the tile moved into. A missing node, or a node that is not a tile, costs `Infinity`.
- **Game manager** (`game.dfy`, from `GameManager.cs`): a class that owns the map as a two-dimensional array.
  - `GenerateMap` fills a fresh array with nested loops, stamping every tile with its own coordinates and a terrain record.
  - `GetTileAt` is the bounds-checked lookup.
  - `HandleTileClick`, `ResetValues` and `OnRightClick` form the selection state machine over `startNode`, `endNode` and `shortestPath`. Water clicks are ignored. The first click picks the start. The second click asks the path finder for a route, keeps its answer and clears the selection.

Supporting modules:
- `options.dfy`: `Option`, which stands in for a nullable reference.
- `terrain.dfy`: the terrain record, `TileData(terrainType, travelCost)`, from `SO/TileDataSO.cs`.

Modelling choices:
- **The map as a value.** In the game, a tile reaches the map through a global manager object. Here `Tile.Neighbours` takes the map as an explicit value, `TileMap`. `GameManager.MapView` produces that value from the manager's array. `GameManager.NeighboursAreMapTiles` ties the neighbours a tile finds to what `GetTileAt` returns.
- **Tiles as values.** A tile is a value with `xIndex`, `zIndex` and `tileData`. Its visual state (outline, elevation) is not part of it.
- **The path finder** (`AStar.GetPath`) is not part of this model. `HandleTileClick` receives it as an arbitrary function from a start and an end tile to `Option<seq<Tile>>`, where `None` means "no path". Nothing is claimed about the paths it returns.
- **Randomness.** The random terrain choice in `GenerateMap` is an arbitrary index into `tileData`, picked with `:|`.
- **A failed path request.** When the path finder answers "no path", that answer is stored in `shortestPath` before the selection is reset. The reset's in-place clear then finds no list, so the previous path is dropped rather than emptied: `shortestPath` ends up `None`.
- **Row parity.** The row test `zIndex % 2 == 0` gives the same answer under C#'s truncating remainder and Dafny's Euclidean remainder, negative rows included. So it is written as in the source.

## Model

| member | source | states |
|---|---|---|
| `Tiles.SelectedOffsets` | Assets/Scripts/Tile.cs:67-68 | six entries; the even-row table when `zIndex % 2 == 0`, otherwise the odd-row table |
| `Tiles.OffsetTablesAlternate` | Assets/Scripts/Tile.cs:67-68 | adjacent rows use different tables, rows two apart the same one |
| `Tiles.OffsetTablesDistinct` | Assets/Scripts/Tile.cs:9-26 | the six entries of each offset table are pairwise different |
| `Tiles.IsValidTile` | Assets/Scripts/Tile.cs:128-131 | a coordinate that passes the check can be looked up in the map; one that fails it lies outside `[0,mapWidth) × [0,mapLength)` |
| `Tiles.Tile.Neighbours` | Assets/Scripts/Tile.cs:61-91 | the loop over the row's offset table returns exactly `NeighbourTiles`: the targets that pass `Traversable` (on the map, the bounds test at line 77; a tile present and not water, the test at line 82), in table order |
| `Tiles.Tile.CostTo` | Assets/Scripts/Tile.cs:99-109 | the cost is finite exactly when the argument is a tile; it is then that tile's travel cost, otherwise `Infinity` |
| `Tiles.CostToIgnoresSource` | Assets/Scripts/Tile.cs:99-109 | the cost of a move does not depend on the tile it starts from |
| `Tiles.NeighboursAtMostSix` | Assets/Scripts/Tile.cs:71-87 | a tile has at most six neighbours |
| `Tiles.NeighboursNotWater` | Assets/Scripts/Tile.cs:82 | no neighbour is water |
| `Tiles.NeighboursSound` | Assets/Scripts/Tile.cs:73-84 | on a map whose tiles carry their own coordinates, each neighbour lies in `[0,mapWidth) × [0,mapLength)`, is the tile stored at its coordinates, and is the target of one entry of the tile's offset table |
| `Tiles.NeighboursComplete` | Assets/Scripts/Tile.cs:71-87 | every offset target that is on the map, holds a tile and is not water is among the neighbours |
| `Tiles.NeighboursInTableOrder` | Assets/Scripts/Tile.cs:9-26 | neighbours come in strictly increasing table position (right, bottom right, bottom left, left, top left, top right) |
| `Tiles.NeighboursDistinct` | Assets/Scripts/Tile.cs:71-87 | the neighbour list has no duplicates |
| `Tiles.InteriorTileHasSixNeighbours` | Assets/Scripts/Tile.cs:71-87 | a tile whose six offset targets are all traversable has exactly six neighbours |
| `Tiles.OriginNeighbours` | Assets/Scripts/Tile.cs:11-16 | tile (0,0) is on an even row; its neighbours are what cells (1,0) and (0,1) contribute, in that order, because the other four targets are off the map |
| `Tiles.OddRowExample` | Assets/Scripts/Tile.cs:18-26 | on a 3 × 3 map without water, tile (1,1) on an odd row has neighbours (2,1), (2,2), (1,2), (0,1), (1,0), (2,0), exactly in that order |
| `Tiles.OppositeOffset` | Assets/Scripts/Tile.cs:9-26 | entry k and entry k+3 (mod 6) are opposite directions: stepping out and back returns to the start on either row parity |
| `Tiles.OffsetAdjacencySymmetric` | Assets/Scripts/Tile.cs:9-26 | if (x',z') is an offset target of (x,z), then (x,z) is an offset target of (x',z') |
| `Tiles.NeighbourRelationSymmetric` | Assets/Scripts/Tile.cs:61-91 | on a map whose tiles carry their own coordinates, if `n` is a neighbour of a non-water tile `t` in its own cell, then `t` is a neighbour of `n` |
| `Game.GameManager.constructor` | Assets/Scripts/GameManager.cs:15-27 | the configured manager starts without a map and with no selection and no path |
| `Game.GameManager.GetTileAt` | Assets/Scripts/GameManager.cs:194-204 | in bounds (the map existing and at least that large) it returns the stored cell, out of bounds (negative coordinates included) `None`; on a generated map it returns a tile exactly in bounds, stamped with the requested coordinates |
| `Game.GameManager.MapView` | Assets/Scripts/Tile.cs:80 | the generated map, as tiles see it, is well formed, every tile carries its coordinates, and its cells agree with `GetTileAt` |
| `Game.GameManager.NeighboursAreMapTiles` | Assets/Scripts/Tile.cs:80 | every neighbour found on the generated map is what `GetTileAt` returns at the neighbour's coordinates |
| `Game.GameManager.GenerateMap` | Assets/Scripts/GameManager.cs:63-90 | a fresh `mapWidth × mapLength` array in which every cell holds a tile stamped with its own coordinates and a terrain record taken from `tileData` |
| `Game.GameManager.GenerateNewMap` | Assets/Scripts/GameManager.cs:94-102 | resets the selection (clearing, not dropping, an existing path) and generates a fresh map |
| `Game.GameManager.ResetValues` | Assets/Scripts/GameManager.cs:206-211 | start and end become `None`; an existing path list is emptied in place and stays non-null; a null path stays null |
| `Game.GameManager.OnRightClick` | Assets/Scripts/GameManager.cs:149-154 | the same reset as `ResetValues` |
| `Game.GameManager.HandleTileClick` | Assets/Scripts/GameManager.cs:104-144 | water clicks change nothing; with no start, the clicked tile becomes the start and the end is untouched; with a start and no end, the path finder is asked for (start, clicked), its answer (a path or `None`) is stored, and start and end become `None`; the end is never left set, and a start is never water |

## Left out

- Rendering and animation: materials, outline colours and locking, elevation, the visual resets and path highlighting. These are engine calls with no result that could be stated.
- `Tile.EstimatedCostTo` and the world positions computed in `GenerateMap`. Both are floating-point `Vector3` geometry.
- Travel costs are natural numbers instead of floats. `float.PositiveInfinity` is the separate value `Infinity`.
- The path finder `AStar.GetPath` is not part of this model. It is an arbitrary function, and nothing is claimed about the optimality or validity of its paths.
- The `TerrainType` enumeration is not part of this model. Only `Water` is told apart; the other terrains are `Land(name)`.
- Object identity of tiles is not modelled, because tiles are values. Stamping `XIndex`, `ZIndex` and `TileData` right after a tile is instantiated is modelled as building the tile with those fields. The `TileData` setter's outline and material side effects are not modelled.
- The path list is a value `Option<seq<Tile>>`. Emptying it in place is modelled as replacing a present list with an empty one. Aliasing of that list outside the manager is not modelled.
- Singleton set-up in `Awake`, the event subscriptions in `OnEnable`/`OnDisable`, and `Start`, which only calls `GenerateMap`.
- Debug logging.
- `PauseMenu.cs` and `TileInteraction.cs`: UI, input polling, raycasts, coroutine fades and scene handling.
- Game.GameManager.GetTileAt: requires that an in-bounds lookup finds a map of at least `mapWidth × mapLength` cells. Before the first `GenerateMap` the source's map is null and such a lookup throws a null-reference exception; on a smaller array it throws an index-out-of-range exception. Neither exception is modelled. The tiles' neighbour lookup only runs on a generated map, where the requirement holds.
- `GenerateMap` requires non-negative dimensions, and a non-empty `tileData` when the map has cells. These are the cases where the source's array creation or `tileData[random]` would throw.
