/**
 * The game manager (GameManager.cs): it owns the tile map, generates it, looks
 * tiles up, and runs the two-click selection that asks the path finder for a
 * route. Rendering, animation and outline colours are not modelled.
 *
 * The path finder is not part of this model: it is an arbitrary function from
 * a start and an end tile to a path or to "no path" (`None`). The random
 * terrain choice is an arbitrary index into the configured terrain list.
 */
module Game {
  import opened Options
  import opened Terrain
  import opened Tiles

  class GameManager {
    const mapWidth: int
    const mapLength: int
    /** The terrain records the generator draws from. */
    const tileData: seq<TileData>

    /** The map's cells; `null` until the map is first generated, a cell `None`
        until a tile is placed in it. */
    var tiles: array2?<Option<Tile>>
    var startNode: Option<Tile>
    var endNode: Option<Tile>
    /** The last path found; `None` stands for a null list reference. */
    var shortestPath: Option<seq<Tile>>

    /** The configured manager before its map is generated: nothing selected. */
    constructor (mapWidth: int, mapLength: int, tileData: seq<TileData>)
      ensures this.mapWidth == mapWidth && this.mapLength == mapLength && this.tileData == tileData
      ensures tiles == null && startNode == None && endNode == None && shortestPath == None
      ensures Valid()
    {
      this.mapWidth := mapWidth;
      this.mapLength := mapLength;
      this.tileData := tileData;
      tiles := null;
      startNode, endNode, shortestPath := None, None, None;
    }

    /** Between two clicks no end tile is selected, and a selected start tile
        is never water. */
    ghost predicate Valid()
      reads this
    {
      endNode.None? &&
      (startNode.Some? ==> startNode.value.tileData.terrainType != Water)
    }

    /** `cell`, found at (x, z), holds a tile stamped with (x, z) whose
        terrain is one of the configured records. */
    ghost predicate HoldsOwnTile(cell: Option<Tile>, x: int, z: int)
    {
      cell.Some? && cell.value.xIndex == x && cell.value.zIndex == z && cell.value.tileData in tileData
    }

    /** The map has been generated: it has the configured size and every cell
        holds its own tile. */
    ghost predicate MapGenerated()
      reads this, tiles
    {
      tiles != null && tiles.Length0 == mapWidth && tiles.Length1 == mapLength &&
      forall x, z :: 0 <= x < mapWidth && 0 <= z < mapLength ==> HoldsOwnTile(tiles[x, z], x, z)
    }

    /** Bounds-checked lookup: the stored cell inside the map, `None` outside
        it, negative coordinates included. */
    function GetTileAt(x: int, z: int): (tile: Option<Tile>)
      reads this, tiles
      requires 0 <= x < mapWidth && 0 <= z < mapLength ==> tiles != null && x < tiles.Length0 && z < tiles.Length1
      ensures tile.Some? ==> 0 <= x < mapWidth && 0 <= z < mapLength
      ensures 0 <= x < mapWidth && 0 <= z < mapLength ==> tile == tiles[x, z]
      ensures MapGenerated() ==> (tile.Some? <==> 0 <= x < mapWidth && 0 <= z < mapLength)
      ensures MapGenerated() && tile.Some? ==>
        tile.value.xIndex == x && tile.value.zIndex == z && tile.value.tileData in tileData
    {
      if x >= 0 && x < mapWidth && z >= 0 && z < mapLength then tiles[x, z] else None
    }

    /** The generated map as the tiles see it when they look for neighbours. */
    function MapView(): (m: TileMap)
      reads this, tiles
      requires MapGenerated()
      ensures m.Valid() && m.Stamped()
      ensures m.mapWidth == mapWidth && m.mapLength == mapLength
      ensures forall x, z :: IsValidTile(m, x, z) ==> m.cells[x][z] == GetTileAt(x, z)
    {
      var a := tiles;
      TileMap(mapWidth, mapLength,
        seq(mapWidth, x requires 0 <= x < a.Length0 reads a =>
          seq(mapLength, z requires 0 <= z < a.Length1 reads a => a[x, z])))
    }

    /** Every neighbour a tile finds on the generated map is the tile the
        manager returns for the neighbour's coordinates. */
    lemma NeighboursAreMapTiles(t: Tile)
      requires MapGenerated()
      ensures forall n :: n in t.NeighbourTiles(MapView()) ==> GetTileAt(n.xIndex, n.zIndex) == Some(n)
    {
      NeighboursSound(MapView(), t);
    }

    /** Fills a fresh map column by column, each cell with a tile stamped with
        its own coordinates and an arbitrarily chosen terrain record. */
    method GenerateMap()
      requires 0 <= mapWidth && 0 <= mapLength
      requires 0 < mapWidth && 0 < mapLength ==> |tileData| > 0
      modifies this`tiles
      ensures fresh(tiles) && MapGenerated()
    {
      var a := new Option<Tile>[mapWidth, mapLength];
      for x := 0 to mapWidth
        invariant forall i, j :: 0 <= i < x && 0 <= j < mapLength ==> HoldsOwnTile(a[i, j], i, j)
      {
        for z := 0 to mapLength
          invariant forall i, j :: 0 <= i < x && 0 <= j < mapLength ==> HoldsOwnTile(a[i, j], i, j)
          invariant forall j :: 0 <= j < z ==> HoldsOwnTile(a[x, j], x, j)
        {
          var random :| 0 <= random < |tileData|;
          a[x, z] := Some(Tile(x, z, tileData[random]));
        }
      }
      tiles := a;
    }

    /** Drops the selection and regenerates the map. */
    method GenerateNewMap()
      requires 0 <= mapWidth && 0 <= mapLength
      requires 0 < mapWidth && 0 < mapLength ==> |tileData| > 0
      modifies this`tiles, this`startNode, this`endNode, this`shortestPath
      ensures fresh(tiles) && MapGenerated()
      ensures startNode == None && endNode == None
      ensures shortestPath == if old(shortestPath).Some? then Some([]) else None
    {
      ResetValues();
      GenerateMap();
    }

    /** Clears the selection; an existing path list is emptied, not dropped. */
    method ResetValues()
      modifies this`startNode, this`endNode, this`shortestPath
      ensures startNode == None && endNode == None
      ensures shortestPath == if old(shortestPath).Some? then Some([]) else None
      ensures Valid()
    {
      startNode := None;
      endNode := None;
      if shortestPath.Some? {
        shortestPath := Some([]);
      }
    }

    /** A right click resets any selection. */
    method OnRightClick()
      modifies this`startNode, this`endNode, this`shortestPath
      ensures startNode == None && endNode == None
      ensures shortestPath == if old(shortestPath).Some? then Some([]) else None
      ensures Valid()
    {
      ResetValues();
    }

    /** A click on a tile: water is ignored; the first click picks the start;
        the second asks `getPath` for a route from the start to the clicked
        tile, keeps its answer and clears the selection. */
    method HandleTileClick(clickedTile: Tile, getPath: (Tile, Tile) -> Option<seq<Tile>>)
      modifies this`startNode, this`endNode, this`shortestPath
      ensures clickedTile.tileData.terrainType == Water ==>
        startNode == old(startNode) && endNode == old(endNode) && shortestPath == old(shortestPath)
      ensures clickedTile.tileData.terrainType != Water && old(startNode).None? ==>
        startNode == Some(clickedTile) && endNode == old(endNode) && shortestPath == old(shortestPath)
      ensures clickedTile.tileData.terrainType != Water && old(startNode).Some? && old(endNode).None? ==>
        startNode == None && endNode == None && shortestPath == getPath(old(startNode).value, clickedTile)
      ensures clickedTile.tileData.terrainType != Water && old(startNode).Some? && old(endNode).Some? ==>
        startNode == old(startNode) && endNode == old(endNode) && shortestPath == old(shortestPath)
      ensures old(endNode).None? ==> endNode.None?
      ensures old(Valid()) ==> Valid()
    {
      if clickedTile.tileData.terrainType == Water {
        return;
      }
      if startNode.None? {
        startNode := Some(clickedTile);
      } else if endNode.None? {
        endNode := Some(clickedTile);
        shortestPath := getPath(startNode.value, clickedTile);
        if shortestPath.None? {
          ResetValues();
          return;
        }
        startNode := None;
        endNode := None;
      }
    }
  }
}
