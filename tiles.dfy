/**
 * A hexagonal map tile and its adjacency rules (Tile.cs).
 *
 * Rows are indexed by z and every other row is shifted by half a tile, so the
 * six neighbours of a tile are found through one of two offset tables chosen
 * by the parity of the tile's row. A neighbour is kept only when it lies on
 * the map, a tile is present there and its terrain is not water.
 *
 * In the game a tile reaches the map through the global game manager; here
 * the map a tile consults is an explicit value, `TileMap`.
 */
module Tiles {
  import opened Options
  import opened Terrain

  /** A step from one tile to a neighbouring tile. */
  datatype Offset = Offset(dx: int, dz: int)

  /** A map coordinate: x runs along the width, z along the length. */
  datatype Coord = Coord(x: int, z: int)

  /** Right, bottom right, bottom left, left, top left, top right on even rows. */
  const EvenRowOffsets: seq<Offset> :=
    [Offset(1, 0), Offset(0, 1), Offset(-1, 1), Offset(-1, 0), Offset(-1, -1), Offset(0, -1)]

  /** Right, bottom right, bottom left, left, top left, top right on odd rows. */
  const OddRowOffsets: seq<Offset> :=
    [Offset(1, 0), Offset(1, 1), Offset(0, 1), Offset(-1, 0), Offset(0, -1), Offset(1, -1)]

  /** The offset table used by a tile in row `zIndex`. The test `zIndex % 2 == 0`
      agrees between C#'s truncating remainder and Dafny's Euclidean one, also
      for negative rows, since both are zero exactly on the even numbers. */
  function SelectedOffsets(zIndex: int): (offsets: seq<Offset>)
    ensures |offsets| == 6
    ensures zIndex % 2 == 0 ==> offsets == EvenRowOffsets
    ensures zIndex % 2 != 0 ==> offsets == OddRowOffsets
  {
    if zIndex % 2 == 0 then EvenRowOffsets else OddRowOffsets
  }

  /** The map as the tiles see it: its two dimensions and, per cell, the tile
      placed there (`None` for a cell that holds no tile). */
  datatype TileMap = TileMap(mapWidth: int, mapLength: int, cells: seq<seq<Option<Tile>>>)
  {
    /** The cell grid is `mapWidth` columns of `mapLength` cells each. */
    ghost predicate Valid()
    {
      0 <= mapWidth == |cells| && 0 <= mapLength &&
      forall x :: 0 <= x < |cells| ==> |cells[x]| == mapLength
    }

    /** Every tile on the map carries the coordinates of the cell it sits in. */
    ghost predicate Stamped()
      requires Valid()
    {
      forall x, z :: 0 <= x < mapWidth && 0 <= z < mapLength && cells[x][z].Some? ==>
        cells[x][z].value.xIndex == x && cells[x][z].value.zIndex == z
    }
  }

  /** Whether (x, z) lies within the map; a valid coordinate can be looked up. */
  function IsValidTile(m: TileMap, x: int, z: int): (valid: bool)
    ensures m.Valid() && valid ==> 0 <= x < |m.cells| && 0 <= z < |m.cells[x]|
    ensures !valid ==> x < 0 || m.mapWidth <= x || z < 0 || m.mapLength <= z
  {
    x >= 0 && x < m.mapWidth && z >= 0 && z < m.mapLength
  }

  /** The three tests a candidate neighbour must pass: on the map, a tile is
      there, and that tile is not water. */
  predicate Traversable(m: TileMap, x: int, z: int)
    requires m.Valid()
  {
    IsValidTile(m, x, z) && m.cells[x][z].Some? && m.cells[x][z].value.tileData.terrainType != Water
  }

  /** What one candidate coordinate contributes to the neighbour list. */
  function Candidate(m: TileMap, x: int, z: int): seq<Tile>
    requires m.Valid()
  {
    if Traversable(m, x, z) then [m.cells[x][z].value] else []
  }

  /** The neighbours of (x, z) found through `offsets`, in the order of `offsets`. */
  function Collect(m: TileMap, x: int, z: int, offsets: seq<Offset>): seq<Tile>
    requires m.Valid()
    decreases |offsets|
  {
    if offsets == [] then []
    else
      var o := offsets[|offsets| - 1];
      Collect(m, x, z, offsets[..|offsets| - 1]) + Candidate(m, x + o.dx, z + o.dz)
  }

  /** A node handed to a tile by the path finder: a tile, or a node of some
      other kind. */
  datatype AStarNode = TileNode(tile: Tile) | OtherNode

  /** A travel cost; `Infinity` marks a node that cannot be entered. */
  datatype Cost = Finite(amount: nat) | Infinity

  datatype Tile = Tile(xIndex: int, zIndex: int, tileData: TileData)
  {
    /** The traversable neighbours of this tile, in offset-table order. */
    function NeighbourTiles(m: TileMap): seq<Tile>
      requires m.Valid()
    {
      Collect(m, xIndex, zIndex, SelectedOffsets(zIndex))
    }

    /** Walks the row's offset table and keeps every neighbour that is on the
        map, present and not water. The parity choice is `SelectedOffsets` and
        the two nested tests together are `Traversable`, written out as the
        loop performs them. */
    method Neighbours(m: TileMap) returns (neighbours: seq<Tile>)
      requires m.Valid()
      ensures neighbours == NeighbourTiles(m)
    {
      neighbours := [];
      var isEvenRow := zIndex % 2 == 0;
      var selectedNeighbourOffsets := if isEvenRow then EvenRowOffsets else OddRowOffsets;
      for i := 0 to |selectedNeighbourOffsets|
        invariant neighbours == Collect(m, xIndex, zIndex, selectedNeighbourOffsets[..i])
      {
        var neighbourX := xIndex + selectedNeighbourOffsets[i].dx;
        var neighbourZ := zIndex + selectedNeighbourOffsets[i].dz;
        if IsValidTile(m, neighbourX, neighbourZ) {
          var neighbourTile := m.cells[neighbourX][neighbourZ];
          if neighbourTile.Some? && neighbourTile.value.tileData.terrainType != Water {
            neighbours := neighbours + [neighbourTile.value];
          }
        }
        assert selectedNeighbourOffsets[..i + 1][..i] == selectedNeighbourOffsets[..i];
      }
      assert selectedNeighbourOffsets[..|selectedNeighbourOffsets|] == selectedNeighbourOffsets;
    }

    /** The cost of moving into `neighbor` is the travel cost of its terrain;
        a missing node or one that is not a tile cannot be entered. */
    function CostTo(neighbor: Option<AStarNode>): (cost: Cost)
      ensures cost.Finite? <==> neighbor.Some? && neighbor.value.TileNode?
      ensures cost.Finite? ==> cost.amount == neighbor.value.tile.tileData.travelCost
    {
      if neighbor.None? || !neighbor.value.TileNode? then Infinity
      else Finite(neighbor.value.tile.tileData.travelCost)
    }
  }

  // ---------------------------------------------------------------------------
  // Offsets, directions and targets

  /** The position of the first occurrence of `o` in `offsets`, or `|offsets|`. */
  function IndexOf(offsets: seq<Offset>, o: Offset): (k: nat)
    ensures k <= |offsets|
    ensures k < |offsets| <==> o in offsets
    ensures k < |offsets| ==> offsets[k] == o
    ensures forall j :: 0 <= j < k && j < |offsets| ==> offsets[j] != o
  {
    if offsets == [] then 0
    else if offsets[0] == o then 0
    else 1 + IndexOf(offsets[1..], o)
  }

  lemma {:induction false} IndexOfExtend(offsets: seq<Offset>, last: Offset, o: Offset)
    ensures IndexOf(offsets + [last], o) ==
      if o in offsets then IndexOf(offsets, o)
      else if o == last then |offsets|
      else |offsets| + 1
    decreases |offsets|
  {
    if offsets != [] {
      assert (offsets + [last])[1..] == offsets[1..] + [last];
      if offsets[0] != o {
        IndexOfExtend(offsets[1..], last, o);
      }
    }
  }

  ghost predicate Distinct(offsets: seq<Offset>)
  {
    forall i, j :: 0 <= i < j < |offsets| ==> offsets[i] != offsets[j]
  }

  /** The step that leads from (x, z) to tile `n`. */
  function OffsetBetween(x: int, z: int, n: Tile): Offset
  {
    Offset(n.xIndex - x, n.zIndex - z)
  }

  /** The position in `t`'s offset table of the step from `t` to `n`; 6 when no
      entry of the table leads there. */
  function Direction(t: Tile, n: Tile): nat
  {
    IndexOf(SelectedOffsets(t.zIndex), OffsetBetween(t.xIndex, t.zIndex, n))
  }

  /** The coordinate reached from (x, z) through entry `k` of its row's table. */
  function Target(x: int, z: int, k: nat): Coord
    requires k < 6
  {
    Coord(x + SelectedOffsets(z)[k].dx, z + SelectedOffsets(z)[k].dz)
  }

  ghost predicate IsOffsetTarget(x: int, z: int, x': int, z': int)
  {
    exists k :: 0 <= k < 6 && Target(x, z, k) == Coord(x', z')
  }

  lemma OffsetTablesDistinct()
    ensures Distinct(EvenRowOffsets) && Distinct(OddRowOffsets)
  {
  }

  /** Adjacent rows use different tables and rows two apart use the same one. */
  lemma OffsetTablesAlternate(z: int)
    ensures SelectedOffsets(z) != SelectedOffsets(z + 1)
    ensures SelectedOffsets(z) == SelectedOffsets(z + 2)
  {
  }

  /** Entry k and entry k + 3 (mod 6) of the tables are opposite directions:
      stepping out and back returns to the start, whichever row it began on. */
  lemma OppositeOffset(x: int, z: int, k: nat)
    requires k < 6
    ensures Target(Target(x, z, k).x, Target(x, z, k).z, (k + 3) % 6) == Coord(x, z)
  {
  }

  /** Adjacency through the offset tables is symmetric. */
  lemma OffsetAdjacencySymmetric(x: int, z: int, x': int, z': int)
    requires IsOffsetTarget(x, z, x', z')
    ensures IsOffsetTarget(x', z', x, z)
  {
    var k :| 0 <= k < 6 && Target(x, z, k) == Coord(x', z');
    OppositeOffset(x, z, k);
    assert Target(x', z', (k + 3) % 6) == Coord(x, z);
  }

  // ---------------------------------------------------------------------------
  // Facts about Collect over an arbitrary offset list

  lemma {:induction false} CollectLength(m: TileMap, x: int, z: int, offsets: seq<Offset>)
    requires m.Valid()
    ensures |Collect(m, x, z, offsets)| <= |offsets|
    ensures (forall k :: 0 <= k < |offsets| ==> Traversable(m, x + offsets[k].dx, z + offsets[k].dz)) ==>
      |Collect(m, x, z, offsets)| == |offsets|
    decreases |offsets|
  {
    if offsets != [] {
      var p := offsets[..|offsets| - 1];
      CollectLength(m, x, z, p);
      assert forall k :: 0 <= k < |p| ==> p[k] == offsets[k];
    }
  }

  lemma {:induction false} CollectNotWater(m: TileMap, x: int, z: int, offsets: seq<Offset>)
    requires m.Valid()
    ensures forall n :: n in Collect(m, x, z, offsets) ==> n.tileData.terrainType != Water
    decreases |offsets|
  {
    if offsets != [] {
      CollectNotWater(m, x, z, offsets[..|offsets| - 1]);
    }
  }

  /** On a stamped map every collected tile sits in a traversable cell that one
      of the offsets leads to. */
  lemma {:induction false} CollectSound(m: TileMap, x: int, z: int, offsets: seq<Offset>)
    requires m.Valid() && m.Stamped()
    ensures forall n :: n in Collect(m, x, z, offsets) ==>
      Traversable(m, n.xIndex, n.zIndex) && m.cells[n.xIndex][n.zIndex] == Some(n) &&
      OffsetBetween(x, z, n) in offsets
    decreases |offsets|
  {
    if offsets != [] {
      var p, o := offsets[..|offsets| - 1], offsets[|offsets| - 1];
      CollectSound(m, x, z, p);
      assert offsets == p + [o];
      forall n | n in Collect(m, x, z, offsets)
        ensures Traversable(m, n.xIndex, n.zIndex) && m.cells[n.xIndex][n.zIndex] == Some(n)
        ensures OffsetBetween(x, z, n) in offsets
      {
        if n !in Collect(m, x, z, p) {
          assert n == m.cells[x + o.dx][z + o.dz].value;
          assert OffsetBetween(x, z, n) == o;
        }
      }
    }
  }

  /** Every traversable cell that one of the offsets leads to is collected. */
  lemma {:induction false} CollectComplete(m: TileMap, x: int, z: int, offsets: seq<Offset>)
    requires m.Valid()
    ensures forall k :: 0 <= k < |offsets| && Traversable(m, x + offsets[k].dx, z + offsets[k].dz) ==>
      m.cells[x + offsets[k].dx][z + offsets[k].dz].value in Collect(m, x, z, offsets)
    decreases |offsets|
  {
    if offsets != [] {
      var p := offsets[..|offsets| - 1];
      CollectComplete(m, x, z, p);
      assert forall k :: 0 <= k < |p| ==> p[k] == offsets[k];
    }
  }

  /** On a stamped map, with distinct offsets, the collected tiles appear in
      the order of the offsets that lead to them. */
  lemma {:induction false} CollectOrdered(m: TileMap, x: int, z: int, offsets: seq<Offset>)
    requires m.Valid() && m.Stamped() && Distinct(offsets)
    ensures forall i :: 0 <= i < |Collect(m, x, z, offsets)| ==>
      IndexOf(offsets, OffsetBetween(x, z, Collect(m, x, z, offsets)[i])) < |offsets|
    ensures forall i, j :: 0 <= i < j < |Collect(m, x, z, offsets)| ==>
      IndexOf(offsets, OffsetBetween(x, z, Collect(m, x, z, offsets)[i])) <
      IndexOf(offsets, OffsetBetween(x, z, Collect(m, x, z, offsets)[j]))
    decreases |offsets|
  {
    if offsets != [] {
      var p, o := offsets[..|offsets| - 1], offsets[|offsets| - 1];
      assert offsets == p + [o];
      CollectOrdered(m, x, z, p);
      var before, all := Collect(m, x, z, p), Collect(m, x, z, offsets);
      assert o !in p;
      forall i | 0 <= i < |before|
        ensures IndexOf(offsets, OffsetBetween(x, z, all[i])) == IndexOf(p, OffsetBetween(x, z, before[i])) < |p|
      {
        assert all[i] == before[i];
        IndexOfExtend(p, o, OffsetBetween(x, z, before[i]));
      }
      if |all| > |before| {
        assert all[|before|] == m.cells[x + o.dx][z + o.dz].value;
        assert OffsetBetween(x, z, all[|before|]) == o;
        IndexOfExtend(p, o, o);
      }
    }
  }

  // ---------------------------------------------------------------------------
  // Properties of a tile's neighbours

  lemma NeighboursAtMostSix(m: TileMap, t: Tile)
    requires m.Valid()
    ensures |t.NeighbourTiles(m)| <= 6
  {
    CollectLength(m, t.xIndex, t.zIndex, SelectedOffsets(t.zIndex));
  }

  lemma NeighboursNotWater(m: TileMap, t: Tile)
    requires m.Valid()
    ensures forall n :: n in t.NeighbourTiles(m) ==> n.tileData.terrainType != Water
  {
    CollectNotWater(m, t.xIndex, t.zIndex, SelectedOffsets(t.zIndex));
  }

  /** Each neighbour is on the map, is the tile stored at its coordinates and
      is reached through an entry of the tile's offset table. */
  lemma NeighboursSound(m: TileMap, t: Tile)
    requires m.Valid() && m.Stamped()
    ensures forall n :: n in t.NeighbourTiles(m) ==>
      0 <= n.xIndex < m.mapWidth && 0 <= n.zIndex < m.mapLength &&
      m.cells[n.xIndex][n.zIndex] == Some(n) &&
      Direction(t, n) < 6 && Target(t.xIndex, t.zIndex, Direction(t, n)) == Coord(n.xIndex, n.zIndex)
  {
    CollectSound(m, t.xIndex, t.zIndex, SelectedOffsets(t.zIndex));
  }

  /** Each on-map, present, non-water offset target is among the neighbours. */
  lemma NeighboursComplete(m: TileMap, t: Tile)
    requires m.Valid()
    ensures forall k :: 0 <= k < 6 && Traversable(m, Target(t.xIndex, t.zIndex, k).x, Target(t.xIndex, t.zIndex, k).z) ==>
      m.cells[Target(t.xIndex, t.zIndex, k).x][Target(t.xIndex, t.zIndex, k).z].value in t.NeighbourTiles(m)
  {
    CollectComplete(m, t.xIndex, t.zIndex, SelectedOffsets(t.zIndex));
  }

  /** The neighbours come in the order right, bottom right, bottom left, left,
      top left, top right. */
  lemma NeighboursInTableOrder(m: TileMap, t: Tile)
    requires m.Valid() && m.Stamped()
    ensures forall i, j :: 0 <= i < j < |t.NeighbourTiles(m)| ==>
      Direction(t, t.NeighbourTiles(m)[i]) < Direction(t, t.NeighbourTiles(m)[j]) < 6
  {
    var offsets, ns := SelectedOffsets(t.zIndex), t.NeighbourTiles(m);
    OffsetTablesDistinct();
    assert Distinct(offsets);
    CollectOrdered(m, t.xIndex, t.zIndex, offsets);
    forall i | 0 <= i < |ns|
      ensures Direction(t, ns[i]) == IndexOf(offsets, OffsetBetween(t.xIndex, t.zIndex, ns[i])) < 6
    {
    }
  }

  lemma NeighboursDistinct(m: TileMap, t: Tile)
    requires m.Valid() && m.Stamped()
    ensures forall i, j :: 0 <= i < j < |t.NeighbourTiles(m)| ==> t.NeighbourTiles(m)[i] != t.NeighbourTiles(m)[j]
  {
    NeighboursInTableOrder(m, t);
  }

  /** A tile whose six offset targets are all traversable has six neighbours. */
  lemma InteriorTileHasSixNeighbours(m: TileMap, t: Tile)
    requires m.Valid()
    requires forall k :: 0 <= k < 6 ==> Traversable(m, Target(t.xIndex, t.zIndex, k).x, Target(t.xIndex, t.zIndex, k).z)
    ensures |t.NeighbourTiles(m)| == 6
  {
    var offsets := SelectedOffsets(t.zIndex);
    forall k | 0 <= k < |offsets|
      ensures Traversable(m, t.xIndex + offsets[k].dx, t.zIndex + offsets[k].dz)
    {
      assert Target(t.xIndex, t.zIndex, k) == Coord(t.xIndex + offsets[k].dx, t.zIndex + offsets[k].dz);
    }
    CollectLength(m, t.xIndex, t.zIndex, offsets);
  }

  /** The corner tile (0, 0) lies on an even row; of its six offset targets
      only (1, 0) and (0, 1) can be on the map. */
  lemma OriginNeighbours(m: TileMap, t: Tile)
    requires m.Valid() && t.xIndex == 0 && t.zIndex == 0
    ensures t.NeighbourTiles(m) == Candidate(m, 1, 0) + Candidate(m, 0, 1)
  {
    var e := EvenRowOffsets;
    assert e[..1][..0] == [] && e[..2][..1] == e[..1] && e[..3][..2] == e[..2];
    assert e[..4][..3] == e[..3] && e[..5][..4] == e[..4] && e[..6][..5] == e[..5] && e[..6] == e;
    assert Collect(m, 0, 0, e[..1]) == Candidate(m, 1, 0);
    assert Collect(m, 0, 0, e[..2]) == Candidate(m, 1, 0) + Candidate(m, 0, 1);
    assert Collect(m, 0, 0, e[..3]) == Collect(m, 0, 0, e[..2]);
    assert Collect(m, 0, 0, e[..4]) == Collect(m, 0, 0, e[..2]);
    assert Collect(m, 0, 0, e[..5]) == Collect(m, 0, 0, e[..2]);
    assert Collect(m, 0, 0, e) == Collect(m, 0, 0, e[..2]);
  }

  /** A `width` by `length` map with a tile of terrain `data` in every cell. */
  function UniformMap(width: nat, length: nat, data: TileData): (m: TileMap)
    ensures m.Valid() && m.Stamped()
  {
    TileMap(width, length, seq(width, x => seq(length, z => Some(Tile(x, z, data)))))
  }

  /** Tile (1, 1) lies on an odd row; on a 3 by 3 map without water all six of
      its offset targets are on the map and come in table order. */
  lemma OddRowExample(data: TileData)
    requires data.terrainType != Water
    ensures Tile(1, 1, data).NeighbourTiles(UniformMap(3, 3, data)) ==
      [Tile(2, 1, data), Tile(2, 2, data), Tile(1, 2, data), Tile(0, 1, data), Tile(1, 0, data), Tile(2, 0, data)]
  {
    var m, o := UniformMap(3, 3, data), OddRowOffsets;
    assert o[..1][..0] == [] && o[..2][..1] == o[..1] && o[..3][..2] == o[..2];
    assert o[..4][..3] == o[..3] && o[..5][..4] == o[..4] && o[..6][..5] == o[..5] && o[..6] == o;
    assert Collect(m, 1, 1, o[..1]) == [Tile(2, 1, data)];
    assert Collect(m, 1, 1, o[..2]) == [Tile(2, 1, data), Tile(2, 2, data)];
    assert Collect(m, 1, 1, o[..3]) == [Tile(2, 1, data), Tile(2, 2, data), Tile(1, 2, data)];
    assert Collect(m, 1, 1, o[..4]) == [Tile(2, 1, data), Tile(2, 2, data), Tile(1, 2, data), Tile(0, 1, data)];
    assert Collect(m, 1, 1, o[..5]) ==
      [Tile(2, 1, data), Tile(2, 2, data), Tile(1, 2, data), Tile(0, 1, data), Tile(1, 0, data)];
  }

  /** Ignoring water, neighbourhood is mutual: if `n` is a neighbour of a
      non-water tile `t` that sits in its own cell, `t` is a neighbour of `n`. */
  lemma NeighbourRelationSymmetric(m: TileMap, t: Tile, n: Tile)
    requires m.Valid() && m.Stamped()
    requires IsValidTile(m, t.xIndex, t.zIndex) && m.cells[t.xIndex][t.zIndex] == Some(t)
    requires t.tileData.terrainType != Water
    requires n in t.NeighbourTiles(m)
    ensures t in n.NeighbourTiles(m)
  {
    NeighboursSound(m, t);
    var k := Direction(t, n);
    OppositeOffset(t.xIndex, t.zIndex, k);
    assert Target(n.xIndex, n.zIndex, (k + 3) % 6) == Coord(t.xIndex, t.zIndex);
    NeighboursComplete(m, n);
  }

  /** The cost of a move depends only on the tile moved into. */
  lemma CostToIgnoresSource(a: Tile, b: Tile, neighbor: Option<AStarNode>)
    ensures a.CostTo(neighbor) == b.CostTo(neighbor)
  {
  }
}
