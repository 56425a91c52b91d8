/**
 * The per-terrain configuration record (a Unity ScriptableObject in the game).
 * Only the two fields the map logic reads are kept: the terrain kind and the
 * travel cost. Costs are natural numbers instead of floats.
 */
module Terrain {
  /** Water is the only terrain the game logic tests for; the remaining
      members of the enumeration are distinguished only by name. */
  datatype TerrainType = Water | Land(name: string)

  datatype TileData = TileData(terrainType: TerrainType, travelCost: nat)
}
