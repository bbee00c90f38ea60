/**
 * The game-data records that the level and inventory logic consume
 * (src/serialize.rs). Only the fields that logic reads are kept; the
 * float tuning values and the grid size of a level are not part of this model.
 */
module Serialize {
  import opened Primitives

  /** Reference to a buildable item by its identifier (`BuildableRef(String)`). */
  datatype BuildableRef = BuildableRef(id: string)

  /** Description of one level: its display name and its starting inventory. */
  datatype LevelDesc = LevelDesc(name: string, inventory: map<BuildableRef, u32>)
}
