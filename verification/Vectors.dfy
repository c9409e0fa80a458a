/** Points of the block lattice, and of its ground plane. */
module Vectors {
  /** How far the map reaches from its centre, and the edge of a block, both in nodes. */
  const MAX_MAP_GENERATION_LIMIT := 31000
  const MAP_BLOCKSIZE := 16

  datatype V3 = V3(x: int, y: int, z: int)
  datatype V2 = V2(x: int, y: int)

  /** The column of blocks a block belongs to. */
  function Column(p: V3): V2 {
    V2(p.x, p.z)
  }
}
