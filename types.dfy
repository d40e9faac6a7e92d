/** Value types shared by the grid and the engine. */
module Types {
  /** A grid coordinate: `rIndex` is the row, `cIndex` the column.
      Plain integers, because the engine also returns `Location(-1, -1)`
      as a "no location" sentinel. */
  datatype Location = Location(rIndex: int, cIndex: int)

  /** The four directions a player can push the tiles. */
  datatype MoveDirection = Up | Down | Left | Right
}
