/** Value types shared by the woodcutter model: optional values, block
    coordinates and block handles as the host world reports them. */
module Types {

  /** A value that may be absent: `null` or `undefined` in the host API. */
  datatype Option<+T> = None | Some(value: T) {

    /** The wrapped value, or `default` when absent. */
    function GetOr(default: T): T {
      match this
      case Some(v) => v
      case None => default
    }
  }

  /** A block type identifier such as "minecraft:oak_log". */
  type TypeId = string

  /** An integer block coordinate; compared by exact equality on all three axes. */
  datatype Location = Location(x: int, y: int, z: int)

  /** A block handle: where it is, what it is, and whether the host
      considered it valid (in a loaded chunk) when it was read. */
  datatype Block = Block(location: Location, typeId: TypeId, valid: bool)
}
