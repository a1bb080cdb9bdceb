/** The block type identifiers the woodcutter searches for, walks through
    and delivers to. */
module BlockIds {
  import opened Types

  const OakLog: TypeId := "minecraft:oak_log"
  const BirchLog: TypeId := "minecraft:birch_log"
  const SpruceLog: TypeId := "minecraft:spruce_log"
  const JungleLog: TypeId := "minecraft:jungle_log"
  const AcaciaLog: TypeId := "minecraft:acacia_log"
  const DarkOakLog: TypeId := "minecraft:dark_oak_log"
  const MangroveLog: TypeId := "minecraft:mangrove_log"
  const MangroveRoots: TypeId := "minecraft:mangrove_roots"
  const CherryLog: TypeId := "minecraft:cherry_log"

  /** The types a search accepts as a log, in declaration order. The
      generic "minecraft:log" is deliberately absent. */
  const LogTypeIdsToFind: seq<TypeId> :=
    [OakLog, BirchLog, SpruceLog, JungleLog, AcaciaLog, DarkOakLog, MangroveLog, MangroveRoots, CherryLog]

  /** The leaf types that count towards "this log is part of a tree". */
  const LeavesNames: seq<TypeId> := [
    "minecraft:oak_leaves",
    "minecraft:birch_leaves",
    "minecraft:acacia_leaves",
    "minecraft:azalea_leaves",
    "minecraft:azalea_leaves_flowered",
    "minecraft:cherry_leaves",
    "minecraft:jungle_leaves",
    "minecraft:spruce_leaves",
    "minecraft:dark_oak_leaves",
    "minecraft:mangrove_leaves"
  ]

  /** The ground a sapling is planted on after a felling. */
  const Dirt: TypeId := "minecraft:dirt"
  const Grass: TypeId := "minecraft:grass"

  /** The only container the woodcutter delivers to. */
  const Chest: TypeId := "minecraft:chest"
}
