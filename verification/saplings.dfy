/** Which sapling the woodcutter replants for a felled log
    (GetSaplingPermuationFromLogPermutation). */
module Saplings {
  import opened Types
  import opened BlockIds

  /** A resolved sapling permutation: the generic "minecraft:sapling" block
      with a `sapling_type` state, or a sapling block type of its own. */
  datatype Sapling = LegacySapling(saplingType: string) | SaplingBlock(typeId: TypeId)

  const CherrySapling: TypeId := "minecraft:cherry_sapling"
  const MangrovePropagule: TypeId := "minecraft:mangrove_propagule"

  /** The `sapling_type` values the host's generic sapling block accepts. */
  const VanillaSaplingTypes: set<string> := {"oak", "spruce", "birch", "jungle", "acacia", "dark_oak"}

  /** The log-to-sapling_type table as written, in its iteration order.
      The jungle entry reads "mjungle". */
  const LogToSaplingType: seq<(TypeId, string)> := [
    (OakLog, "oak"), (BirchLog, "birch"), (SpruceLog, "spruce"),
    (JungleLog, "mjungle"), (AcaciaLog, "acacia"), (DarkOakLog, "dark_oak")
  ]

  /** The same table with the jungle entry spelled as the host expects. */
  const IntendedLogToSaplingType: seq<(TypeId, string)> := [
    (OakLog, "oak"), (BirchLog, "birch"), (SpruceLog, "spruce"),
    (JungleLog, "jungle"), (AcaciaLog, "acacia"), (DarkOakLog, "dark_oak")
  ]

  /** The value of the first table entry whose key is `log`. */
  function Lookup(table: seq<(TypeId, string)>, log: TypeId): (r: Option<string>)
    ensures r.Some? <==> exists i :: 0 <= i < |table| && table[i].0 == log
    ensures r.Some? ==> (log, r.value) in table
    ensures forall i :: 0 <= i < |table| && table[i].0 == log && (forall j :: 0 <= j < i ==> table[j].0 != log) ==>
      r == Some(table[i].1)
  {
    if |table| == 0 then None
    else if table[0].0 == log then Some(table[0].1)
    else
      var rest := Lookup(table[1..], log);
      assert forall i :: 1 <= i < |table| ==> table[i] == table[1..][i - 1];
      rest
  }

  /** No key occurs twice, so the first matching entry is the only one. */
  predicate DistinctKeys(table: seq<(TypeId, string)>) {
    forall i, j :: 0 <= i < j < |table| ==> table[i].0 != table[j].0
  }

  /** The sapling lookup over a given table: table entries first, then the
      two log types whose saplings are blocks of their own. */
  function SaplingFrom(table: seq<(TypeId, string)>, log: TypeId): Option<Sapling> {
    match Lookup(table, log)
    case Some(t) => Some(LegacySapling(t))
    case None =>
      if log == CherryLog then Some(SaplingBlock(CherrySapling))
      else if log == MangroveLog then Some(SaplingBlock(MangrovePropagule))
      else None
  }

  /** The sapling the source resolves for a log, as written. Every log the
      search accepts has one except mangrove roots. */
  function SaplingForLog(log: TypeId): (r: Option<Sapling>)
    ensures r.Some? <==> log in LogTypeIdsToFind && log != MangroveRoots
    ensures log == CherryLog ==> r == Some(SaplingBlock(CherrySapling))
    ensures log == MangroveLog ==> r == Some(SaplingBlock(MangrovePropagule))
    ensures log == JungleLog ==> r == Some(LegacySapling("mjungle"))
    ensures forall i :: 0 <= i < |LogToSaplingType| && LogToSaplingType[i].0 == log ==>
      r == Some(LegacySapling(LogToSaplingType[i].1))
  {
    SaplingDomain(LogToSaplingType, log);
    SaplingFrom(LogToSaplingType, log)
  }

  /** A table keyed by the six generic-sapling logs answers exactly the
      searched-for logs other than mangrove roots. */
  lemma SaplingDomain(table: seq<(TypeId, string)>, log: TypeId)
    requires |table| == 6
    requires table[0].0 == OakLog && table[1].0 == BirchLog && table[2].0 == SpruceLog
    requires table[3].0 == JungleLog && table[4].0 == AcaciaLog && table[5].0 == DarkOakLog
    ensures SaplingFrom(table, log).Some? <==> log in LogTypeIdsToFind && log != MangroveRoots
    ensures DistinctKeys(table)
  {
    assert MangroveRoots[10] == 'm' && CherryLog[10] == 'c';
    assert OakLog[10] == 'o' && BirchLog[10] == 'b' && SpruceLog[10] == 's';
    assert JungleLog[10] == 'j' && AcaciaLog[10] == 'a' && DarkOakLog[10] == 'd';
    assert |MangroveLog| != |MangroveRoots|;
    if Lookup(table, log).Some? {
      var i :| 0 <= i < |table| && table[i].0 == log;
      assert log in LogTypeIdsToFind;
    }
  }

  /** The as-written table hands the host a `sapling_type` it does not know,
      and one that does not name the log's species. */
  lemma JungleSaplingTypeIsUnknown()
    ensures SaplingForLog(JungleLog).Some?
    ensures SaplingForLog(JungleLog).value.saplingType !in VanillaSaplingTypes
    ensures JungleLog != "minecraft:" + SaplingForLog(JungleLog).value.saplingType + "_log"
  {
    assert "mjungle" != "jungle";
    assert ("minecraft:" + "mjungle" + "_log")[10] != JungleLog[10];
  }

  /** The corrected lookup: every generic-sapling answer is a `sapling_type`
      the host accepts and is the species named in the log's type id. */
  function IntendedSaplingForLog(log: TypeId): (r: Option<Sapling>)
    ensures r.Some? <==> log in LogTypeIdsToFind && log != MangroveRoots
    ensures r.Some? && r.value.LegacySapling? ==>
      && r.value.saplingType in VanillaSaplingTypes
      && log == "minecraft:" + r.value.saplingType + "_log"
    ensures forall i :: 0 <= i < |IntendedLogToSaplingType| && IntendedLogToSaplingType[i].0 == log ==>
      r == Some(LegacySapling(IntendedLogToSaplingType[i].1))
  {
    IntendedTableNamesSpecies();
    SaplingDomain(IntendedLogToSaplingType, log);
    SaplingFrom(IntendedLogToSaplingType, log)
  }

  /** Every entry of the corrected table is "minecraft:<type>_log" to <type>. */
  lemma IntendedTableNamesSpecies()
    ensures forall e :: e in IntendedLogToSaplingType ==>
      e.1 in VanillaSaplingTypes && e.0 == "minecraft:" + e.1 + "_log"
  {
    assert OakLog == "minecraft:" + "oak" + "_log";
    assert BirchLog == "minecraft:" + "birch" + "_log";
    assert SpruceLog == "minecraft:" + "spruce" + "_log";
    assert JungleLog == "minecraft:" + "jungle" + "_log";
    assert AcaciaLog == "minecraft:" + "acacia" + "_log";
    assert DarkOakLog == "minecraft:" + "dark_oak" + "_log";
  }

  /** The table logs whose replanting goes through the generic sapling
      block: every key but dark oak, which is planted by a path of its own. */
  predicate GenericReplant(log: TypeId) {
    log in {OakLog, BirchLog, SpruceLog, JungleLog, AcaciaLog}
  }

  /** Whether the host can resolve a sapling. `hostTypes` is the set of
      `sapling_type` values the host's generic "minecraft:sapling" block
      accepts: the six of `VanillaSaplingTypes` on a host that still has
      that block, none on a host that has only per-species sapling blocks,
      where resolving the generic block itself throws. */
  predicate HostAccepts(s: Sapling, hostTypes: set<string>) {
    s.LegacySapling? ==> s.saplingType in hostTypes
  }

  /** Replanting after a felling that is not dark oak: when the ray down
      from the target hits dirt or grass, the log's sapling is resolved, and
      a `sapling_type` the host does not accept makes that resolution throw. */
  predicate SaplingRejected(sapling: Option<Sapling>, log: TypeId, ground: Option<TypeId>, hostTypes: set<string>) {
    && log != DarkOakLog
    && ground.Some? && (ground.value == Dirt || ground.value == Grass)
    && sapling.Some? && !HostAccepts(sapling.value, hostTypes)
  }

  /** The generic-sapling logs resolve, under either table, to a
      `sapling_type` of the generic block; the other logs never do. */
  lemma GenericReplantIsLegacy(log: TypeId)
    ensures GenericReplant(log) ==>
      && SaplingForLog(log).Some? && SaplingForLog(log).value.LegacySapling?
      && IntendedSaplingForLog(log).Some? && IntendedSaplingForLog(log).value.LegacySapling?
    ensures !GenericReplant(log) && log != DarkOakLog ==>
      && (SaplingForLog(log).None? || SaplingForLog(log).value.SaplingBlock?)
      && (IntendedSaplingForLog(log).None? || IntendedSaplingForLog(log).value.SaplingBlock?)
  {
    TableReplantIsLegacy(LogToSaplingType, log);
    TableReplantIsLegacy(IntendedLogToSaplingType, log);
  }

  /** A table keyed by the six generic-sapling logs answers exactly the
      generic-sapling logs with a `sapling_type`. */
  lemma TableReplantIsLegacy(table: seq<(TypeId, string)>, log: TypeId)
    requires |table| == 6
    requires table[0].0 == OakLog && table[1].0 == BirchLog && table[2].0 == SpruceLog
    requires table[3].0 == JungleLog && table[4].0 == AcaciaLog && table[5].0 == DarkOakLog
    ensures GenericReplant(log) ==> SaplingFrom(table, log).Some? && SaplingFrom(table, log).value.LegacySapling?
    ensures !GenericReplant(log) && log != DarkOakLog ==>
      SaplingFrom(table, log).None? || SaplingFrom(table, log).value.SaplingBlock?
  {
    if !GenericReplant(log) && log != DarkOakLog {
      assert forall i :: 0 <= i < |table| ==> table[i].0 != log;
    } else if log == OakLog {
      assert table[0].0 == log;
    } else if log == BirchLog {
      assert table[1].0 == log;
    } else if log == SpruceLog {
      assert table[2].0 == log;
    } else if log == JungleLog {
      assert table[3].0 == log;
    } else if log == AcaciaLog {
      assert table[4].0 == log;
    }
  }

  /** As written, on dirt or grass: the jungle replanting is rejected by
      any host that does not know "mjungle"; on a host whose generic block
      accepts the six vanilla values it is the only rejected log; on a host
      without the generic block every generic-sapling log is rejected. */
  lemma JungleReplantIsRejected(log: TypeId, ground: Option<TypeId>, hostTypes: set<string>)
    requires ground == Some(Dirt) || ground == Some(Grass)
    ensures log == JungleLog ==> (SaplingRejected(SaplingForLog(log), log, ground, hostTypes) <==> "mjungle" !in hostTypes)
    ensures VanillaSaplingTypes <= hostTypes && "mjungle" !in hostTypes ==>
      (SaplingRejected(SaplingForLog(log), log, ground, hostTypes) <==> log == JungleLog)
    ensures hostTypes == {} ==> (SaplingRejected(SaplingForLog(log), log, ground, hostTypes) <==> GenericReplant(log))
  {
    GenericReplantIsLegacy(log);
    if log == JungleLog {
      JungleSaplingTypeIsUnknown();
    } else if log == OakLog {
      assert LogToSaplingType[0].0 == log;
    } else if log == BirchLog {
      assert LogToSaplingType[1].0 == log;
    } else if log == SpruceLog {
      assert LogToSaplingType[2].0 == log;
    } else if log == AcaciaLog {
      assert LogToSaplingType[4].0 == log;
    }
  }

  /** With the corrected table, on a host whose generic block accepts the
      six vanilla values no replanting is rejected. On a host without the
      generic block the correction does not help: every generic-sapling log
      on dirt or grass is still rejected. */
  lemma IntendedSaplingNeverRejected(log: TypeId, ground: Option<TypeId>, hostTypes: set<string>)
    ensures VanillaSaplingTypes <= hostTypes ==> !SaplingRejected(IntendedSaplingForLog(log), log, ground, hostTypes)
    ensures hostTypes == {} && (ground == Some(Dirt) || ground == Some(Grass)) ==>
      (SaplingRejected(IntendedSaplingForLog(log), log, ground, hostTypes) <==> GenericReplant(log))
  {
    GenericReplantIsLegacy(log);
  }
}
