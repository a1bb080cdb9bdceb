/** The search job's body (GetBlockFromFloodFill) and the tree check
    applied to what it finds (IsLogPartOfAValidTree). The flood-fill
    iterator and GetAllConnectedBlocksOfType are not part of this model:
    their output enters as a sequence. */
module TreeSearch {
  import opened Types
  import opened BlockIds

  /** The job accepts an iterated entry: a block, still valid, whose type
      is one of the sought types. Tags are not consulted. */
  predicate Accepts(entry: Option<Block>, sought: seq<TypeId>) {
    entry.Some? && entry.value.valid && entry.value.typeId in sought
  }

  /** GetBlockFromFloodFill run to completion over what the iterator
      produces. It returns the first accepted entry, or None once the iterator
      is exhausted; `passed` counts the job's yields, one per entry it
      passes over. */
  method GetBlockFromFloodFill(iterated: seq<Option<Block>>, sought: seq<TypeId>)
      returns (found: Option<Block>, passed: nat)
    ensures found.Some? ==>
      && passed < |iterated|
      && iterated[passed] == found
      && Accepts(found, sought)
    ensures found.None? ==> passed == |iterated|
    ensures forall j :: 0 <= j < passed ==> !Accepts(iterated[j], sought)
  {
    found := None;
    passed := 0;
    while passed < |iterated|
      invariant passed <= |iterated|
      invariant forall j :: 0 <= j < passed ==> !Accepts(iterated[j], sought)
    {
      var entry := iterated[passed];
      if entry.Some? && entry.value.valid && entry.value.typeId in sought {
        found := entry;
        return;
      }
      passed := passed + 1;
    }
  }

  const MinConnectedLeaves: nat := 4

  /** The number of entries of `types` that are one of `kinds`, counted
      from the back. */
  function CountOf(types: seq<TypeId>, kinds: seq<TypeId>): nat {
    if |types| == 0 then 0
    else CountOf(types[..|types| - 1], kinds) + (if types[|types| - 1] in kinds then 1 else 0)
  }

  /** The positions of `types` holding one of `kinds`. */
  ghost function IndicesOf(types: seq<TypeId>, kinds: seq<TypeId>): set<int> {
    set i | 0 <= i < |types| && types[i] in kinds
  }

  /** Appending one entry adds its position exactly when it matches. */
  lemma IndicesOfSnoc(types: seq<TypeId>, kinds: seq<TypeId>)
    requires |types| > 0
    ensures var n := |types| - 1;
      IndicesOf(types, kinds) == IndicesOf(types[..n], kinds) + (if types[n] in kinds then {n} else {})
  {
    var n := |types| - 1;
    var prefix := types[..n];
    forall i | 0 <= i < n
      ensures i in IndicesOf(types, kinds) <==> i in IndicesOf(prefix, kinds)
    {
      assert prefix[i] == types[i];
    }
  }

  /** The back-to-front count is the number of matching positions. */
  lemma {:induction false} CountOfIsIndexCount(types: seq<TypeId>, kinds: seq<TypeId>)
    ensures CountOf(types, kinds) == |IndicesOf(types, kinds)|
  {
    if |types| > 0 {
      var n := |types| - 1;
      CountOfIsIndexCount(types[..n], kinds);
      IndicesOfSnoc(types, kinds);
      assert n !in IndicesOf(types[..n], kinds);
    }
  }

  /** The positions of the connected blocks that are leaves. */
  ghost function LeafIndices(types: seq<TypeId>): set<int> {
    IndicesOf(types, LeavesNames)
  }

  /** IsLogPartOfAValidTree over the blocks connected to `log` (its own type
      plus leaves): valid exactly when at least four of them are leaves.
      The result does not depend on the log's type: the dark oak branch adds
      no condition. */
  function IsLogPartOfAValidTree(log: Block, connected: seq<TypeId>): (r: bool)
    ensures r <==> |LeafIndices(connected)| >= MinConnectedLeaves
  {
    CountOfIsIndexCount(connected, LeavesNames);
    CountOf(connected, LeavesNames) >= MinConnectedLeaves
  }
}
