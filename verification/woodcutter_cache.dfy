/** The class-level list of live woodcutters (Woodcutter.Cache) and the
    operations on it: the constructor's registration, CreateEntity's id
    counter, GetFromCache, ClearFromCache and OnWoodcutterManagerBlockBroke. */
module WoodcutterCache {
  import opened Types
  import opened WoodcutterRecord

  /** The Woodcutter constructor: a fresh record in state Idle, ready, with
      no entity, no `Id`, and the given manager block, appended to the cache. */
  function NewWoodcutter(cache: seq<Woodcutter>, instance: nat, manager: Option<Location>): (r: seq<Woodcutter>)
    ensures |r| == |cache| + 1 && r[..|cache|] == cache
    ensures r[|cache|].instance == instance && r[|cache|].manager == manager
    ensures r[|cache|].state == Idle && r[|cache|].ready && r[|cache|].id.None?
    ensures r[|cache|].entity.None? && r[|cache|].carrying == map[] && r[|cache|].ignore == []
    ensures r[|cache|].target.None? && r[|cache|].failedWalks == 0 && !r[|cache|].loading
  {
    cache + [Woodcutter(instance, None, Idle, None, manager, None, map[], 0, [], false, true)]
  }

  /** CreateEntity's effect: the record with its new entity, and the world's
      next-id counter afterwards. */
  datatype Created = Created(w: Woodcutter, nextId: Option<int>)

  /** CreateEntity: with no world counter nothing happens. Otherwise the
      counter is bumped and a valid entity is spawned carrying the old
      counter as its id. With a manager block its coordinates, the current
      state and the dialog flag are stored too; without one the manager
      access throws right after the id is stored. */
  function CreateEntity(w: Woodcutter, nextId: Option<int>): (r: Created)
    ensures nextId.None? ==> r == Created(w, None)
    ensures nextId.Some? ==>
      && r.nextId == Some(nextId.value + 1)
      && EntityValid(r.w)
      && r.w.entity.value.props.id == nextId
    ensures nextId.Some? && w.manager.Some? ==>
      && r.w.entity.value.props.managerX == Some(w.manager.value.x)
      && r.w.entity.value.props.managerY == Some(w.manager.value.y)
      && r.w.entity.value.props.managerZ == Some(w.manager.value.z)
      && PersistedState(r.w) == Some(w.state)
    ensures r.w.(entity := w.entity) == w
  {
    match nextId
    case None => Created(w, None)
    case Some(k) =>
      var withId := UnsetProps.(id := Some(k));
      match w.manager
      case None => Created(w.(entity := Some(Entity(true, withId))), Some(k + 1))
      case Some(m) =>
        var stored := withId.(managerX := Some(m.x), managerY := Some(m.y), managerZ := Some(m.z),
                              stateName := Some(w.state), dialogInitiated := Some(true));
        Created(w.(entity := Some(Entity(true, stored))), Some(k + 1))
  }

  /** The ids handed out by a run of CreateEntity calls on `ws`, starting
      from counter `next`. */
  function CreateAll(ws: seq<Woodcutter>, next: int): (ids: seq<int>)
    decreases |ws|
  {
    if |ws| == 0 then []
    else
      var c := CreateEntity(ws[0], Some(next));
      [c.w.entity.value.props.id.value] + CreateAll(ws[1..], c.nextId.value)
  }

  /** The counter is monotone: successive creations get consecutive, hence
      distinct and strictly increasing, ids starting at the counter. */
  lemma {:induction false} CreatedIdsIncrease(ws: seq<Woodcutter>, next: int)
    ensures |CreateAll(ws, next)| == |ws|
    ensures forall i :: 0 <= i < |ws| ==> CreateAll(ws, next)[i] == next + i
    ensures forall i, j :: 0 <= i < j < |ws| ==> CreateAll(ws, next)[i] < CreateAll(ws, next)[j]
  {
    if |ws| > 0 {
      CreatedIdsIncrease(ws[1..], next + 1);
      var ids := CreateAll(ws, next);
      assert ids == [next] + CreateAll(ws[1..], next + 1);
      forall i | 0 <= i < |ws|
        ensures ids[i] == next + i
      {
        if i > 0 {
          assert ids[i] == CreateAll(ws[1..], next + 1)[i - 1];
        }
      }
    }
  }

  /** The woodcutter's `Id` is set and equals the entity's "nox:id". */
  predicate HasId(w: Woodcutter, entityId: Option<int>) {
    w.id.Some? && w.id == entityId
  }

  /** GetFromCache: the first cached woodcutter whose `Id` is set and equals
      the entity's "nox:id", if both are set. */
  function GetFromCache(cache: seq<Woodcutter>, entityId: Option<int>): (r: Option<Woodcutter>)
    ensures r.Some? ==> r.value in cache && HasId(r.value, entityId)
    ensures r.None? <==> forall w :: w in cache ==> !HasId(w, entityId)
    ensures r.Some? ==> exists k :: 0 <= k < |cache| && cache[k] == r.value && NoIdBefore(cache, k, entityId)
  {
    if |cache| == 0 then None
    else if HasId(cache[0], entityId) then Some(cache[0])
    else
      var r := GetFromCache(cache[1..], entityId);
      if r.None? then r
      else
        var k :| 0 <= k < |cache[1..]| && cache[1..][k] == r.value && NoIdBefore(cache[1..], k, entityId);
        NoIdBeforeShift(cache, k, entityId);
        r
  }

  /** A first match in the tail, behind a head without the id, is the
      first match of the whole cache. */
  lemma NoIdBeforeShift(cache: seq<Woodcutter>, k: nat, entityId: Option<int>)
    requires 0 < |cache| && k < |cache| - 1 && !HasId(cache[0], entityId)
    requires NoIdBefore(cache[1..], k, entityId)
    ensures cache[k + 1] == cache[1..][k] && NoIdBefore(cache, k + 1, entityId)
  {
    forall j | 0 < j < k + 1
      ensures !HasId(cache[j], entityId)
    {
      assert cache[j] == cache[1..][j - 1];
    }
  }

  /** No entry before position `k` has the id. */
  predicate NoIdBefore(cache: seq<Woodcutter>, k: nat, entityId: Option<int>)
    requires k <= |cache|
  {
    forall j :: 0 <= j < k ==> !HasId(cache[j], entityId)
  }

  /** Two entries that both have the id with none before them are one. */
  lemma FirstMatchIsUnique(cache: seq<Woodcutter>, k: nat, i: nat, entityId: Option<int>)
    requires k < |cache| && i < |cache|
    requires HasId(cache[k], entityId) && NoIdBefore(cache, k, entityId)
    requires HasId(cache[i], entityId) && NoIdBefore(cache, i, entityId)
    ensures k == i
  {
  }

  /** Nothing assigns `Id`, so a cache built by the constructor never yields
      a match: every loaded entity is treated as unknown. */
  lemma {:induction false} ConstructedCacheNeverMatches(cache: seq<Woodcutter>, instance: nat,
                                                        manager: Option<Location>, entityId: Option<int>)
    requires forall w :: w in cache ==> w.id.None?
    ensures forall w :: w in NewWoodcutter(cache, instance, manager) ==> w.id.None?
    ensures GetFromCache(NewWoodcutter(cache, instance, manager), entityId).None?
  {
    var c := NewWoodcutter(cache, instance, manager);
    forall w | w in c
      ensures w.id.None?
    {
      var i :| 0 <= i < |c| && c[i] == w;
      if i < |cache| {
        assert c[i] == cache[i];
      }
    }
  }

  /** The cache after one constructor call per manager, in order, the i-th
      woodcutter being instance i. */
  function BuildCache(managers: seq<Option<Location>>): seq<Woodcutter>
    decreases |managers|
  {
    if |managers| == 0 then []
    else
      var n := |managers| - 1;
      NewWoodcutter(BuildCache(managers[..n]), n, managers[n])
  }

  /** However many woodcutters the constructor has made, GetFromCache
      finds none of them, whatever id the entity carries. */
  lemma {:induction false} BuiltCacheNeverMatches(managers: seq<Option<Location>>, entityId: Option<int>)
    ensures |BuildCache(managers)| == |managers|
    ensures forall w :: w in BuildCache(managers) ==> w.id.None?
    ensures GetFromCache(BuildCache(managers), entityId).None?
    decreases |managers|
  {
    if |managers| > 0 {
      var n := |managers| - 1;
      BuiltCacheNeverMatches(managers[..n], entityId);
      ConstructedCacheNeverMatches(BuildCache(managers[..n]), n, managers[n], entityId);
    }
  }

  /** SetEntity as its `Id` field is described, "the nox:id loaded from the
      Entity": the in-memory id is taken from the entity's stored id. */
  function WithEntityId(w: Woodcutter): (r: Woodcutter)
    ensures w.entity.Some? ==> r.id == w.entity.value.props.id
    ensures w.entity.Some? && w.entity.value.props.id.Some? ==> HasId(r, w.entity.value.props.id)
    ensures r.(id := w.id) == w
  {
    if w.entity.Some? then w.(id := w.entity.value.props.id) else w
  }

  /** With the id taken from the entity, reloading the entity of a cached
      woodcutter finds that woodcutter, unless an earlier one claims the
      same id; the entity-load handler then leaves it alone. */
  lemma ReloadedEntityIsFound(cache: seq<Woodcutter>, i: nat)
    requires i < |cache| && cache[i].entity.Some? && cache[i].entity.value.props.id.Some?
    requires forall j :: 0 <= j < i ==> !HasId(cache[j], cache[i].entity.value.props.id)
    ensures var c := cache[i := WithEntityId(cache[i])];
      GetFromCache(c, cache[i].entity.value.props.id) == Some(WithEntityId(cache[i]))
  {
    var id := cache[i].entity.value.props.id;
    var c := cache[i := WithEntityId(cache[i])];
    assert HasId(c[i], id);
    assert NoIdBefore(c, i, id) by {
      forall j | 0 <= j < i
        ensures !HasId(c[j], id)
      {
        assert c[j] == cache[j];
      }
    }
    assert c[i] in c;
    var r := GetFromCache(c, id);
    assert r.Some? && HasId(r.value, id);
    var k :| 0 <= k < |c| && c[k] == r.value && NoIdBefore(c, k, id);
    FirstMatchIsUnique(c, k, i, id);
  }

  /** The position of the first entry that is the instance `instance`. */
  function IndexOfInstance(cache: seq<Woodcutter>, instance: nat): (r: Option<nat>)
    ensures r.Some? ==> r.value < |cache| && cache[r.value].instance == instance
    ensures r.Some? ==> forall j :: 0 <= j < r.value ==> cache[j].instance != instance
    ensures r.None? ==> forall j :: 0 <= j < |cache| ==> cache[j].instance != instance
  {
    if |cache| == 0 then None
    else if cache[0].instance == instance then Some(0)
    else
      match IndexOfInstance(cache[1..], instance)
      case None => None
      case Some(i) => Some(i + 1)
  }

  /** The entity's `remove()`: the entity no longer exists in the world. */
  function RemoveEntity(w: Woodcutter): (r: Woodcutter)
    ensures !EntityValid(r)
    ensures r.(entity := w.entity) == w
  {
    if w.entity.Some? then WithEntityValid(w, false) else w
  }

  /** ClearFromCache: the first entry that is `instance` loses its entity,
      but the cache keeps its length and every instance, because the
      entry is only sliced, never spliced out. */
  function ClearFromCache(cache: seq<Woodcutter>, instance: nat): (r: seq<Woodcutter>)
    ensures |r| == |cache|
    ensures forall j :: 0 <= j < |r| ==> r[j].instance == cache[j].instance
    ensures forall j :: 0 <= j < |r| && cache[j].instance != instance ==> r[j] == cache[j]
    ensures forall j :: 0 <= j < |r| && cache[j].instance == instance ==>
      (r[j] == cache[j] || !EntityValid(r[j]))
    ensures IndexOfInstance(cache, instance).Some? ==> !EntityValid(r[IndexOfInstance(cache, instance).value])
    ensures IndexOfInstance(cache, instance).Some? ==>
      r[IndexOfInstance(cache, instance).value] == RemoveEntity(cache[IndexOfInstance(cache, instance).value])
    ensures IndexOfInstance(cache, instance).None? ==> r == cache
  {
    match IndexOfInstance(cache, instance)
    case None => cache
    case Some(i) => cache[i := RemoveEntity(cache[i])]
  }

  /** After clearing, the instance is still cached at the same position,
      with its entity gone and every other field and entry as before, so a
      second clear changes nothing more. */
  lemma ClearedInstanceStaysCached(cache: seq<Woodcutter>, instance: nat)
    ensures IndexOfInstance(ClearFromCache(cache, instance), instance) == IndexOfInstance(cache, instance)
    ensures IndexOfInstance(cache, instance).Some? ==>
      var i := IndexOfInstance(cache, instance).value;
      && ClearFromCache(cache, instance)[i].(entity := cache[i].entity) == cache[i]
      && !EntityValid(ClearFromCache(cache, instance)[i])
      && ClearFromCache(cache, instance)[..i] == cache[..i]
      && ClearFromCache(cache, instance)[i + 1..] == cache[i + 1..]
    ensures ClearFromCache(ClearFromCache(cache, instance), instance) == ClearFromCache(cache, instance)
  {
    var r := ClearFromCache(cache, instance);
    IndexOfInstanceDependsOnlyOnInstances(r, cache, instance);
    if IndexOfInstance(cache, instance).Some? {
      var i := IndexOfInstance(cache, instance).value;
      assert r[..i] == cache[..i];
      assert r[i + 1..] == cache[i + 1..];
      assert RemoveEntity(r[i]) == r[i];
      assert r[i := RemoveEntity(r[i])] == r;
    }
  }

  /** Two caches with the same instances in the same places locate an
      instance at the same position. */
  lemma {:induction false} IndexOfInstanceDependsOnlyOnInstances(a: seq<Woodcutter>, b: seq<Woodcutter>, instance: nat)
    requires |a| == |b| && forall j :: 0 <= j < |a| ==> a[j].instance == b[j].instance
    ensures IndexOfInstance(a, instance) == IndexOfInstance(b, instance)
    decreases |a|
  {
    if |a| > 0 && a[0].instance != instance {
      IndexOfInstanceDependsOnlyOnInstances(a[1..], b[1..], instance);
    }
  }

  /** A manager location as read back from the entity's properties. A
      coordinate that was never stored reads as NaN and equals nothing;
      here it is None. */
  datatype StoredLocation = StoredLocation(x: Option<int>, y: Option<int>, z: Option<int>)

  /** GetLocatioNofWoodcutterManagerBlockFromProperties: None unless the
      entity is valid. */
  function ManagerLocationFromProps(w: Woodcutter): Option<StoredLocation> {
    if EntityValid(w) then
      var p := w.entity.value.props;
      Some(StoredLocation(p.managerX, p.managerY, p.managerZ))
    else None
  }

  /** Vector3Utils.equals between a stored location and a block location. */
  predicate SameLocation(s: StoredLocation, l: Location) {
    s.x == Some(l.x) && s.y == Some(l.y) && s.z == Some(l.z)
  }

  /** OnWoodcutterManagerBlockBroke keeps a woodcutter only when its stored
      manager location can be read and is not the broken one. */
  predicate KeptAfterBreak(w: Woodcutter, broken: Location) {
    ManagerLocationFromProps(w).Some? && !SameLocation(ManagerLocationFromProps(w).value, broken)
  }

  /** The kept woodcutters, in cache order. */
  function Survivors(cache: seq<Woodcutter>, broken: Location): seq<Woodcutter> {
    if |cache| == 0 then []
    else
      var rest := Survivors(cache[..|cache| - 1], broken);
      if KeptAfterBreak(cache[|cache| - 1], broken) then rest + [cache[|cache| - 1]] else rest
  }

  /** The dropped woodcutters, in cache order, after Remove(). */
  function Casualties(cache: seq<Woodcutter>, broken: Location): seq<Woodcutter> {
    if |cache| == 0 then []
    else
      var rest := Casualties(cache[..|cache| - 1], broken);
      if KeptAfterBreak(cache[|cache| - 1], broken) then rest else rest + [Remove(cache[|cache| - 1])]
  }

  /** OnWoodcutterManagerBlockBroke: the new cache is the order-preserving
      sublist of kept woodcutters; every other one is removed. */
  method OnWoodcutterManagerBlockBroke(cache: seq<Woodcutter>, broken: Location)
      returns (kept: seq<Woodcutter>, removed: seq<Woodcutter>)
    ensures kept == Survivors(cache, broken) && removed == Casualties(cache, broken)
    ensures |kept| + |removed| == |cache|
    ensures forall w :: w in kept <==> w in cache && KeptAfterBreak(w, broken)
    ensures forall w :: w in removed ==> !EntityValid(w)
  {
    kept := [];
    removed := [];
    var i := 0;
    while i < |cache|
      invariant 0 <= i <= |cache|
      invariant kept == Survivors(cache[..i], broken) && removed == Casualties(cache[..i], broken)
      invariant |kept| + |removed| == i
      invariant forall w :: w in kept <==> w in cache[..i] && KeptAfterBreak(w, broken)
      invariant forall w :: w in removed ==> !EntityValid(w)
    {
      assert cache[..i + 1][..i] == cache[..i];
      var w := cache[i];
      if ManagerLocationFromProps(w).Some? {
        if SameLocation(ManagerLocationFromProps(w).value, broken) {
          removed := removed + [Remove(w)];
        } else {
          kept := kept + [w];
        }
      } else {
        removed := removed + [Remove(w)];
      }
      assert cache[..i + 1] == cache[..i] + [w];
      i := i + 1;
    }
    assert cache[..i] == cache;
  }

  /** Survivors distributes over concatenation, so it keeps cache order. */
  lemma {:induction false} SurvivorsAppend(a: seq<Woodcutter>, b: seq<Woodcutter>, broken: Location)
    ensures Survivors(a + b, broken) == Survivors(a, broken) + Survivors(b, broken)
    decreases |b|
  {
    if |b| == 0 {
      assert a + b == a;
    } else {
      var b' := b[..|b| - 1];
      var last := b[|b| - 1];
      assert (a + b)[..|a + b| - 1] == a + b';
      assert (a + b)[|a + b| - 1] == last;
      SurvivorsAppend(a, b', broken);
      if KeptAfterBreak(last, broken) {
        assert Survivors(a + b, broken) == Survivors(a + b', broken) + [last];
        assert Survivors(b, broken) == Survivors(b', broken) + [last];
      }
    }
  }

  /** Every survivor is itself kept. */
  lemma {:induction false} SurvivorsAreKept(cache: seq<Woodcutter>, broken: Location)
    ensures forall w :: w in Survivors(cache, broken) ==> KeptAfterBreak(w, broken)
  {
    if |cache| > 0 {
      SurvivorsAreKept(cache[..|cache| - 1], broken);
    }
  }

  /** Filtering by the same predicate twice changes nothing more. */
  lemma {:induction false} SurvivorsOfKept(cache: seq<Woodcutter>, broken: Location)
    requires forall w :: w in cache ==> KeptAfterBreak(w, broken)
    ensures Survivors(cache, broken) == cache
    ensures Casualties(cache, broken) == []
  {
    if |cache| > 0 {
      var n := |cache| - 1;
      assert cache[n] in cache;
      assert forall w :: w in cache[..n] ==> w in cache;
      SurvivorsOfKept(cache[..n], broken);
      assert cache[..n] + [cache[n]] == cache;
    }
  }

  /** Breaking the same manager block twice: the second break keeps the
      whole cache and removes nobody. */
  lemma BreakIsIdempotent(cache: seq<Woodcutter>, broken: Location)
    ensures Survivors(Survivors(cache, broken), broken) == Survivors(cache, broken)
    ensures Casualties(Survivors(cache, broken), broken) == []
  {
    SurvivorsAreKept(cache, broken);
    SurvivorsOfKept(Survivors(cache, broken), broken);
  }
}
