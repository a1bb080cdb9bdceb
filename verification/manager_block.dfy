/** The woodcutter manager block (class WoodcutterManagerBlock): its
    instance list with lookup by location, registration on construction,
    spawning the woodcutter, the adjacent-chest search and the settings form. */
module ManagerBlock {
  import opened Types
  import opened BlockIds
  import opened WoodcutterRecord
  import opened WoodcutterCache

  /** One manager block: its block handle, the coordinates recorded at
      construction, and the woodcutter instance assigned to it. */
  datatype ManagerBlock = ManagerBlock(block: Block, storedX: int, storedY: int, storedZ: int, npc: Option<nat>)

  /** GetFromLocation's test: the block is valid and exactly at `loc`. */
  predicate IsAt(m: ManagerBlock, loc: Location) {
    m.block.valid && m.block.location == loc
  }

  /** GetFromLocation: the first cached manager block that is valid and
      exactly at `loc`. */
  function GetFromLocation(cache: seq<ManagerBlock>, loc: Location): (r: Option<ManagerBlock>)
    ensures r.Some? ==> exists i :: 0 <= i < |cache| && cache[i] == r.value
                                   && (forall j :: 0 <= j < i ==> !IsAt(cache[j], loc))
    ensures r.Some? ==> IsAt(r.value, loc)
    ensures r.None? <==> forall j :: 0 <= j < |cache| ==> !IsAt(cache[j], loc)
  {
    if |cache| == 0 then None
    else if IsAt(cache[0], loc) then Some(cache[0])
    else
      var r := GetFromLocation(cache[1..], loc);
      assert forall j :: 1 <= j < |cache| ==> cache[j] == cache[1..][j - 1];
      FirstFromTail(cache, loc, r);
      r
  }

  /** A first match in the tail of a list whose head does not match is a
      first match in the whole list. */
  lemma FirstFromTail(cache: seq<ManagerBlock>, loc: Location, r: Option<ManagerBlock>)
    requires |cache| > 0 && !IsAt(cache[0], loc)
    requires r.Some? ==> exists i :: 0 <= i < |cache[1..]| && cache[1..][i] == r.value
                                   && (forall j :: 0 <= j < i ==> !IsAt(cache[1..][j], loc))
    ensures r.Some? ==> exists i :: 0 <= i < |cache| && cache[i] == r.value
                                   && (forall j :: 0 <= j < i ==> !IsAt(cache[j], loc))
  {
    if r.Some? {
      var i :| 0 <= i < |cache[1..]| && cache[1..][i] == r.value
               && (forall j :: 0 <= j < i ==> !IsAt(cache[1..][j], loc));
      assert cache[i + 1] == r.value;
      forall j | 0 <= j < i + 1
        ensures !IsAt(cache[j], loc)
      {
        if j > 0 {
          assert cache[j] == cache[1..][j - 1];
        }
      }
    }
  }

  /** The constructor's effect: the new manager block and the cache it
      was pushed onto. */
  datatype Registration = Registration(manager: ManagerBlock, cache: seq<ManagerBlock>)

  /** The constructor: records the block's coordinates and appends the new
      instance to the cache. */
  function Construct(cache: seq<ManagerBlock>, block: Block): (r: Registration)
    ensures |r.cache| == |cache| + 1 && r.cache[..|cache|] == cache && r.cache[|cache|] == r.manager
    ensures r.manager.block == block && r.manager.npc.None?
    ensures r.manager.storedX == block.location.x && r.manager.storedY == block.location.y
    ensures r.manager.storedZ == block.location.z
  {
    var m := ManagerBlock(block, block.location.x, block.location.y, block.location.z, None);
    Registration(m, cache + [m])
  }

  /** A freshly constructed valid block is found at its location, unless an
      earlier valid block at that location shadows it. */
  lemma {:induction false} ConstructThenLookup(cache: seq<ManagerBlock>, block: Block)
    requires block.valid
    ensures GetFromLocation(cache, block.location).None? ==>
      GetFromLocation(Construct(cache, block).cache, block.location) == Some(Construct(cache, block).manager)
    ensures GetFromLocation(cache, block.location).Some? ==>
      GetFromLocation(Construct(cache, block).cache, block.location) == GetFromLocation(cache, block.location)
  {
    LookupAppend(cache, Construct(cache, block).manager, block.location);
  }

  /** Appending a block does not change a lookup that already succeeds,
      and is the appended block's own lookup otherwise. */
  lemma {:induction false} LookupAppend(cache: seq<ManagerBlock>, m: ManagerBlock, loc: Location)
    ensures GetFromLocation(cache, loc).Some? ==> GetFromLocation(cache + [m], loc) == GetFromLocation(cache, loc)
    ensures GetFromLocation(cache, loc).None? ==>
      GetFromLocation(cache + [m], loc) == (if IsAt(m, loc) then Some(m) else None)
  {
    if |cache| > 0 {
      assert (cache + [m])[1..] == cache[1..] + [m];
      LookupAppend(cache[1..], m, loc);
    }
  }

  /** SetWoodcutter: the block now refers to the given woodcutter instance. */
  function SetWoodcutter(m: ManagerBlock, instance: nat): (r: ManagerBlock)
    ensures r.npc == Some(instance)
    ensures r.(npc := m.npc) == m
  {
    m.(npc := Some(instance))
  }

  /** Woodcutter.SetWoodcutterManagerBlock: links both ways. */
  function LinkManager(w: Woodcutter, m: ManagerBlock): (r: (Woodcutter, ManagerBlock))
    ensures r.0.manager == Some(m.block.location) && r.1.npc == Some(w.instance)
    ensures r.0.(manager := w.manager) == w && r.1.(npc := m.npc) == m
  {
    (w.(manager := Some(m.block.location)), SetWoodcutter(m, w.instance))
  }

  /** The slot SpawnWoodcutter picks among `n` empty locations for a
      random `r` in [0, 1): floor(r * (n - 1)). */
  function SpawnIndex(n: nat, r: real): (i: nat)
    requires n >= 1 && 0.0 <= r < 1.0
    ensures i < n
    ensures n >= 2 ==> i <= n - 2
  {
    var scaled := r * (n - 1) as real;
    assert 0.0 <= scaled;
    assert scaled < (n - 1) as real || n == 1;
    scaled.Floor
  }

  /** Every slot but the last is reachable: the pick ranges over exactly
      the first n - 1 empty locations when n >= 2. */
  lemma SpawnIndexReachesAllButLast(n: nat, i: nat)
    requires n >= 2 && i <= n - 2
    ensures 0.0 <= i as real / (n - 1) as real < 1.0
    ensures SpawnIndex(n, i as real / (n - 1) as real) == i
  {
    var r := i as real / (n - 1) as real;
    assert r * (n - 1) as real == i as real;
  }

  /** SpawnWoodcutter's effect. */
  datatype Spawn =
    | NoSpace
    | Spawned(manager: ManagerBlock, woodcutters: seq<Woodcutter>, nextId: Option<int>, at: Location)

  /** SpawnWoodcutter: with no empty location nothing is created. Otherwise
      a woodcutter tied to `m` is constructed (appended to `woodcutters`),
      its entity is created at the picked empty location, and `m` refers to it. */
  function SpawnWoodcutter(m: ManagerBlock, empties: seq<Location>, r: real,
                           woodcutters: seq<Woodcutter>, instance: nat, nextId: Option<int>): (s: Spawn)
    requires 0.0 <= r < 1.0
    ensures s.NoSpace? <==> |empties| == 0
    ensures s.Spawned? ==>
      && s.at == empties[SpawnIndex(|empties|, r)]
      && (|empties| >= 2 ==> s.at in empties[..|empties| - 1])
      && s.manager.npc == Some(instance)
      && |s.woodcutters| == |woodcutters| + 1
      && s.woodcutters[..|woodcutters|] == woodcutters
      && s.woodcutters[|woodcutters|].instance == instance
      && s.woodcutters[|woodcutters|].manager == Some(m.block.location)
      && s.woodcutters[|woodcutters|].state == Idle
      && s.woodcutters[|woodcutters|].ready && !s.woodcutters[|woodcutters|].loading
      && s.woodcutters[|woodcutters|].target.None? && s.woodcutters[|woodcutters|].failedWalks == 0
      && s.woodcutters[|woodcutters|].carrying == map[] && s.woodcutters[|woodcutters|].ignore == []
    ensures s.Spawned? && nextId.Some? ==>
      && s.nextId == Some(nextId.value + 1)
      && EntityValid(s.woodcutters[|woodcutters|])
      && s.woodcutters[|woodcutters|].entity.value.props.id == nextId
    ensures s.Spawned? && nextId.None? ==> s.nextId.None? && s.woodcutters[|woodcutters|].entity.None?
  {
    if |empties| == 0 then NoSpace
    else
      var i := SpawnIndex(|empties|, r);
      var constructed := NewWoodcutter(woodcutters, instance, Some(m.block.location));
      var created := CreateEntity(constructed[|woodcutters|], nextId);
      Spawned(SetWoodcutter(m, instance), constructed[|woodcutters| := created.w], created.nextId, empties[i])
  }

  /** The 3x1x3 box GetAdjacentChest inspects around `c`: one block either
      way on x and z, the same y, enumerated x-major. */
  function ChestWindow(c: Location): seq<Location> {
    [ Location(c.x - 1, c.y, c.z - 1), Location(c.x - 1, c.y, c.z), Location(c.x - 1, c.y, c.z + 1),
      Location(c.x, c.y, c.z - 1),     Location(c.x, c.y, c.z),     Location(c.x, c.y, c.z + 1),
      Location(c.x + 1, c.y, c.z - 1), Location(c.x + 1, c.y, c.z), Location(c.x + 1, c.y, c.z + 1) ]
  }

  /** The window is exactly the box from (x-1, y, z-1) to (x+1, y, z+1). */
  lemma ChestWindowIsBox(c: Location, l: Location)
    ensures l in ChestWindow(c) <==>
      c.x - 1 <= l.x <= c.x + 1 && l.y == c.y && c.z - 1 <= l.z <= c.z + 1
  {
    if c.x - 1 <= l.x <= c.x + 1 && l.y == c.y && c.z - 1 <= l.z <= c.z + 1 {
      var w := ChestWindow(c);
      var i := 3 * (l.x - c.x + 1) + (l.z - c.z + 1);
      assert w[i] == l;
    }
  }

  /** What a world read returns at a location: its block type, or None
      when the block cannot be read (unloaded chunk). */
  type WorldView = Location -> Option<TypeId>

  predicate IsChestIn(world: WorldView, l: Location) {
    world(l) == Some(Chest)
  }

  /** The host's `getBlocks` restricted to chests: the window's chest locations. */
  function ChestsIn(ls: seq<Location>, world: WorldView): (r: seq<Location>)
    ensures forall l :: l in r <==> l in ls && IsChestIn(world, l)
  {
    if |ls| == 0 then []
    else
      var rest := ChestsIn(ls[1..], world);
      assert forall l :: l in ls <==> l == ls[0] || l in ls[1..];
      if IsChestIn(world, ls[0]) then [ls[0]] + rest else rest
  }

  /** The job's loop: the first listed location that still reads as a chest. */
  function FirstChest(ls: seq<Location>, world: WorldView): (r: Option<Location>)
    ensures r.Some? ==> r.value in ls && IsChestIn(world, r.value)
    ensures r.None? ==> forall l :: l in ls ==> !IsChestIn(world, l)
    ensures forall i :: 0 <= i < |ls| && IsChestIn(world, ls[i]) && (forall j :: 0 <= j < i ==> !IsChestIn(world, ls[j])) ==>
      r == Some(ls[i])
  {
    if |ls| == 0 then None
    else if IsChestIn(world, ls[0]) then Some(ls[0])
    else
      var r := FirstChest(ls[1..], world);
      assert forall l :: l in ls <==> l == ls[0] || l in ls[1..];
      r
  }

  /** GetAdjacentChest: None for an invalid manager block; otherwise the
      first window location that was listed as a chest (`listed` is the world
      when the volume is listed) and still reads as one when the job reaches
      it (`current`). */
  function GetAdjacentChest(m: ManagerBlock, listed: WorldView, current: WorldView): (r: Option<Location>)
    ensures !m.block.valid ==> r.None?
    ensures r.Some? ==>
      r.value in ChestWindow(m.block.location) && IsChestIn(listed, r.value) && IsChestIn(current, r.value)
    ensures m.block.valid && r.None? ==>
      forall l :: l in ChestWindow(m.block.location) && IsChestIn(listed, l) ==> !IsChestIn(current, l)
  {
    if !m.block.valid then None
    else FirstChest(ChestsIn(ChestWindow(m.block.location), listed), current)
  }

  /** The two views agree at every location of `ls`. */
  predicate AgreeOn(ls: seq<Location>, a: WorldView, b: WorldView) {
    forall i :: 0 <= i < |ls| ==> a(ls[i]) == b(ls[i])
  }

  lemma {:induction false} ChestsInDependsOnlyOn(ls: seq<Location>, a: WorldView, b: WorldView)
    requires AgreeOn(ls, a, b)
    ensures ChestsIn(ls, a) == ChestsIn(ls, b)
  {
    if |ls| > 0 {
      assert a(ls[0]) == b(ls[0]);
      assert AgreeOn(ls[1..], a, b) by {
        forall i | 0 <= i < |ls[1..]|
          ensures a(ls[1..][i]) == b(ls[1..][i])
        {
          assert ls[1..][i] == ls[i + 1];
        }
      }
      ChestsInDependsOnlyOn(ls[1..], a, b);
    }
  }

  lemma {:induction false} FirstChestDependsOnlyOn(ls: seq<Location>, a: WorldView, b: WorldView)
    requires AgreeOn(ls, a, b)
    ensures FirstChest(ls, a) == FirstChest(ls, b)
  {
    if |ls| > 0 {
      assert a(ls[0]) == b(ls[0]);
      assert AgreeOn(ls[1..], a, b) by {
        forall i | 0 <= i < |ls[1..]|
          ensures a(ls[1..][i]) == b(ls[1..][i])
        {
          assert ls[1..][i] == ls[i + 1];
        }
      }
      FirstChestDependsOnlyOn(ls[1..], a, b);
    }
  }

  /** Only the 3x1x3 window is inspected: worlds that agree on it give the
      same chest. */
  lemma ChestSearchSeesOnlyWindow(m: ManagerBlock, listed1: WorldView, current1: WorldView,
                                  listed2: WorldView, current2: WorldView)
    requires AgreeOn(ChestWindow(m.block.location), listed1, listed2)
    requires AgreeOn(ChestWindow(m.block.location), current1, current2)
    ensures GetAdjacentChest(m, listed1, current1) == GetAdjacentChest(m, listed2, current2)
  {
    if m.block.valid {
      var window := ChestWindow(m.block.location);
      ChestsInDependsOnlyOn(window, listed1, listed2);
      var chests := ChestsIn(window, listed1);
      assert AgreeOn(chests, current1, current2) by {
        forall i | 0 <= i < |chests|
          ensures current1(chests[i]) == current2(chests[i])
        {
          assert chests[i] in window;
          var j :| 0 <= j < |window| && window[j] == chests[i];
        }
      }
      FirstChestDependsOnlyOn(chests, current1, current2);
    }
  }

  /** The slider of the settings form. */
  const SliderMin: int := 5
  const SliderMax: int := 20
  const SliderStep: int := 1

  /** What the settings form shows: the toggles and slider with their
      current values as defaults. */
  datatype SettingsForm = SettingsForm(
    isActive: bool, distanceMin: int, distanceMax: int, distanceStep: int, distance: int, stripsLogs: bool)

  function SettingsFormFor(w: Woodcutter): (f: SettingsForm)
    ensures f.distanceMin == 5 && f.distanceMax == 20 && f.distanceStep == 1
    ensures f.isActive == IsEnabled(w) && f.distance == SearchDistance(w) && f.stripsLogs == DoesStripLogs(w)
  {
    SettingsForm(IsEnabled(w), SliderMin, SliderMax, SliderStep, SearchDistance(w), DoesStripLogs(w))
  }

  /** The submitted form values 0, 1 and 2. */
  datatype FormResponse = FormResponse(isActive: bool, distance: int, stripsLogs: bool)

  /** A response the form's slider can produce. */
  predicate FromSlider(f: SettingsForm, resp: FormResponse) {
    && f.distanceMin <= resp.distance <= f.distanceMax
    && f.distanceStep > 0 && (resp.distance - f.distanceMin) % f.distanceStep == 0
  }

  /** OnPlayerInteract: with an associated woodcutter that has an entity
      when the block is used, and a submitted form, the three values become
      the woodcutter's settings; `validAtSubmit` is the entity's validity
      when the form comes back, which each setter checks again, so they
      are kept only on an entity still valid then. Otherwise nothing
      changes. */
  function OnPlayerInteract(npc: Option<Woodcutter>, response: Option<FormResponse>, validAtSubmit: bool): (r: Option<Woodcutter>)
    ensures r.Some? <==> npc.Some?
    ensures npc.None? || npc.value.entity.None? || response.None? ==> r == npc
    ensures npc.Some? && npc.value.entity.Some? && response.Some? ==>
      && EntityValid(r.value) == validAtSubmit
      && r.value.entity.Some?
      && r.value.entity.value.props ==
           (if validAtSubmit
            then npc.value.entity.value.props.(enabled := Some(response.value.isActive),
                                               searchDistance := Some(response.value.distance),
                                               stripsLogs := Some(response.value.stripsLogs))
            else npc.value.entity.value.props)
    ensures npc.Some? && npc.value.entity.Some? && response.Some? && validAtSubmit ==>
      && IsEnabled(r.value) == response.value.isActive
      && SearchDistance(r.value) == response.value.distance
      && DoesStripLogs(r.value) == response.value.stripsLogs
    ensures npc.Some? ==> r.value.(entity := npc.value.entity) == npc.value
  {
    match npc
    case None => None
    case Some(w) =>
      if w.entity.None? then npc
      else
        match response
        case None => npc
        case Some(resp) =>
          var submitted := WithEntityValid(w, validAtSubmit);
          Some(SetDoesStripLogs(SetSearchDistance(SetIsEnabled(submitted, resp.isActive), resp.distance), resp.stripsLogs))
  }

  /** A distance submitted through the slider lands in 5..20. */
  lemma InteractKeepsSliderRange(w: Woodcutter, resp: FormResponse)
    requires w.entity.Some? && FromSlider(SettingsFormFor(w), resp)
    ensures SliderMin <= SearchDistance(OnPlayerInteract(Some(w), Some(resp), true).value) <= SliderMax
  {
  }
}
