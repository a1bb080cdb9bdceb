/** The woodcutter agent's record (the fields of class Woodcutter), the
    typed view of its persisted entity properties, and the small operations
    every phase handler uses: SetState, the property getters with their
    defaults and the matching setters, AddBlockToCarryingStack and Remove. */
module WoodcutterRecord {
  import opened Types

  /** WoodcutterState; `Idle` is the source's NONE. */
  datatype State = Idle | Searching | WalkingToWood | Woodcutting | WalkingToChest

  /** The entity's persisted properties ("nox:id", the manager block
      coordinates, "nox:state_enum", search distance, enabled, strips logs,
      dialog flag). `None` is a property that was never set. */
  datatype Props = Props(
    id: Option<int>,
    managerX: Option<int>,
    managerY: Option<int>,
    managerZ: Option<int>,
    stateName: Option<State>,
    searchDistance: Option<int>,
    enabled: Option<bool>,
    stripsLogs: Option<bool>,
    dialogInitiated: Option<bool>)

  const UnsetProps: Props := Props(None, None, None, None, None, None, None, None, None)

  /** The host entity behind a woodcutter: whether it is still valid, and
      what is stored on it. */
  datatype Entity = Entity(valid: bool, props: Props)

  /** One woodcutter instance. `instance` stands for the object's identity
      (what `===` compares); `id` is the in-memory `Id` field, which no code
      path assigns; `manager` is the location of its manager block, if it has
      one; `failedWalks` counts consecutive failed walks to the target;
      `ignore` holds the log locations rejected since the last accepted tree. */
  datatype Woodcutter = Woodcutter(
    instance: nat,
    id: Option<int>,
    state: State,
    entity: Option<Entity>,
    manager: Option<Location>,
    target: Option<Block>,
    carrying: map<TypeId, nat>,
    failedWalks: nat,
    ignore: seq<Location>,
    loading: bool,
    ready: bool)

  /** `this.Entity?.isValid`: there is an entity and it is valid. */
  predicate EntityValid(w: Woodcutter) {
    w.entity.Some? && w.entity.value.valid
  }

  /** The state name last written to the entity, if any. */
  function PersistedState(w: Woodcutter): Option<State> {
    if w.entity.Some? then w.entity.value.props.stateName else None
  }

  const DefaultSearchDistance: int := 10

  /** GetSearchDistance: the stored distance of a valid entity, else 10. */
  function SearchDistance(w: Woodcutter): int {
    if EntityValid(w) then w.entity.value.props.searchDistance.GetOr(DefaultSearchDistance)
    else DefaultSearchDistance
  }

  /** GetIsEnabled: the stored flag of a valid entity, else true. */
  function IsEnabled(w: Woodcutter): bool {
    if EntityValid(w) then w.entity.value.props.enabled.GetOr(true) else true
  }

  /** GetDoesStripLogs: the stored flag of a valid entity, defaulting to
      true, but false when there is no valid entity at all. */
  function DoesStripLogs(w: Woodcutter): bool {
    if EntityValid(w) then w.entity.value.props.stripsLogs.GetOr(true) else false
  }

  /** The three user settings are the same in `a` and `b`. */
  predicate SameSettings(a: Woodcutter, b: Woodcutter) {
    && SearchDistance(a) == SearchDistance(b)
    && IsEnabled(a) == IsEnabled(b)
    && DoesStripLogs(a) == DoesStripLogs(b)
  }

  /** Replaces the properties of a present entity. */
  function WithProps(w: Woodcutter, p: Props): Woodcutter
    requires w.entity.Some?
  {
    w.(entity := Some(w.entity.value.(props := p)))
  }

  /** The entity's validity as observed after an await. */
  function WithEntityValid(w: Woodcutter, valid: bool): (r: Woodcutter)
    requires w.entity.Some?
    ensures EntityValid(r) == valid
    ensures r.entity.Some? && r.entity.value.props == w.entity.value.props
    ensures r.(entity := w.entity) == w
  {
    w.(entity := Some(w.entity.value.(valid := valid)))
  }

  /** Of the in-memory `Id` and the entity's stored properties, at most
      the state name differs between `w` and `r`: the frame of every
      operation that writes the entity only through SetState. */
  predicate OnlyStateNameWritten(r: Woodcutter, w: Woodcutter) {
    && r.id == w.id
    && r.entity.Some? == w.entity.Some?
    && (r.entity.Some? ==> r.entity.value.props == w.entity.value.props.(stateName := r.entity.value.props.stateName))
  }

  /** SetState: the in-memory state always changes; the state name is
      written to the entity only when it is valid. */
  function SetState(w: Woodcutter, s: State): (r: Woodcutter)
    ensures r.state == s
    ensures EntityValid(w) ==> PersistedState(r) == Some(s)
    ensures !EntityValid(w) ==> r.entity == w.entity
    ensures EntityValid(r) == EntityValid(w) && SameSettings(r, w)
    ensures r.entity.Some? == w.entity.Some?
    ensures r.entity.Some? ==> r.entity.value.valid == w.entity.value.valid
    ensures r.entity.Some? ==> r.entity.value.props == w.entity.value.props.(stateName := r.entity.value.props.stateName)
    ensures r.(state := w.state, entity := w.entity) == w
    ensures OnlyStateNameWritten(r, w)
  {
    var moved := w.(state := s);
    if EntityValid(w) then WithProps(moved, w.entity.value.props.(stateName := Some(s))) else moved
  }

  /** SetSearchDistance: stored only on a valid entity. */
  function SetSearchDistance(w: Woodcutter, d: int): (r: Woodcutter)
    ensures EntityValid(w) ==> SearchDistance(r) == d
    ensures !EntityValid(w) ==> r == w
    ensures EntityValid(r) == EntityValid(w)
    ensures r.entity.Some? == w.entity.Some?
    ensures r.entity.Some? ==> r.entity.value.valid == w.entity.value.valid
    ensures r.entity.Some? ==> r.entity.value.props == w.entity.value.props.(searchDistance := r.entity.value.props.searchDistance)
    ensures IsEnabled(r) == IsEnabled(w) && DoesStripLogs(r) == DoesStripLogs(w)
    ensures r.(entity := w.entity) == w
  {
    if EntityValid(w) then WithProps(w, w.entity.value.props.(searchDistance := Some(d))) else w
  }

  /** SetIsEnabled: stored only on a valid entity. */
  function SetIsEnabled(w: Woodcutter, enabled: bool): (r: Woodcutter)
    ensures EntityValid(w) ==> IsEnabled(r) == enabled
    ensures !EntityValid(w) ==> r == w
    ensures EntityValid(r) == EntityValid(w)
    ensures r.entity.Some? == w.entity.Some?
    ensures r.entity.Some? ==> r.entity.value.valid == w.entity.value.valid
    ensures r.entity.Some? ==> r.entity.value.props == w.entity.value.props.(enabled := r.entity.value.props.enabled)
    ensures SearchDistance(r) == SearchDistance(w) && DoesStripLogs(r) == DoesStripLogs(w)
    ensures r.(entity := w.entity) == w
  {
    if EntityValid(w) then WithProps(w, w.entity.value.props.(enabled := Some(enabled))) else w
  }

  /** SetDoesStripLogs: stored only on a valid entity. */
  function SetDoesStripLogs(w: Woodcutter, strips: bool): (r: Woodcutter)
    ensures EntityValid(w) ==> DoesStripLogs(r) == strips
    ensures !EntityValid(w) ==> r == w
    ensures EntityValid(r) == EntityValid(w)
    ensures r.entity.Some? == w.entity.Some?
    ensures r.entity.Some? ==> r.entity.value.valid == w.entity.value.valid
    ensures r.entity.Some? ==> r.entity.value.props == w.entity.value.props.(stripsLogs := r.entity.value.props.stripsLogs)
    ensures SearchDistance(r) == SearchDistance(w) && IsEnabled(r) == IsEnabled(w)
    ensures r.(entity := w.entity) == w
  {
    if EntityValid(w) then WithProps(w, w.entity.value.props.(stripsLogs := Some(strips))) else w
  }

  /** The defaults the getters fall back to: 10, enabled, and strip logs
      only when a valid entity simply has no stored flag. */
  lemma SettingDefaults(w: Woodcutter)
    ensures !EntityValid(w) ==> SearchDistance(w) == 10 && IsEnabled(w) && !DoesStripLogs(w)
    ensures EntityValid(w) && w.entity.value.props == UnsetProps ==>
      SearchDistance(w) == 10 && IsEnabled(w) && DoesStripLogs(w)
  {
  }

  /** AddBlockToCarryingStack: `amount` is added under `key`, which starts
      at 0 when absent; every other key keeps its count. */
  function AddToCarrying(carrying: map<TypeId, nat>, key: TypeId, amount: nat): (r: map<TypeId, nat>)
    ensures r.Keys == carrying.Keys + {key}
    ensures r[key] == (if key in carrying then carrying[key] else 0) + amount
    ensures forall k :: k in carrying && k != key ==> r[k] == carrying[k]
  {
    var before := if key in carrying then carrying[key] else 0;
    carrying[key := before + amount]
  }

  /** Remove: a valid entity is killed (and the instance is unregistered
      from the NPC handler, which is outside this model). */
  function Remove(w: Woodcutter): (r: Woodcutter)
    ensures !EntityValid(r)
    ensures r.entity.Some? == w.entity.Some?
    ensures r.(entity := w.entity) == w
  {
    if EntityValid(w) then WithEntityValid(w, false) else w
  }
}
