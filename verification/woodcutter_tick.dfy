/** OnGameTick: the per-tick transition of one woodcutter. A ready tick
    advances the cycle one step and, for the first four steps, starts the
    phase handler of the new state and clears the readiness flag. */
module WoodcutterTick {
  import opened Types
  import opened WoodcutterRecord

  /** The asynchronous phase handlers a tick can start. */
  datatype Phase = SearchPhase | WalkToWoodPhase | WoodcutPhase | WalkToChestPhase

  /** A tick's effect: the new record, the phase started (if any) and how
      many ticks the tick itself holds before returning. */
  datatype TickResult = TickResult(w: Woodcutter, started: Option<Phase>, holdTicks: nat)

  const TicksPerSecond: nat := 20

  /** The wait of a tick that finds the entity invalid or the woodcutter disabled. */
  const InactiveHoldTicks: nat := TicksPerSecond * 30

  /** The work cycle, Idle -> Searching -> WalkingToWood -> Woodcutting ->
      WalkingToChest -> Idle. */
  function NextState(s: State): State {
    match s
    case Idle => Searching
    case Searching => WalkingToWood
    case WalkingToWood => Woodcutting
    case Woodcutting => WalkingToChest
    case WalkingToChest => Idle
  }

  /** The handler that runs while the woodcutter is in a state. */
  function PhaseOf(s: State): Option<Phase> {
    match s
    case Idle => None
    case Searching => Some(SearchPhase)
    case WalkingToWood => Some(WalkToWoodPhase)
    case Woodcutting => Some(WoodcutPhase)
    case WalkingToChest => Some(WalkToChestPhase)
  }

  /** The guards a tick passes before it may change anything. */
  predicate MayAct(w: Woodcutter) {
    !w.loading && EntityValid(w) && IsEnabled(w) && w.ready
  }

  /** Enters `s` from a ready tick: the flag drops while a handler runs. */
  function Enter(w: Woodcutter, s: State): TickResult {
    TickResult(SetState(w, s).(ready := false), PhaseOf(s), 0)
  }

  function OnGameTick(w: Woodcutter): (r: TickResult)
    ensures !MayAct(w) ==> r.w == w && r.started == None
    ensures !w.loading && (!EntityValid(w) || !IsEnabled(w)) ==> r.holdTicks == InactiveHoldTicks
    ensures w.loading || (EntityValid(w) && IsEnabled(w)) ==> r.holdTicks == 0
    ensures MayAct(w) ==> r.w.state == NextState(w.state)
    ensures MayAct(w) ==> r.started == PhaseOf(r.w.state) && PersistedState(r.w) == Some(r.w.state)
    ensures r.started.Some? ==> w.ready && !r.w.ready
    ensures MayAct(w) && w.state == WalkingToChest ==> r.w.ready
    ensures r.w.failedWalks == (if MayAct(w) && w.state == Idle then 0 else w.failedWalks)
    ensures r.w.carrying == w.carrying && r.w.ignore == w.ignore && r.w.target == w.target
    ensures r.w.manager == w.manager && r.w.instance == w.instance && r.w.loading == w.loading
    ensures EntityValid(r.w) == EntityValid(w) && SameSettings(r.w, w)
    ensures OnlyStateNameWritten(r.w, w)
  {
    if w.loading then TickResult(w, None, 0)
    else if !EntityValid(w) then TickResult(w, None, InactiveHoldTicks)
    else if !IsEnabled(w) then TickResult(w, None, InactiveHoldTicks)
    else if !w.ready then TickResult(w, None, 0)
    else
      match w.state
      case Idle => Enter(w.(failedWalks := 0), Searching)
      case Searching => Enter(w, WalkingToWood)
      case WalkingToWood => Enter(w, Woodcutting)
      case Woodcutting => Enter(w, WalkingToChest)
      case WalkingToChest => TickResult(SetState(w, Idle).(ready := true), None, 0)
  }

  /** `k` consecutive ticks with no phase completing in between. */
  function Ticks(w: Woodcutter, k: nat): Woodcutter
    decreases k
  {
    if k == 0 then w else Ticks(OnGameTick(w).w, k - 1)
  }

  /** Re-entrancy: once a tick has started a handler, no later tick starts
      another or changes anything until that handler completes. */
  lemma {:induction false} StartedPhaseBlocksTicks(w: Woodcutter, k: nat)
    requires OnGameTick(w).started.Some?
    ensures Ticks(OnGameTick(w).w, k) == OnGameTick(w).w
  {
    NotReadyIsFrozen(OnGameTick(w).w, k);
  }

  /** A woodcutter whose flag is down stays exactly as it is under any
      number of ticks. */
  lemma {:induction false} NotReadyIsFrozen(w: Woodcutter, k: nat)
    requires !w.ready
    ensures Ticks(w, k) == w
  {
    if k > 0 {
      assert OnGameTick(w).w == w;
      NotReadyIsFrozen(w, k - 1);
    }
  }

  /** Five ready ticks with nothing changing the state in between walk the
      whole cycle back to the starting state. */
  lemma CycleHasLengthFive(s: State)
    ensures NextState(NextState(NextState(NextState(NextState(s))))) == s
    ensures NextState(s) != s
  {
  }
}
