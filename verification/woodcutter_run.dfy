/** One woodcutter's life as a sequence of events: ticks, and the awaited
    outcomes of the handlers ticks started. This is where the properties
    that span several calls are stated: how many handlers are in flight,
    the stalls that freeze a woodcutter, the ignore list's growth, the
    five-failure reset and a full work cycle. */
module WoodcutterRun {
  import opened Types
  import opened BlockIds
  import opened Saplings
  import opened WoodcutterRecord
  import opened TreeSearch
  import opened WoodcutterTick
  import opened WoodcutterPhases
  import opened ManagerBlock

  /** A handler suspended at an await. The walk-to-wood handler has two
      such points: the walk itself, and the retry wait after a walk that
      did not arrive, entered with or without a failure counted. */
  datatype Pending = SearchPending | WalkPending | RetryWaitPending(counted: bool) | ChopPending | ChestPending

  function PendingOf(p: Phase): Pending {
    match p
    case SearchPhase => SearchPending
    case WalkToWoodPhase => WalkPending
    case WoodcutPhase => ChopPending
    case WalkToChestPhase => ChestPending
  }

  /** What can happen to a woodcutter: a game tick, or an awaited outcome
      of a handler in flight. A walk that threw is split in two: the catch
      and the count up to the retry wait, then the end of that wait. Its
      `validAfter` is the entity's validity once MoveTo has settled: the
      catch and the check after it both see it, with no wait between. */
  datatype Event =
    | TickEvent
    | SearchCompleted(managerBlockValid: bool, found: Option<Block>, connected: Option<seq<TypeId>>)
    | WalkToWoodCompleted(walk: WalkOutcome, validAfter: bool)
    | WalkThrew(validAfter: bool)
    | RetryWaitElapsed(counted: bool)
    | WoodcuttingCompleted(targetNow: Option<TypeId>, validAfterWait: bool, connectedLogs: Option<nat>,
                           stripped: map<TypeId, TypeId>, felling: Felling)
    | WalkToChestCompleted(chest: Option<Chest>, validAtChest: bool, walkThrew: bool, validAfter: bool,
                           order: seq<TypeId>, accepts: StackRule)

  /** The woodcutter, the handlers in flight, and whether the NPC handler
      still ticks it. */
  datatype Run = Run(w: Woodcutter, inFlight: multiset<Pending>, registered: bool)

  /** Ticks reach registered woodcutters only; an outcome arrives only for
      a handler in flight. A walk throws only once MoveTo is called, that
      is with a target and a valid entity; the host enumerates exactly the
      carried types. */
  predicate CanHappen(run: Run, e: Event) {
    match e
    case TickEvent => run.registered
    case SearchCompleted(_, _, _) => SearchPending in run.inFlight
    case WalkToWoodCompleted(walk, _) =>
      WalkPending in run.inFlight && (walk == Threw ==> !(run.w.target.Some? && EntityValid(run.w)))
    case WalkThrew(_) => WalkPending in run.inFlight && run.w.target.Some? && EntityValid(run.w)
    case RetryWaitElapsed(counted) => RetryWaitPending(counted) in run.inFlight
    case WoodcuttingCompleted(_, _, _, _, _) => ChopPending in run.inFlight
    case WalkToChestCompleted(_, _, _, _, order, _) => ChestPending in run.inFlight && ListsKeys(order, run.w.carrying)
  }

  /** The chest handler observes the entity's validity once
      GetAdjacentChest has returned; without a manager block it throws
      before that await. */
  function SeenAtChest(w: Woodcutter, validAtChest: bool): (r: Woodcutter)
    ensures w.manager.Some? && w.entity.Some? ==> EntityValid(r) == validAtChest
    ensures r.manager == w.manager && r.entity.Some? == w.entity.Some?
    ensures r.(entity := w.entity) == w && OnlyStateNameWritten(r, w)
  {
    if w.manager.Some? && w.entity.Some? then WithEntityValid(w, validAtChest) else w
  }

  function Step(h: Handlers, run: Run, e: Event): Run
    requires CanHappen(run, e)
  {
    match e
    case TickEvent =>
      var t := OnGameTick(run.w);
      Run(t.w, if t.started.Some? then run.inFlight + multiset{PendingOf(t.started.value)} else run.inFlight,
          run.registered)
    case SearchCompleted(valid, found, connected) =>
      var ended := OnSearchingDone(run.w, valid, found, connected);
      Run(ended.w, run.inFlight - multiset{SearchPending}, run.registered && ended.Continue?)
    case WalkToWoodCompleted(walk, validAfter) =>
      Run(OnWalkToWoodDone(run.w, walk, validAfter), run.inFlight - multiset{WalkPending}, run.registered)
    case WalkThrew(validAfter) =>
      var seen := WithEntityValid(run.w, validAfter);
      var caught := if h == AsWritten then WalkThrewCatch(seen) else IntendedWalkThrewCatch(seen);
      Run(CountFailedWalk(caught, validAfter),
          run.inFlight - multiset{WalkPending} + multiset{RetryWaitPending(validAfter)}, run.registered)
    case RetryWaitElapsed(counted) =>
      Run(RetryWaitEnded(run.w, counted), run.inFlight - multiset{RetryWaitPending(counted)}, run.registered)
    case WoodcuttingCompleted(targetNow, validAfterWait, connectedLogs, stripped, felling) =>
      Run(OnWoodcuttingDone(h, run.w, targetNow, validAfterWait, connectedLogs, stripped, felling).w,
          run.inFlight - multiset{ChopPending}, run.registered)
    case WalkToChestCompleted(chest, validAtChest, walkThrew, validAfter, order, accepts) =>
      Run(OnWalkToChestDone(SeenAtChest(run.w, validAtChest), chest, walkThrew, validAfter, order, accepts).w,
          run.inFlight - multiset{ChestPending}, run.registered)
  }

  /** A woodcutter spawned while the world's id counter is set can act at
      once: the first tick finds it loaded, valid, enabled and ready, and
      starts a search. */
  lemma SpawnedWoodcutterStartsSearching(m: ManagerBlock, empties: seq<Location>, r: real,
                                         woodcutters: seq<Woodcutter>, instance: nat, nextId: Option<int>)
    requires 0.0 <= r < 1.0 && |empties| > 0 && nextId.Some?
    ensures var s := SpawnWoodcutter(m, empties, r, woodcutters, instance, nextId);
      && s.Spawned?
      && MayAct(s.woodcutters[|woodcutters|])
      && OnGameTick(s.woodcutters[|woodcutters|]).started == Some(SearchPhase)
      && OnGameTick(s.woodcutters[|woodcutters|]).w.state == Searching
  {
  }

  /** The re-entrancy invariant: at most one handler in flight, and while
      it is the flag is down. */
  predicate OnePhase(run: Run) {
    |run.inFlight| <= 1 && (|run.inFlight| == 1 ==> !run.w.ready)
  }

  /** With the corrected catch, one event keeps the invariant: a tick never
      starts a second handler while one is in flight, an outcome other than
      a throw leaves none in flight, and a throw trades the walk for its
      retry wait. */
  lemma StepKeepsOnePhase(run: Run, e: Event)
    requires CanHappen(run, e) && OnePhase(run)
    ensures OnePhase(Step(Intended, run, e))
    ensures e.TickEvent? && |run.inFlight| == 1 ==> Step(Intended, run, e) == run
    ensures e.TickEvent? && |run.inFlight| == 0 ==>
      Step(Intended, run, e).inFlight == (if OnGameTick(run.w).started.Some?
                                          then multiset{PendingOf(OnGameTick(run.w).started.value)}
                                          else multiset{})
    ensures e.WalkThrew? ==> Step(Intended, run, e).inFlight == multiset{RetryWaitPending(e.validAfter)}
    ensures !e.TickEvent? && !e.WalkThrew? ==> |Step(Intended, run, e).inFlight| == 0
  {
    if !e.TickEvent? {
      CompletionKeepsOnePhase(run, e);
    }
  }

  /** The pending handler an outcome belongs to. */
  function PendingFor(e: Event): Pending
    requires !e.TickEvent?
  {
    match e
    case SearchCompleted(_, _, _) => SearchPending
    case WalkToWoodCompleted(_, _) => WalkPending
    case WalkThrew(_) => WalkPending
    case RetryWaitElapsed(c) => RetryWaitPending(c)
    case WoodcuttingCompleted(_, _, _, _, _) => ChopPending
    case WalkToChestCompleted(_, _, _, _, _, _) => ChestPending
  }

  /** An outcome removes its own handler; the throw also adds the wait. */
  lemma CompletionKeepsOnePhase(run: Run, e: Event)
    requires !e.TickEvent? && CanHappen(run, e) && OnePhase(run)
    ensures e.WalkThrew? ==> Step(Intended, run, e).inFlight == multiset{RetryWaitPending(e.validAfter)}
    ensures e.WalkThrew? ==> !Step(Intended, run, e).w.ready
    ensures !e.WalkThrew? ==> |Step(Intended, run, e).inFlight| == 0
  {
    OneElement(run.inFlight, PendingFor(e));
    var after := Step(Intended, run, e).inFlight;
    if e.WalkThrew? {
      assert after == run.inFlight - multiset{WalkPending} + multiset{RetryWaitPending(e.validAfter)};
    } else {
      assert after == run.inFlight - multiset{PendingFor(e)};
    }
  }

  /** A multiset of at most one element that holds `p` is exactly {p}. */
  lemma OneElement(m: multiset<Pending>, p: Pending)
    requires |m| <= 1 && p in m
    ensures m == multiset{p}
  {
    var rest := m - multiset{p};
    assert m == rest + multiset{p};
    assert |rest| == 0;
  }

  /** Whether the events of `es` can happen one after another from `run`. */
  predicate Feasible(h: Handlers, run: Run, es: seq<Event>)
    decreases |es|
  {
    |es| == 0 || (CanHappen(run, es[0]) && Feasible(h, Step(h, run, es[0]), es[1..]))
  }

  /** The run after the events of a feasible trace. */
  function Replay(h: Handlers, run: Run, es: seq<Event>): Run
    requires Feasible(h, run, es)
    decreases |es|
  {
    if |es| == 0 then run else Replay(h, Step(h, run, es[0]), es[1..])
  }

  /** With the corrected catch the re-entrancy invariant holds along any
      feasible trace: in particular from a freshly registered woodcutter,
      nothing in flight, whatever ticks and outcomes arrive. */
  lemma {:induction false} TraceKeepsOnePhase(run: Run, es: seq<Event>)
    requires Feasible(Intended, run, es) && OnePhase(run)
    ensures OnePhase(Replay(Intended, run, es))
    decreases |es|
  {
    if |es| > 0 {
      StepKeepsOnePhase(run, es[0]);
      TraceKeepsOnePhase(Step(Intended, run, es[0]), es[1..]);
    }
  }

  /** As written, a walk that throws raises the flag before the retry wait:
      the next tick starts a second walk handler beside the waiting one, and
      when the wait ends it raises the flag again and re-enters Searching
      while that second walk is still in flight. */
  lemma {:induction false} ThrownWalkStartsSecondHandler(w: Woodcutter)
    requires !w.loading && EntityValid(w) && IsEnabled(w) && !w.ready
    requires w.state == WalkingToWood && w.target.Some? && w.failedWalks < MaxFailedWalks
    ensures var r0 := Run(w, multiset{WalkPending}, true);
      && CanHappen(r0, WalkThrew(true))
      && var r1 := Step(AsWritten, r0, WalkThrew(true));
      && CanHappen(r1, TickEvent)
      && var r2 := Step(AsWritten, r1, TickEvent);
      && r2.inFlight == multiset{RetryWaitPending(true), WalkPending}
      && CanHappen(r2, RetryWaitElapsed(true))
      && var r3 := Step(AsWritten, r2, RetryWaitElapsed(true));
      && r3.inFlight == multiset{WalkPending} && r3.w.ready && r3.w.state == Searching
      && !OnePhase(r3)
  {
    CatchRaisesFlag(w);
    var r1 := Step(AsWritten, Run(w, multiset{WalkPending}, true), WalkThrew(true));
    TickBesideRetryWait(r1);
    WaitEndsBesideWalk(Step(AsWritten, r1, TickEvent));
  }

  /** The written catch, then the failure count: the flag is up while the
      retry wait is pending. */
  lemma CatchRaisesFlag(w: Woodcutter)
    requires !w.loading && EntityValid(w) && IsEnabled(w) && !w.ready
    requires w.state == WalkingToWood && w.target.Some? && w.failedWalks < MaxFailedWalks
    ensures CanHappen(Run(w, multiset{WalkPending}, true), WalkThrew(true))
    ensures var r := Step(AsWritten, Run(w, multiset{WalkPending}, true), WalkThrew(true));
      && r.inFlight == multiset{RetryWaitPending(true)} && r.registered
      && MayAct(r.w) && r.w.state == Searching && r.w.failedWalks <= MaxFailedWalks
  {
  }

  /** A ready woodcutter in Searching starts a walk beside the pending wait. */
  lemma TickBesideRetryWait(r: Run)
    requires r.inFlight == multiset{RetryWaitPending(true)} && r.registered
    requires MayAct(r.w) && r.w.state == Searching && r.w.failedWalks <= MaxFailedWalks
    ensures CanHappen(r, TickEvent)
    ensures var next := Step(AsWritten, r, TickEvent);
      && next.inFlight == multiset{RetryWaitPending(true), WalkPending}
      && next.w.failedWalks <= MaxFailedWalks
  {
  }

  /** The end of the wait raises the flag and re-enters Searching while
      the walk it started is still pending. */
  lemma WaitEndsBesideWalk(r: Run)
    requires r.inFlight == multiset{RetryWaitPending(true), WalkPending} && r.w.failedWalks <= MaxFailedWalks
    ensures CanHappen(r, RetryWaitElapsed(true))
    ensures var next := Step(AsWritten, r, RetryWaitElapsed(true));
      && next.inFlight == multiset{WalkPending} && next.w.ready && next.w.state == Searching
  {
    assert multiset{RetryWaitPending(true), WalkPending} - multiset{RetryWaitPending(true)} == multiset{WalkPending};
  }

  /** An outcome that ends a handler with the flag still down, leaving no
      handler to raise it: a search whose log turned invalid or whose tree
      check threw, a walk whose entity is missing, a felling that threw
      after crediting the logs, a delivery without a manager block, without
      an entity, or whose deposit threw. */
  predicate Stalls(h: Handlers, w: Woodcutter, e: Event) {
    match e
    case SearchCompleted(valid, found, connected) => SearchStalls(w, valid, found, connected)
    case WalkToWoodCompleted(_, _) => w.target.Some? && w.entity.None?
    case WoodcuttingCompleted(targetNow, validAfterWait, connectedLogs, _, felling) =>
      Felled(w, targetNow, validAfterWait, connectedLogs) && FellingThrows(h, targetNow.value, felling)
    case WalkToChestCompleted(chest, validAtChest, walkThrew, validAfter, order, accepts) =>
      || w.manager.None? || (chest.Some? && w.entity.None?)
      || DepositStalls(SeenAtChest(w, validAtChest), chest, walkThrew, validAfter, order, accepts)
    case _ => false
  }

  /** A handler's last outcome leaves a registered woodcutter with its flag
      down exactly when it is one of the stalls; after a stall nothing is in
      flight and no number of ticks changes the woodcutter again. */
  lemma StallFreezes(h: Handlers, run: Run, e: Event, k: nat)
    requires CanHappen(run, e) && OnePhase(run) && !run.w.ready && run.registered
    requires !e.TickEvent? && !e.WalkThrew?
    ensures var after := Step(h, run, e);
      (after.registered && !after.w.ready) <==> Stalls(h, run.w, e)
    ensures Stalls(h, run.w, e) ==>
      var after := Step(h, run, e);
      && |after.inFlight| == 0
      && Ticks(after.w, k) == after.w
  {
    StepKeepsOnePhase(run, e);
    var after := Step(h, run, e);
    assert after.inFlight == Step(Intended, run, e).inFlight;
    if Stalls(h, run.w, e) {
      NotReadyIsFrozen(after.w, k);
    }
  }

  /** As written, the first jungle tree a woodcutter fells on dirt or
      grass freezes it on any host that does not know "mjungle": the logs
      are credited, the sapling lookup then throws, and the flag stays down
      for good. With the corrected table the same felling ends with the
      flag raised on a host whose generic sapling block accepts the vanilla
      values, and still freezes on a host without that block. */
  lemma JungleTreeFreezes(w: Woodcutter, logs: nat, stripped: map<TypeId, TypeId>,
                          ground: TypeId, saplingTypes: set<string>, k: nat)
    requires !w.ready && EntityValid(w) && w.target.Some? && (ground == Dirt || ground == Grass)
    ensures "mjungle" !in saplingTypes ==>
      var after := Step(AsWritten, Run(w, multiset{ChopPending}, true),
                        WoodcuttingCompleted(Some(JungleLog), true, Some(logs), stripped,
                                             Felling(Some(ground), false, saplingTypes)));
      && |after.inFlight| == 0 && !after.w.ready
      && CreditedTypeId(w, JungleLog, stripped) in after.w.carrying
      && Ticks(after.w, k) == after.w
    ensures VanillaSaplingTypes <= saplingTypes ==>
      Step(Intended, Run(w, multiset{ChopPending}, true),
           WoodcuttingCompleted(Some(JungleLog), true, Some(logs), stripped,
                                Felling(Some(ground), false, saplingTypes))).w.ready
    ensures saplingTypes == {} ==>
      !Step(Intended, Run(w, multiset{ChopPending}, true),
            WoodcuttingCompleted(Some(JungleLog), true, Some(logs), stripped,
                                 Felling(Some(ground), false, saplingTypes))).w.ready
  {
    var run := Run(w, multiset{ChopPending}, true);
    var e := WoodcuttingCompleted(Some(JungleLog), true, Some(logs), stripped, Felling(Some(ground), false, saplingTypes));
    JungleReplantIsRejected(JungleLog, Some(ground), saplingTypes);
    IntendedSaplingNeverRejected(JungleLog, Some(ground), saplingTypes);
    StallFreezes(AsWritten, run, e, k);
    StallFreezes(Intended, run, e, k);
  }

  /** The ignore list across one event: cleared only by an accepted tree,
      otherwise kept or extended by the one rejected log. */
  lemma IgnoreListEpochs(h: Handlers, run: Run, e: Event)
    requires CanHappen(run, e)
    ensures var after := Step(h, run, e).w.ignore;
      || after == run.w.ignore
      || (e.SearchCompleted? && e.found.Some? && after == run.w.ignore + [e.found.value.location])
      || (e.SearchCompleted? && run.w.manager.Some? && e.managerBlockValid
          && Accepted(e.found, e.connected) && after == [])
  {
  }

  /** No event of the trace is a search that accepted a tree. */
  predicate NoAcceptedSearch(es: seq<Event>) {
    forall i :: 0 <= i < |es| ==> !(es[i].SearchCompleted? && Accepted(es[i].found, es[i].connected))
  }

  /** Between two accepted trees the ignore list only grows: whatever
      happens, every location ignored before is still ignored, in order. */
  lemma {:induction false} IgnoreListGrows(h: Handlers, run: Run, es: seq<Event>)
    requires Feasible(h, run, es) && NoAcceptedSearch(es)
    ensures run.w.ignore <= Replay(h, run, es).w.ignore
    decreases |es|
  {
    if |es| > 0 {
      IgnoreListEpochs(h, run, es[0]);
      var next := Step(h, run, es[0]);
      assert run.w.ignore <= next.w.ignore;
      assert NoAcceptedSearch(es[1..]) by {
        forall i | 0 <= i < |es[1..]|
          ensures !(es[1..][i].SearchCompleted? && Accepted(es[1..][i].found, es[1..][i].connected))
        {
          assert es[1..][i] == es[i + 1];
        }
      }
      IgnoreListGrows(h, next, es[1..]);
      var last := Replay(h, run, es).w.ignore;
      assert next.w.ignore <= last;
      assert last[..|run.w.ignore|] == next.w.ignore[..|run.w.ignore|];
    }
  }

  /** A full successful cycle from Idle: accepted tree, walk arrives, tree
      felled and replanted, chest with an inventory reached and every stack
      accepted. The woodcutter ends Idle and ready with nothing carried and
      a cleared ignore list, having chopped for the log's chop time and
      offered the chest every positive count it carried, the felled logs
      included under the stripped type when it strips logs. */
  lemma FullCycle(h: Handlers, w: Woodcutter, b: Block, connected: seq<TypeId>, logs: nat,
                  stripped: map<TypeId, TypeId>, felling: Felling, chest: Chest,
                  order: seq<TypeId>, accepts: StackRule)
    requires MayAct(w) && w.state == Idle && w.manager.Some?
    requires b.valid && |LeafIndices(connected)| >= MinConnectedLeaves
    requires !FellingThrows(h, b.typeId, felling)
    requires chest.hasInventory
    requires var carried := AddToCarrying(w.carrying, CreditedTypeId(w, b.typeId, stripped), logs);
      ListsKeys(order, carried) && !DepositLoop(order, carried, accepts).threw
    ensures
      var w2 := OnSearchingDone(OnGameTick(w).w, true, Some(b), Some(connected)).w;
      var w3 := OnWalkToWoodDone(OnGameTick(w2).w, Reached, true);
      var chop := OnWoodcuttingDone(h, OnGameTick(w3).w, Some(b.typeId), true, Some(logs), stripped, felling);
      var d := OnWalkToChestDone(OnGameTick(chop.w).w, Some(chest), false, true, order, accepts);
      var w5 := OnGameTick(d.w).w;
      && chop.choppedFor == (if b.typeId == DarkOakLog then 300 else 100)
      && w5.state == Idle && MayAct(w5)
      && w5.carrying == map[] && w5.ignore == [] && w5.failedWalks == 0 && w5.target == Some(b)
      && d.offered == PositiveCounts(AddToCarrying(w.carrying, CreditedTypeId(w, b.typeId, stripped), logs))
  {
    SearchStage(w, b, connected);
    var w2 := OnSearchingDone(OnGameTick(w).w, true, Some(b), Some(connected)).w;
    WalkStage(w2);
    var w3 := OnWalkToWoodDone(OnGameTick(w2).w, Reached, true);
    ChopStage(h, w3, b, logs, stripped, felling);
    var w4 := OnWoodcuttingDone(h, OnGameTick(w3).w, Some(b.typeId), true, Some(logs), stripped, felling).w;
    ChestStage(w4, chest, order, accepts);
  }

  /** The tick into Searching and an accepted search. */
  lemma SearchStage(w: Woodcutter, b: Block, connected: seq<TypeId>)
    requires MayAct(w) && w.state == Idle && w.manager.Some?
    requires b.valid && |LeafIndices(connected)| >= MinConnectedLeaves
    ensures var v := OnSearchingDone(OnGameTick(w).w, true, Some(b), Some(connected)).w;
      && MayAct(v) && v.state == Searching && v.target == Some(b) && v.ignore == [] && v.failedWalks == 0
      && v.carrying == w.carrying && DoesStripLogs(v) == DoesStripLogs(w) && v.manager == w.manager
  {
  }

  /** The tick into WalkingToWood and a walk that arrives. */
  lemma WalkStage(w: Woodcutter)
    requires MayAct(w) && w.state == Searching && w.target.Some?
    ensures var v := OnWalkToWoodDone(OnGameTick(w).w, Reached, true);
      && MayAct(v) && v.state == WalkingToWood && v.target == w.target && v.ignore == w.ignore
      && v.failedWalks == w.failedWalks && v.carrying == w.carrying && DoesStripLogs(v) == DoesStripLogs(w)
      && v.manager == w.manager
  {
  }

  /** The tick into Woodcutting and a felling that does not throw. */
  lemma ChopStage(h: Handlers, w: Woodcutter, b: Block, logs: nat, stripped: map<TypeId, TypeId>, felling: Felling)
    requires MayAct(w) && w.state == WalkingToWood && w.target == Some(b)
    requires !FellingThrows(h, b.typeId, felling)
    ensures var chop := OnWoodcuttingDone(h, OnGameTick(w).w, Some(b.typeId), true, Some(logs), stripped, felling);
      && chop.choppedFor == (if b.typeId == DarkOakLog then 300 else 100)
      && MayAct(chop.w) && chop.w.state == Woodcutting && chop.w.target == w.target && chop.w.ignore == w.ignore
      && chop.w.failedWalks == w.failedWalks && chop.w.manager == w.manager
      && chop.w.carrying == AddToCarrying(w.carrying, CreditedTypeId(w, b.typeId, stripped), logs)
  {
    assert CreditedTypeId(OnGameTick(w).w, b.typeId, stripped) == CreditedTypeId(w, b.typeId, stripped);
  }

  /** The tick into WalkingToChest, a full delivery, and the tick back to Idle. */
  lemma ChestStage(w: Woodcutter, chest: Chest, order: seq<TypeId>, accepts: StackRule)
    requires MayAct(w) && w.state == Woodcutting && w.manager.Some? && chest.hasInventory
    requires ListsKeys(order, w.carrying) && !DepositLoop(order, w.carrying, accepts).threw
    ensures var d := OnWalkToChestDone(OnGameTick(w).w, Some(chest), false, true, order, accepts);
      var v := OnGameTick(d.w).w;
      && v.state == Idle && MayAct(v) && v.carrying == map[] && v.ignore == w.ignore
      && v.failedWalks == w.failedWalks && v.target == w.target
      && d.offered == PositiveCounts(w.carrying)
  {
  }
}
