/** The four phase handlers started by OnGameTick (OnStateChangeToSearching,
    OnStateChangeToWalkingToWood, OnStateChangeToWoodcutting,
    OnStateChangedToWalkingToChest), each as the record it leaves behind once
    its awaits have completed. Every awaited outcome is a parameter: the
    search job's result, the connected blocks, the walk's result, the chest
    found, the entity's validity after a wait, and whether a host call threw.
    A handler whose flag stays down until it returns is one completion; the
    walk handler's catch, which raises the flag before a wait, is split into
    its parts. */
module WoodcutterPhases {
  import opened Types
  import opened BlockIds
  import opened WoodcutterRecord
  import opened TreeSearch
  import opened Saplings

  /** A handler either leaves the woodcutter registered or removes it. */
  datatype SearchEnd = Continue(w: Woodcutter) | Removed(w: Woodcutter)

  /** Releases the flag after a handler: the next tick may act again. */
  function Release(w: Woodcutter): Woodcutter {
    w.(ready := true)
  }

  /** The search found `found`, valid now; the blocks connected to it could
      be read (`connected`, None when GetAllConnectedBlocksOfType threw);
      and it passed the tree check. */
  predicate Accepted(found: Option<Block>, connected: Option<seq<TypeId>>) {
    found.Some? && found.value.valid && connected.Some? && IsLogPartOfAValidTree(found.value, connected.value)
  }

  /** The search ends with the flag still down: the found log turned
      invalid before the check, or the tree check threw. */
  predicate SearchStalls(w: Woodcutter, managerBlockValid: bool, found: Option<Block>,
                         connected: Option<seq<TypeId>>) {
    w.manager.Some? && managerBlockValid && found.Some? && (!found.value.valid || connected.None?)
  }

  /** OnStateChangeToSearching, after the search job: `managerBlockValid`
      is the manager block's validity, `found` the job's result with its
      validity now, `connected` the blocks connected to it. */
  function OnSearchingDone(w: Woodcutter, managerBlockValid: bool, found: Option<Block>,
                           connected: Option<seq<TypeId>>): (r: SearchEnd)
    ensures r.Removed? <==> w.manager.None?
    ensures r.Removed? ==> !EntityValid(r.w) && r.w.state == w.state && r.w.ready == w.ready
    ensures w.manager.Some? && managerBlockValid && Accepted(found, connected) ==>
      && r.w.ignore == []
      && r.w.target == found
      && r.w.state == w.state
      && r.w.ready
    ensures w.manager.Some? && managerBlockValid && found.Some? && found.value.valid && connected.Some?
            && !Accepted(found, connected) ==>
      && r.w.ignore == w.ignore + [found.value.location]
      && r.w.state == Idle
      && r.w.ready
    ensures w.manager.Some? && (!managerBlockValid || found.None?) ==>
      r.w.ignore == w.ignore && r.w.state == Idle && r.w.ready
    ensures SearchStalls(w, managerBlockValid, found, connected) ==> r.w == w
    ensures w.manager.Some? && !SearchStalls(w, managerBlockValid, found, connected) ==> r.w.ready
    ensures r.w.ignore == [] || r.w.ignore == w.ignore || (found.Some? && r.w.ignore == w.ignore + [found.value.location])
    ensures r.w.carrying == w.carrying && r.w.failedWalks == w.failedWalks
    ensures r.Continue? ==> EntityValid(r.w) == EntityValid(w) && SameSettings(r.w, w)
    ensures r.w.loading == w.loading && r.w.manager == w.manager && r.w.instance == w.instance
    ensures !(w.manager.Some? && managerBlockValid && Accepted(found, connected)) ==> r.w.target == w.target
    ensures OnlyStateNameWritten(r.w, w)
  {
    if w.manager.None? then Removed(Remove(w))
    else if !managerBlockValid then Continue(Release(SetState(w, Idle)))
    else
      match found
      case None => Continue(Release(SetState(w, Idle)))
      case Some(b) =>
        if !b.valid then Continue(w)
        else
          match connected
          case None => Continue(w)
          case Some(blocks) =>
            if IsLogPartOfAValidTree(b, blocks) then
              Continue(Release(w.(target := Some(b), ignore := [])))
            else
              Continue(Release(SetState(w.(ignore := w.ignore + [b.location]), Idle)))
  }

  /** How EntityWalker.MoveTo ended: reached the goal, resolved without
      reaching it, or threw (no path). */
  datatype WalkOutcome = Reached | NotReached | Threw

  /** Consecutive failed walks tolerated before the cycle restarts. */
  const MaxFailedWalks: nat := 4

  /** The catch of a MoveTo that threw, as written: back to Searching with
      the flag raised, although the handler still has its retry wait and
      its final writes ahead. */
  function WalkThrewCatch(w: Woodcutter): (r: Woodcutter)
    ensures r.state == Searching && r.ready
    ensures EntityValid(r) == EntityValid(w) && SameSettings(r, w)
    ensures r.(state := w.state, entity := w.entity, ready := w.ready) == w
    ensures OnlyStateNameWritten(r, w)
  {
    Release(SetState(w, Searching))
  }

  /** The corrected catch: back to Searching, leaving the flag to the end
      of the handler as every other path does. */
  function IntendedWalkThrewCatch(w: Woodcutter): (r: Woodcutter)
    ensures r.state == Searching && r.ready == w.ready
    ensures EntityValid(r) == EntityValid(w) && SameSettings(r, w)
    ensures r.(state := w.state, entity := w.entity) == w
    ensures OnlyStateNameWritten(r, w)
  {
    SetState(w, Searching)
  }

  /** After a walk that did not arrive, up to the retry wait: the entity's
      validity is observed and, when it is valid, one more failed walk is
      counted. */
  function CountFailedWalk(w: Woodcutter, validAfter: bool): (r: Woodcutter)
    requires w.entity.Some?
    ensures EntityValid(r) == validAfter
    ensures r.failedWalks == (if validAfter then w.failedWalks + 1 else w.failedWalks)
    ensures r.entity.Some? && r.entity.value.props == w.entity.value.props
    ensures r.(entity := w.entity, failedWalks := w.failedWalks) == w
  {
    var settled := WithEntityValid(w, validAfter);
    if validAfter then settled.(failedWalks := w.failedWalks + 1) else settled
  }

  /** After the 150-tick retry wait. When a failure was counted, more than
      four failures restart the cycle from Idle with the counter cleared,
      otherwise Searching is entered again; when the entity was invalid the
      state reverts to Woodcutting. The flag is raised in every case. */
  function RetryWaitEnded(w: Woodcutter, counted: bool): (r: Woodcutter)
    ensures r.ready
    ensures counted && w.failedWalks > MaxFailedWalks ==> r.state == Idle && r.failedWalks == 0
    ensures counted && w.failedWalks <= MaxFailedWalks ==> r.state == Searching && r.failedWalks == w.failedWalks
    ensures !counted ==> r.state == Woodcutting && r.failedWalks == w.failedWalks
    ensures EntityValid(r) == EntityValid(w) && SameSettings(r, w)
    ensures r.(state := w.state, entity := w.entity, failedWalks := w.failedWalks, ready := w.ready) == w
    ensures OnlyStateNameWritten(r, w)
  {
    if !counted then Release(SetState(w, Woodcutting))
    else if w.failedWalks > MaxFailedWalks then Release(SetState(w.(failedWalks := 0), Idle))
    else Release(SetState(w, Searching))
  }

  /** OnStateChangeToWalkingToWood run to its end with no tick in between:
      `validAfter` is the entity's validity once MoveTo has settled. */
  function OnWalkToWoodDone(w: Woodcutter, walk: WalkOutcome, validAfter: bool): (r: Woodcutter)
    ensures w.target.None? ==> r.state == Searching && r.failedWalks == w.failedWalks
    ensures w.target.Some? && w.entity.Some? && !EntityValid(w) ==> r.state == Woodcutting
    ensures w.target.Some? && EntityValid(w) && !validAfter ==>
      r.state == Woodcutting && r.failedWalks == w.failedWalks && !EntityValid(r)
    ensures w.target.Some? && EntityValid(w) && validAfter && walk == Reached ==>
      r.state == w.state && r.failedWalks == w.failedWalks
    ensures w.target.Some? && EntityValid(w) && validAfter && walk != Reached ==>
      if w.failedWalks + 1 > MaxFailedWalks then r.state == Idle && r.failedWalks == 0
      else r.state == Searching && r.failedWalks == w.failedWalks + 1
    ensures w.target.Some? && EntityValid(w) && walk != Reached ==>
      r == RetryWaitEnded(CountFailedWalk(w, validAfter), validAfter)
    ensures w.target.None? || w.entity.Some? ==> r.ready
    ensures w.target.Some? && w.entity.None? ==> r == w
    ensures r.carrying == w.carrying && r.ignore == w.ignore && r.target == w.target
    ensures EntityValid(r) == (if w.target.Some? && EntityValid(w) then validAfter else EntityValid(w))
    ensures EntityValid(r) ==> SameSettings(r, w)
    ensures r.loading == w.loading && r.manager == w.manager && r.instance == w.instance
    ensures OnlyStateNameWritten(r, w)
  {
    if w.target.None? then Release(SetState(w, Searching))
    else if w.entity.None? then w
    else if !w.entity.value.valid then Release(SetState(w, Woodcutting))
    else
      var caught := if walk == Threw then WalkThrewCatch(WithEntityValid(w, validAfter)) else w;
      if validAfter && walk == Reached then Release(WithEntityValid(caught, true))
      else RetryWaitEnded(CountFailedWalk(caught, validAfter), validAfter)
  }

  /** With no tick between the throw and the end of the retry wait, a walk
      that threw ends exactly like one that did not arrive, whatever the
      entity's validity once MoveTo has settled: the catch and the validity
      check after it run with no wait between them, so the catch sees that
      same validity. The corrected catch ends the same way as the written
      one. */
  lemma ThrownWalkIsFailedWalk(w: Woodcutter, validAfter: bool)
    ensures OnWalkToWoodDone(w, Threw, validAfter) == OnWalkToWoodDone(w, NotReached, validAfter)
    ensures w.target.Some? && EntityValid(w) ==>
      RetryWaitEnded(CountFailedWalk(IntendedWalkThrewCatch(WithEntityValid(w, validAfter)), validAfter), validAfter)
        == OnWalkToWoodDone(w, Threw, validAfter)
  {
  }

  /** The host's map from log type to stripped log type is not part of
      this model; a missing key reads as `undefined`, whose string form
      becomes the carried key. */
  const UndefinedKey: TypeId := "undefined"

  function StrippedKey(stripped: map<TypeId, TypeId>, log: TypeId): TypeId {
    if log in stripped then stripped[log] else UndefinedKey
  }

  /** The type credited for a felled `log`: its stripped variant when the
      woodcutter strips logs, else the log's own type. */
  function CreditedTypeId(w: Woodcutter, log: TypeId, stripped: map<TypeId, TypeId>): (k: TypeId)
    ensures DoesStripLogs(w) && log in stripped ==> k == stripped[log]
    ensures DoesStripLogs(w) && log !in stripped ==> k == UndefinedKey
    ensures !DoesStripLogs(w) ==> k == log
  {
    if !DoesStripLogs(w) then log else StrippedKey(stripped, log)
  }

  /** The chop time of a log. */
  function ChopTicks(log: TypeId): nat {
    if log != DarkOakLog then 100 else 300
  }

  /** The stretch after the logs are credited: `ground` is the type of the
      valid block the ray down from the target hit, if any; `hostThrew`
      says another host call there threw (setting the logs to air, the ray
      cast, the dark oak sapling finder's construction, planting);
      `saplingTypes` is what the host's generic sapling block accepts
      (see `HostAccepts`). */
  datatype Felling = Felling(ground: Option<TypeId>, hostThrew: bool, saplingTypes: set<string>)

  /** The handlers as written, or with the two corrections: the walk's
      catch leaves the flag down, and the jungle log's sapling_type is
      "jungle". */
  datatype Handlers = AsWritten | Intended

  /** The sapling lookup the handlers use. */
  function SaplingLookup(h: Handlers, log: TypeId): Option<Sapling> {
    if h == AsWritten then SaplingForLog(log) else IntendedSaplingForLog(log)
  }

  /** The felling throws out of the handler, leaving the flag down. */
  predicate FellingThrows(h: Handlers, log: TypeId, f: Felling) {
    f.hostThrew || SaplingRejected(SaplingLookup(h, log), log, f.ground, f.saplingTypes)
  }

  /** On a host whose generic sapling block accepts the six vanilla
      values: with the corrected table a felling throws only when another
      host call does; as written, a jungle log on dirt or grass throws as
      well. On a host without the generic block both tables throw for every
      generic-sapling log on dirt or grass. */
  lemma FellingThrowsOnlyOnHostError(log: TypeId, f: Felling)
    ensures VanillaSaplingTypes <= f.saplingTypes ==> (FellingThrows(Intended, log, f) <==> f.hostThrew)
    ensures (f.ground == Some(Dirt) || f.ground == Some(Grass)) && VanillaSaplingTypes <= f.saplingTypes
            && "mjungle" !in f.saplingTypes ==>
      (FellingThrows(AsWritten, log, f) <==> f.hostThrew || log == JungleLog)
    ensures (f.ground == Some(Dirt) || f.ground == Some(Grass)) && f.saplingTypes == {} ==>
      && (FellingThrows(AsWritten, log, f) <==> f.hostThrew || GenericReplant(log))
      && (FellingThrows(Intended, log, f) <==> f.hostThrew || GenericReplant(log))
  {
    IntendedSaplingNeverRejected(log, f.ground, f.saplingTypes);
    if f.ground == Some(Dirt) || f.ground == Some(Grass) {
      JungleReplantIsRejected(log, f.ground, f.saplingTypes);
    }
  }

  /** A woodcutting handler's end: the record, and how long it chopped. */
  datatype ChopEnd = ChopEnd(w: Woodcutter, choppedFor: nat)

  /** The woodcutter reaches the chop wait: its entity is valid and the
      target is still valid, of type `targetNow`. */
  predicate Chops(w: Woodcutter, targetNow: Option<TypeId>) {
    EntityValid(w) && w.target.Some? && targetNow.Some?
  }

  /** It fells the target: the entity is still valid after the wait and
      the connected logs could be read. */
  predicate Felled(w: Woodcutter, targetNow: Option<TypeId>, validAfterWait: bool, connectedLogs: Option<nat>) {
    Chops(w, targetNow) && validAfterWait && connectedLogs.Some?
  }

  /** OnStateChangeToWoodcutting: `targetNow` is the target's type when the
      handler starts (None when it is no longer valid), `validAfterWait` the
      entity's validity after the chop wait, `connectedLogs` the number of
      connected logs (None when reading them threw), `felling` how the
      felling and replanting went. */
  function OnWoodcuttingDone(h: Handlers, w: Woodcutter, targetNow: Option<TypeId>, validAfterWait: bool,
                             connectedLogs: Option<nat>, stripped: map<TypeId, TypeId>,
                             felling: Felling): (r: ChopEnd)
    ensures Chops(w, targetNow) ==> r.choppedFor == (if targetNow.value == DarkOakLog then 300 else 100)
    ensures !Chops(w, targetNow) ==> r.choppedFor == 0
    ensures Felled(w, targetNow, validAfterWait, connectedLogs) ==>
      && r.w.carrying == AddToCarrying(w.carrying, CreditedTypeId(w, targetNow.value, stripped), connectedLogs.value)
      && r.w.state == w.state
      && r.w.ready == (w.ready || !FellingThrows(h, targetNow.value, felling))
    ensures !Felled(w, targetNow, validAfterWait, connectedLogs) ==> r.w.carrying == w.carrying && r.w.ready
    ensures EntityValid(w) && (w.target.None? || targetNow.None? || !validAfterWait) ==> r.w.state == Idle
    ensures Chops(w, targetNow) && validAfterWait && connectedLogs.None? ==> r.w.state == Woodcutting
    ensures w.entity.Some? && !EntityValid(w) ==> r.w.state == Idle
    ensures w.entity.None? ==> r.w == w.(ready := true)
    ensures r.w.ignore == w.ignore && r.w.failedWalks == w.failedWalks && r.w.target == w.target
    ensures EntityValid(r.w) == (if Chops(w, targetNow) then validAfterWait else EntityValid(w))
    ensures EntityValid(r.w) ==> SameSettings(r.w, w)
    ensures r.w.loading == w.loading && r.w.manager == w.manager && r.w.instance == w.instance
    ensures OnlyStateNameWritten(r.w, w)
  {
    if w.entity.None? then ChopEnd(Release(w), 0)
    else if !w.entity.value.valid then ChopEnd(Release(SetState(w, Idle)), 0)
    else if w.target.None? || targetNow.None? then ChopEnd(Release(SetState(w, Idle)), 0)
    else
      var log := targetNow.value;
      var settled := WithEntityValid(w, validAfterWait);
      if !validAfterWait then ChopEnd(Release(SetState(settled, Idle)), ChopTicks(log))
      else
        match connectedLogs
        case None => ChopEnd(Release(SetState(settled, Woodcutting)), ChopTicks(log))
        case Some(n) =>
          var credited := settled.(carrying := AddToCarrying(settled.carrying, CreditedTypeId(settled, log, stripped), n));
          ChopEnd(if FellingThrows(h, log, felling) then credited else Release(credited), ChopTicks(log))
  }

  /** The chest GetAdjacentChest returned, and whether it has an inventory. */
  datatype Chest = Chest(location: Location, hasInventory: bool)

  /** A delivery's effect: the new record and what was offered to the chest. */
  datatype Delivery = Delivery(w: Woodcutter, offered: map<TypeId, nat>)

  /** The carried entries with a positive count. */
  function PositiveCounts(carrying: map<TypeId, nat>): (m: map<TypeId, nat>)
    ensures forall k :: k in m <==> k in carrying && carrying[k] > 0
    ensures forall k :: k in m ==> m[k] == carrying[k]
  {
    map k | k in carrying && carrying[k] > 0 :: carrying[k]
  }

  /** Which (type, amount) pairs the host's ItemStack constructor accepts;
      it throws for the others (an unknown item id such as "undefined", or
      an amount it does not allow). */
  type StackRule = (TypeId, nat) -> bool

  /** The deposit loop builds a stack for `k` and the host refuses it. */
  predicate Refused(k: TypeId, carrying: map<TypeId, nat>, accepts: StackRule) {
    k in carrying && carrying[k] > 0 && !accepts(k, carrying[k])
  }

  /** `order` is the host's enumeration of the keys of `m`. */
  predicate ListsKeys(order: seq<TypeId>, m: map<TypeId, nat>) {
    && (forall i :: 0 <= i < |order| ==> order[i] in m)
    && (forall k :: k in m ==> k in order)
  }

  /** What the deposit loop offered, and whether an ItemStack threw. */
  datatype DepositRun = DepositRun(offered: map<TypeId, nat>, threw: bool)

  /** `i` is the first position of `order` whose stack the host refuses. */
  predicate FirstRefusal(order: seq<TypeId>, carrying: map<TypeId, nat>, accepts: StackRule, i: nat) {
    && i < |order| && Refused(order[i], carrying, accepts)
    && forall j :: 0 <= j < i ==> !Refused(order[j], carrying, accepts)
  }

  /** `offered` holds exactly the positive carried counts of the keys listed in `keys`. */
  ghost predicate OffersExactly(offered: map<TypeId, nat>, keys: seq<TypeId>, carrying: map<TypeId, nat>) {
    forall k :: k in offered <==> k in keys && k in carrying && carrying[k] > 0
  }

  /** The deposit loop over the carried types in the order `order`: every
      positive count becomes a stack offered to the chest, until the first
      stack the host refuses throws out of the loop. The stacks offered
      before it stay in the chest. */
  function DepositLoop(order: seq<TypeId>, carrying: map<TypeId, nat>, accepts: StackRule): (d: DepositRun)
    ensures d.threw <==> exists i :: 0 <= i < |order| && Refused(order[i], carrying, accepts)
    ensures !d.threw ==> OffersExactly(d.offered, order, carrying)
    ensures d.threw ==> exists i: nat :: FirstRefusal(order, carrying, accepts, i) && OffersExactly(d.offered, order[..i], carrying)
    ensures forall k :: k in d.offered ==> k in order && k in carrying && d.offered[k] == carrying[k] > 0
    ensures forall k :: k in d.offered ==> accepts(k, carrying[k])
    decreases |order|
  {
    if |order| == 0 then DepositRun(map[], false)
    else
      var k := order[0];
      assert forall i :: 1 <= i < |order| ==> order[i] == order[1..][i - 1];
      if !(k in carrying && carrying[k] > 0) then
        var rest := DepositLoop(order[1..], carrying, accepts);
        FirstRefusalShift(order, carrying, accepts, rest.offered, rest.offered, rest.threw);
        rest
      else if !accepts(k, carrying[k]) then
        assert FirstRefusal(order, carrying, accepts, 0) && order[..0] == [];
        DepositRun(map[], true)
      else
        var rest := DepositLoop(order[1..], carrying, accepts);
        var offered := rest.offered[k := carrying[k]];
        FirstRefusalShift(order, carrying, accepts, rest.offered, offered, rest.threw);
        DepositRun(offered, rest.threw)
  }

  /** A first refusal in the tail, behind a head that is not refused, is
      the first refusal of the whole order, one position on; the head's
      stack, if any, joins what was offered before it. */
  lemma FirstRefusalShift(order: seq<TypeId>, carrying: map<TypeId, nat>, accepts: StackRule,
                          rest: map<TypeId, nat>, offered: map<TypeId, nat>, threw: bool)
    requires |order| > 0 && !Refused(order[0], carrying, accepts)
    requires offered == if order[0] in carrying && carrying[order[0]] > 0 then rest[order[0] := carrying[order[0]]] else rest
    requires threw ==> exists i: nat :: FirstRefusal(order[1..], carrying, accepts, i) && OffersExactly(rest, order[1..][..i], carrying)
    ensures threw ==> exists i: nat :: FirstRefusal(order, carrying, accepts, i) && OffersExactly(offered, order[..i], carrying)
  {
    if threw {
      var i: nat :| FirstRefusal(order[1..], carrying, accepts, i) && OffersExactly(rest, order[1..][..i], carrying);
      assert order[..i + 1] == [order[0]] + order[1..][..i];
      forall j | 0 <= j < i + 1
        ensures !Refused(order[j], carrying, accepts)
      {
        if j > 0 {
          assert order[j] == order[1..][j - 1];
        }
      }
      assert FirstRefusal(order, carrying, accepts, i + 1);
    }
  }

  /** Over all the carried keys, a deposit that does not throw offers
      exactly the positive counts. */
  lemma DepositOffersPositiveCounts(order: seq<TypeId>, carrying: map<TypeId, nat>, accepts: StackRule)
    ensures ListsKeys(order, carrying) && !DepositLoop(order, carrying, accepts).threw ==>
      DepositLoop(order, carrying, accepts).offered == PositiveCounts(carrying)
  {
  }

  /** The delivery ends with the flag still down: the deposit threw, and
      no earlier catch had raised it. */
  predicate DepositStalls(w: Woodcutter, chest: Option<Chest>, walkThrew: bool, validAfter: bool,
                          order: seq<TypeId>, accepts: StackRule) {
    && w.manager.Some? && chest.Some? && chest.value.hasInventory && EntityValid(w) && validAfter
    && !walkThrew && DepositLoop(order, w.carrying, accepts).threw
  }

  /** OnStateChangedToWalkingToChest, after the chest lookup and the walk:
      `walkThrew` says MoveTo threw, `validAfter` is the entity's validity
      afterwards, `order` the host's order of the carried types and
      `accepts` which stacks the host builds. A missing manager block makes
      the handler throw before it changes anything. */
  function OnWalkToChestDone(w: Woodcutter, chest: Option<Chest>, walkThrew: bool, validAfter: bool,
                             order: seq<TypeId>, accepts: StackRule): (r: Delivery)
    ensures w.manager.Some? && chest.None? ==>
      r.w.state == Woodcutting && r.w.carrying == w.carrying && r.w.ready && r.offered == map[]
    ensures w.manager.Some? && chest.Some? && EntityValid(w) && validAfter ==>
      var deposit := DepositLoop(order, w.carrying, accepts);
      var threw := chest.value.hasInventory && deposit.threw;
      && r.w.state == (if walkThrew then Woodcutting else w.state)
      && r.offered == (if chest.value.hasInventory then deposit.offered else map[])
      && (threw ==> r.w.carrying == w.carrying && r.w.ready == (walkThrew || w.ready))
      && (!threw ==> r.w.carrying == map[] && r.w.ready)
    ensures w.manager.Some? && chest.Some? && chest.value.hasInventory && EntityValid(w) && validAfter
            && ListsKeys(order, w.carrying) && !DepositLoop(order, w.carrying, accepts).threw ==>
      r.offered == PositiveCounts(w.carrying)
    ensures DepositStalls(w, chest, walkThrew, validAfter, order, accepts) ==> r.w == w
    ensures w.manager.Some? && chest.Some? && EntityValid(w) && !validAfter ==>
      r.w.state == Idle && r.w.carrying == w.carrying && r.w.ready && r.offered == map[]
    ensures w.manager.Some? && chest.Some? && w.entity.Some? && !EntityValid(w) ==>
      r.w.state == Woodcutting && r.w.carrying == w.carrying && r.w.ready
    ensures (&& w.manager.Some? && (chest.None? || w.entity.Some?)
             && !DepositStalls(w, chest, walkThrew, validAfter, order, accepts)) ==> r.w.ready
    ensures w.manager.None? || (chest.Some? && w.entity.None?) ==> r == Delivery(w, map[])
    ensures forall k :: k in r.offered ==> k in w.carrying && r.offered[k] == w.carrying[k] > 0
    ensures r.w.ignore == w.ignore && r.w.failedWalks == w.failedWalks && r.w.target == w.target
    ensures EntityValid(r.w) == (if w.manager.Some? && chest.Some? && EntityValid(w) then validAfter else EntityValid(w))
    ensures EntityValid(r.w) ==> SameSettings(r.w, w)
    ensures r.w.loading == w.loading && r.w.manager == w.manager && r.w.instance == w.instance
    ensures OnlyStateNameWritten(r.w, w)
  {
    if w.manager.None? then Delivery(w, map[])
    else if chest.None? then Delivery(Release(SetState(w, Woodcutting)), map[])
    else if w.entity.None? then Delivery(w, map[])
    else if !w.entity.value.valid then Delivery(Release(SetState(w, Woodcutting)), map[])
    else DeliverToChest(w, chest.value, walkThrew, validAfter, order, accepts)
  }

  /** The chest handler from the walk on, with a chest found and a valid
      entity: the walk's catch, the validity check, the deposit and the
      clearing of the carried map. */
  function DeliverToChest(w: Woodcutter, chest: Chest, walkThrew: bool, validAfter: bool,
                          order: seq<TypeId>, accepts: StackRule): (r: Delivery)
    requires EntityValid(w)
    ensures validAfter ==>
      var deposit := DepositLoop(order, w.carrying, accepts);
      var threw := chest.hasInventory && deposit.threw;
      && r.w.state == (if walkThrew then Woodcutting else w.state)
      && r.offered == (if chest.hasInventory then deposit.offered else map[])
      && (threw ==> r.w.carrying == w.carrying && r.w.ready == (walkThrew || w.ready))
      && (!threw ==> r.w.carrying == map[] && r.w.ready)
    ensures chest.hasInventory && validAfter && ListsKeys(order, w.carrying) && !DepositLoop(order, w.carrying, accepts).threw ==>
      r.offered == PositiveCounts(w.carrying)
    ensures chest.hasInventory && validAfter && !walkThrew && DepositLoop(order, w.carrying, accepts).threw ==> r.w == w
    ensures !validAfter ==> r.w.state == Idle && r.w.carrying == w.carrying && r.w.ready && r.offered == map[]
    ensures !(chest.hasInventory && validAfter && !walkThrew && DepositLoop(order, w.carrying, accepts).threw) ==> r.w.ready
    ensures forall k :: k in r.offered ==> k in w.carrying && r.offered[k] == w.carrying[k] > 0
    ensures r.w.ignore == w.ignore && r.w.failedWalks == w.failedWalks && r.w.target == w.target
    ensures EntityValid(r.w) == validAfter && (validAfter ==> SameSettings(r.w, w))
    ensures r.w.loading == w.loading && r.w.manager == w.manager && r.w.instance == w.instance
    ensures OnlyStateNameWritten(r.w, w)
  {
    var settled := WithEntityValid(w, validAfter);
    var walked := if walkThrew then Release(SetState(settled, Woodcutting)) else settled;
    if !validAfter then Delivery(Release(SetState(walked, Idle)), map[])
    else if !chest.hasInventory then Delivery(Release(walked.(carrying := map[])), map[])
    else
      var deposit := DepositLoop(order, w.carrying, accepts);
      DepositOffersPositiveCounts(order, w.carrying, accepts);
      if deposit.threw then Delivery(walked, deposit.offered)
      else Delivery(Release(walked.(carrying := map[])), deposit.offered)
  }
}
