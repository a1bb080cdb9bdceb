# Woodcutter NPC: a Dafny model

This project models the woodcutter agent of a Minecraft Bedrock add-on
(`scripts/NPCs/Woodcutter.ts`) and its manager block
(`scripts/BlockHandlers/WoodcutterManagerBlock.ts`), and proves properties
of that model with Dafny.

A woodcutter repeats a five-state cycle: NONE, SEARCHING, WALKING_TO_WOOD,
WOODCUTTING, WALKING_TO_CHEST, then NONE again. NONE is `Idle` here. On
each game tick, `OnGameTick` either does nothing or advances the state by
one step. For the first four steps it also clears `IsReadyForStateChange`
and starts the asynchronous handler of the new state. The handler is meant
to raise the flag again when it finishes, and most paths do so as their
last step. Two kinds of path do not. Some raise it before a further wait:
the walk-to-wood handler's catch before its retry wait, and the woodcutting
handler before its 100-tick wait when the connected logs cannot be read.
Several paths return or throw with the flag still down.

The model keeps the agent's fields in an immutable record
(`WoodcutterRecord.Woodcutter`). The tick is a pure function. Each handler
is a pure "phase completion" function. It takes every awaited outcome as a
parameter: the search job's result, the blocks connected to a log, how the
walk ended, the chest found, whether the entity was still valid after a
wait, and whether a host call threw. A wait (`system.waitTicks`) or a job
(`system.runJob`) is one atomic completion event, except in the walk
handler's catch, which is split at its retry wait.

Modules, one per component:

- `Types`: `Option`, `Location`, `Block`.
- `BlockIds`: the log and leaf type lists, the ground types a sapling is planted on, and the chest type.
- `Saplings`: the log-to-sapling lookup, and when the host rejects its answer.
- `WoodcutterRecord`: the record, the typed entity properties, `SetState`, the getters with their defaults, the setters, `AddBlockToCarryingStack` and `Remove`.
- `TreeSearch`: the search job body and the tree check.
- `WoodcutterTick`: `OnGameTick`.
- `WoodcutterPhases`: the four handlers, as written and with the two corrections listed under Findings (`Handlers`).
- `WalkRetries`: repeated failed walks to the same target.
- `WoodcutterCache`: `Woodcutter.Cache`, the id counter, and the cache lookup and removal.
- `ManagerBlock`: the manager block.
- `WoodcutterRun`: one agent's life as a sequence of events. The properties that span several calls are stated here.

Things the host owns are parameters:

- the flood-fill iterator's output, as a sequence of yielded blocks;
- `GetAllConnectedBlocksOfType`, as a list of types or a count, or `None` when it throws;
- `EntityWalker.MoveTo`, as an outcome;
- the world's block types, as a function from location to type;
- `Math.random()`, as a real `r` in [0, 1);
- the world's next-id counter;
- the form response, and the entity's validity when it is submitted;
- the log-to-stripped-log map;
- the order in which `for…in` lists the carried types, and which stacks the `ItemStack` constructor accepts;
- the felling's outcome: the ground type the ray down from the target hits, and whether another host call there throws;
- which `sapling_type` values the host's generic "minecraft:sapling" block accepts (`Felling.saplingTypes`): the six vanilla values on a host that still has that block, none on a host with only per-species sapling blocks;
- the entity's validity once `GetAdjacentChest` has returned (`WalkToChestCompleted.validAtChest`).

Object identity (`===`) is an `instance` number on each record.

## Model

| member | source | states |
|---|---|---|
| `Saplings.Lookup` | scripts/NPCs/Woodcutter.ts:87-91 | the table walk answers exactly for logs that are keys of the table, with the sapling type of the first entry carrying that key |
| `Saplings.SaplingForLog` | scripts/NPCs/Woodcutter.ts:86-102 | every searched-for log except mangrove roots gets a sapling; each table log gets its table entry's sapling_type, cherry and mangrove logs their own sapling blocks; jungle gets "mjungle" as written |
| `Saplings.SaplingDomain` | scripts/NPCs/Woodcutter.ts:49-56 | a table keyed by the six generic-sapling logs has distinct keys and answers exactly the searched-for logs other than mangrove roots |
| `Saplings.JungleSaplingTypeIsUnknown` | scripts/NPCs/Woodcutter.ts:53 | the jungle entry is not a sapling_type the host accepts, and unlike every other entry it does not name the log's species |
| `Saplings.GenericReplantIsLegacy` | scripts/NPCs/Woodcutter.ts:87-102 | under either table, oak, birch, spruce, jungle and acacia logs resolve through the generic sapling block, and no other log but dark oak does |
| `Saplings.JungleReplantIsRejected` | scripts/NPCs/Woodcutter.ts:843-851 | on dirt or grass, relative to the values the host's generic sapling block accepts: the jungle replanting is rejected exactly when the host does not accept "mjungle"; on a host accepting the six vanilla values (and not "mjungle") it is the only rejected log; on a host without the generic block every generic-sapling log is rejected |
| `Saplings.IntendedSaplingForLog` | scripts/NPCs/Woodcutter.ts:49-56 | with the jungle entry corrected, every table answer is that entry's type, an accepted sapling_type equal to the species in the log's id |
| `Saplings.IntendedSaplingNeverRejected` | scripts/NPCs/Woodcutter.ts:843-851 | with the corrected table, on a host accepting the six vanilla values, no replanting is rejected; on a host without the generic block every generic-sapling log on dirt or grass still is |
| `WoodcutterRecord.SetState` | scripts/NPCs/Woodcutter.ts:311-320 | the in-memory state always changes; the state name is persisted only on a valid entity; every other property, the validity and every other field are unchanged |
| `WoodcutterRecord.SetSearchDistance` | scripts/NPCs/Woodcutter.ts:414-441 | on a valid entity the getter then returns the value set; without one the record is untouched; every other property and field is unchanged |
| `WoodcutterRecord.SetIsEnabled` | scripts/NPCs/Woodcutter.ts:447-474 | on a valid entity the getter then returns the value set; without one the record is untouched; every other property and field is unchanged |
| `WoodcutterRecord.SetDoesStripLogs` | scripts/NPCs/Woodcutter.ts:476-499 | on a valid entity the getter then returns the value set; without one the record is untouched; every other property and field is unchanged |
| `WoodcutterRecord.SettingDefaults` | scripts/NPCs/Woodcutter.ts:414-490 | unset properties read as distance 10, enabled, strips logs; with no valid entity stripping reads false instead |
| `WoodcutterRecord.AddToCarrying` | scripts/NPCs/Woodcutter.ts:327-333 | the amount is added to one key, which starts at 0 when absent; every other key keeps its count |
| `WoodcutterRecord.Remove` | scripts/NPCs/Woodcutter.ts:1008-1015 | afterwards the entity is not valid; no other field changes |
| `TreeSearch.GetBlockFromFloodFill` | scripts/NPCs/Woodcutter.ts:1022-1040 | returns the first yielded block that is non-null, valid and of a sought type, or None when exhausted; yields once per entry passed over |
| `TreeSearch.CountOfIsIndexCount` | scripts/NPCs/Woodcutter.ts:343-349 | the counting loop counts exactly the positions holding one of the counted types, here the leaf types |
| `TreeSearch.IsLogPartOfAValidTree` | scripts/NPCs/Woodcutter.ts:340-363 | true iff at least four connected blocks are leaves; the log's own type, dark oak included, plays no part |
| `WoodcutterTick.OnGameTick` | scripts/NPCs/Woodcutter.ts:521-574 | no change while loading, entity invalid, disabled or not ready, holding 600 ticks in the middle two cases; otherwise exactly one step of the cycle, starting the new state's handler and clearing the flag except on the step back to Idle; leaving Idle zeroes the failure counter; the `Id` and every stored property but the state name are kept |
| `WoodcutterTick.NotReadyIsFrozen` | scripts/NPCs/Woodcutter.ts:540-543 | any number of ticks leaves a not-ready woodcutter exactly as it is |
| `WoodcutterTick.StartedPhaseBlocksTicks` | scripts/NPCs/Woodcutter.ts:545-566 | after a tick starts a handler, further ticks change nothing until it completes |
| `WoodcutterTick.CycleHasLengthFive` | scripts/NPCs/Woodcutter.ts:546-572 | five steps of the cycle return to the starting state and no step stays put |
| `WoodcutterPhases.OnSearchingDone` | scripts/NPCs/Woodcutter.ts:580-663 | no manager block: removed. Invalid manager block or nothing found: Idle, ignore list unchanged. Accepted tree: target recorded, ignore list cleared, ready. Rejected log: its location appended, Idle. A found log that turned invalid, or a tree check whose block read throws: nothing changes and the flag stays down. The target changes only on an accepted tree; the `Id` and every stored property but the state name are kept |
| `WoodcutterPhases.WalkThrewCatch` | scripts/NPCs/Woodcutter.ts:699-705 | the catch of a walk that threw returns to Searching with the flag raised; of the record and the stored properties only the state name changes besides |
| `WoodcutterPhases.IntendedWalkThrewCatch` | scripts/NPCs/Woodcutter.ts:699-705 | the corrected catch returns to Searching and leaves the flag as it was; of the stored properties only the state name changes |
| `WoodcutterPhases.CountFailedWalk` | scripts/NPCs/Woodcutter.ts:707-711 | after a failed walk the entity's validity is observed, and one failure is counted exactly when it is valid |
| `WoodcutterPhases.RetryWaitEnded` | scripts/NPCs/Woodcutter.ts:712-736 | after the retry wait the flag is raised; a counted failure past 4 resets to Idle with the counter 0, otherwise back to Searching; an uncounted one reverts to Woodcutting; only the state name is written to the entity |
| `WoodcutterPhases.OnWalkToWoodDone` | scripts/NPCs/Woodcutter.ts:669-746 | run with no tick in between: a failed walk (not arrived or threw) counts one failure; more than 4 resets the counter and goes Idle, otherwise back to Searching; a walk that threw ends exactly as the retry path of one that did not arrive, the catch's writes all overwritten; arrival keeps the state; an entity invalid before or after the walk reverts to Woodcutting; no target reverts to Searching; a null entity leaves the flag down; the `Id` and every stored property but the state name are kept |
| `WoodcutterPhases.ThrownWalkIsFailedWalk` | scripts/NPCs/Woodcutter.ts:694-725 | with no tick between the throw and the end of the retry wait, a walk that threw ends exactly like one that did not arrive, whether or not the entity is valid once the walk settles, since the catch sees the same validity as the check after it; the corrected catch ends the same way |
| `WoodcutterPhases.CreditedTypeId` | scripts/NPCs/Woodcutter.ts:802-809 | the felled logs are credited under the stripped type of the log's live type when stripping is on, "undefined" when the map has no entry, else under the log's own type |
| `WoodcutterPhases.FellingThrowsOnlyOnHostError` | scripts/NPCs/Woodcutter.ts:834-888 | on a host accepting the six vanilla sapling types: with the corrected table a felling throws only when another host call does; as written, a jungle log on dirt or grass throws too. On a host without the generic block both tables throw for every generic-sapling log on dirt or grass |
| `WoodcutterPhases.OnWoodcuttingDone` | scripts/NPCs/Woodcutter.ts:752-911 | chops for 300 ticks on dark oak, 100 otherwise; a felling adds the connected-log count under the credited key and changes no other key; a felling that then throws leaves the flag down; an invalid entity, target or entity-after-wait goes Idle; unreadable connected logs stay in Woodcutting; a null entity only raises the flag; the `Id` and every stored property but the state name are kept |
| `WoodcutterPhases.DepositLoop` | scripts/NPCs/Woodcutter.ts:957-967 | the loop throws iff some carried positive count is refused as a stack; every stack offered is a carried positive count the host accepts; without a throw the offered keys are exactly the listed positive counts; with one, exactly the positive counts listed before the first refused key |
| `WoodcutterPhases.DepositOffersPositiveCounts` | scripts/NPCs/Woodcutter.ts:957-967 | over an enumeration of all carried types, a deposit that does not throw offers exactly the carried entries with a positive count |
| `WoodcutterPhases.OnWalkToChestDone` | scripts/NPCs/Woodcutter.ts:916-990 | no chest: back to Woodcutting with the carried map untouched. Chest and entity valid after the walk: the deposit's stacks are offered and the carried map emptied, even when the walk threw, unless a stack throws, which keeps the carried map (the stacks before it having been offered) and leaves the flag down unless the walk's catch raised it. Entity invalid after the walk: Idle, carried kept. No manager block or a null entity: nothing changes. The `Id` and every stored property but the state name are kept |
| `WoodcutterPhases.DeliverToChest` | scripts/NPCs/Woodcutter.ts:921-981 | from a valid entity: an entity invalid after the walk goes Idle with the carried map kept and nothing offered; otherwise the walk's catch (if it ran) reverts to Woodcutting and raises the flag, and the deposit goes on: every positive count the loop lists is offered (all of them when it lists every carried key) and the carried map emptied, unless a stack throws, which keeps the carried map and, without the catch, leaves the whole record unchanged; a chest without inventory offers nothing and empties the carried map; target, ignore list, counter and `Id` are kept |
| `WoodcutterCache.NewWoodcutter` | scripts/NPCs/Woodcutter.ts:251-286 | the constructor appends one Idle, ready, not-loading record without entity, `Id` or target, with nothing carried, nothing ignored and no failed walks; earlier entries are unchanged |
| `WoodcutterCache.CreateEntity` | scripts/NPCs/Woodcutter.ts:368-388 | with no counter nothing happens; otherwise the counter grows by one and the new valid entity carries the old value as its id, plus the manager coordinates and state when there is a manager |
| `WoodcutterCache.CreatedIdsIncrease` | scripts/NPCs/Woodcutter.ts:369-376 | successive creations receive consecutive, strictly increasing ids starting at the counter |
| `WoodcutterCache.GetFromCache` | scripts/NPCs/Woodcutter.ts:122-136 | returns the first cached woodcutter whose `Id` is set and equal to the entity's id, and None exactly when no entry matches |
| `WoodcutterCache.ConstructedCacheNeverMatches` | scripts/NPCs/Woodcutter.ts:251-293 | `Id` is never assigned, so a cache built by the constructor never answers a lookup |
| `WoodcutterCache.BuiltCacheNeverMatches` | scripts/NPCs/Woodcutter.ts:122-136 | after any number of constructor calls, no cached woodcutter has an `Id`, and no entity id is ever found in the cache |
| `WoodcutterCache.WithEntityId` | scripts/NPCs/Woodcutter.ts:288-293 | the in-memory id taken from the entity equals its stored "nox:id"; nothing else changes |
| `WoodcutterCache.ReloadedEntityIsFound` | scripts/NPCs/Woodcutter.ts:122-136 | with ids taken from the entity, reloading a cached woodcutter's entity finds that woodcutter unless an earlier one claims its id |
| `WoodcutterCache.RemoveEntity` | scripts/NPCs/Woodcutter.ts:111 | the entity is gone; nothing else changes |
| `WoodcutterCache.ClearFromCache` | scripts/NPCs/Woodcutter.ts:108-116 | the first entry that is the instance becomes that entry with its entity removed, but the cache keeps its length and every instance, because `slice` removes nothing; every other entry is unchanged |
| `WoodcutterCache.ClearedInstanceStaysCached` | scripts/NPCs/Woodcutter.ts:108-116 | after clearing, the instance is still found at the same position, its entity gone and everything else about it and the other entries unchanged, so clearing it again changes nothing |
| `WoodcutterCache.OnWoodcutterManagerBlockBroke` | scripts/NPCs/Woodcutter.ts:226-249 | the new cache is the ordered sublist of woodcutters whose stored manager location is readable and differs from the broken one; all others are removed, and the two counts add up to the old length |
| `WoodcutterCache.SurvivorsAppend` | scripts/NPCs/Woodcutter.ts:228-248 | the filter distributes over concatenation, so it preserves cache order |
| `WoodcutterCache.BreakIsIdempotent` | scripts/NPCs/Woodcutter.ts:226-249 | breaking the same location again keeps the whole cache and removes nobody |
| `ManagerBlock.GetFromLocation` | scripts/BlockHandlers/WoodcutterManagerBlock.ts:20-31 | returns the first cached block that is valid and exactly at the location; None iff there is none |
| `ManagerBlock.Construct` | scripts/BlockHandlers/WoodcutterManagerBlock.ts:39-45 | the cache grows by the new block with its coordinates recorded; earlier entries are unchanged |
| `ManagerBlock.ConstructThenLookup` | scripts/BlockHandlers/WoodcutterManagerBlock.ts:20-45 | a newly constructed valid block is found at its location unless an earlier valid block there shadows it |
| `ManagerBlock.SetWoodcutter` | scripts/BlockHandlers/WoodcutterManagerBlock.ts:116-118 | the block refers to the given woodcutter; nothing else changes |
| `ManagerBlock.LinkManager` | scripts/NPCs/Woodcutter.ts:513-516 | the woodcutter and the manager block refer to each other afterwards; nothing else changes |
| `ManagerBlock.SpawnIndex` | scripts/BlockHandlers/WoodcutterManagerBlock.ts:100 | for r in [0, 1) the chosen slot lies in [0, max(n-2, 0)], so the last of n >= 2 slots is never chosen |
| `ManagerBlock.SpawnIndexReachesAllButLast` | scripts/BlockHandlers/WoodcutterManagerBlock.ts:100 | every slot but the last is chosen by some r in [0, 1) |
| `ManagerBlock.SpawnWoodcutter` | scripts/BlockHandlers/WoodcutterManagerBlock.ts:95-110 | no empty location: nothing is created. Otherwise one Idle, ready, not-loading woodcutter tied to the block, with no target, nothing carried and no failed walks, is appended, spawned at a slot other than the last, given the next id, and the block refers to it |
| `WoodcutterRun.SpawnedWoodcutterStartsSearching` | scripts/BlockHandlers/WoodcutterManagerBlock.ts:95-110 | a woodcutter spawned while the id counter is set passes every guard of its first tick, which starts a search |
| `ManagerBlock.ChestWindowIsBox` | scripts/BlockHandlers/WoodcutterManagerBlock.ts:130-134 | the inspected locations are exactly the box from (x-1, y, z-1) to (x+1, y, z+1) |
| `ManagerBlock.FirstChest` | scripts/BlockHandlers/WoodcutterManagerBlock.ts:141-158 | the job returns the first listed location that still reads as a chest, or None when none does |
| `ManagerBlock.GetAdjacentChest` | scripts/BlockHandlers/WoodcutterManagerBlock.ts:123-160 | None for an invalid manager block; any chest returned lies in the window and read as a chest both when listed and when visited; None means no window location did |
| `ManagerBlock.ChestSearchSeesOnlyWindow` | scripts/BlockHandlers/WoodcutterManagerBlock.ts:130-158 | two worlds that agree on the window give the same answer |
| `ManagerBlock.SettingsFormFor` | scripts/BlockHandlers/WoodcutterManagerBlock.ts:56-64 | the form shows the current settings as defaults, with a 5..20 slider in steps of 1 |
| `ManagerBlock.OnPlayerInteract` | scripts/BlockHandlers/WoodcutterManagerBlock.ts:51-82 | the entity's validity is taken when the form is submitted; if valid, form values 0, 1 and 2 become enabled, search distance and strip logs and no other property changes; no woodcutter, no entity, no form values or an invalid entity at submission change nothing |
| `ManagerBlock.InteractKeepsSliderRange` | scripts/BlockHandlers/WoodcutterManagerBlock.ts:63-72 | a distance submitted through the slider is stored within 5..20 |
| `WoodcutterRun.StepKeepsOnePhase` | scripts/NPCs/Woodcutter.ts:540-572 | with the corrected catch, while a handler is in flight the flag is down; ticks then change nothing, so a tick never starts a second handler |
| `WoodcutterRun.TraceKeepsOnePhase` | scripts/NPCs/Woodcutter.ts:540-572 | with the corrected catch, along any feasible sequence of ticks and outcomes at most one handler is in flight |
| `WoodcutterRun.ThrownWalkStartsSecondHandler` | scripts/NPCs/Woodcutter.ts:699-712 | as written, after a throw, a tick during the retry wait starts a second walk handler, and the wait's end then raises the flag while that walk is in flight |
| `WoodcutterRun.StallFreezes` | scripts/NPCs/Woodcutter.ts:540-543 | an outcome leaves a registered woodcutter with its flag down exactly when it is one of the stalls; after a stall nothing is in flight and no tick changes the woodcutter again |
| `WoodcutterRun.SeenAtChest` | scripts/NPCs/Woodcutter.ts:918-921 | the chest handler sees the entity's validity after `GetAdjacentChest` returns, when there is a manager block and an entity; nothing else about the record changes |
| `WoodcutterRun.JungleTreeFreezes` | scripts/NPCs/Woodcutter.ts:802-851 | as written, on any host that does not accept "mjungle", felling a jungle tree on dirt or grass credits its logs and then freezes the woodcutter for good; with the corrected table it ends ready on a host accepting the six vanilla values, and still freezes on a host without the generic block |
| `WoodcutterRun.IgnoreListEpochs` | scripts/NPCs/Woodcutter.ts:630-662 | across any event the ignore list is kept, extended by the one rejected log, or cleared by an accepted tree |
| `WoodcutterRun.IgnoreListGrows` | scripts/NPCs/Woodcutter.ts:630-662 | over any sequence of events without an accepted tree, the old ignore list remains a prefix of the new one |
| `WoodcutterRun.FullCycle` | scripts/NPCs/Woodcutter.ts:521-574 | a full successful cycle ends in Idle, ready, carrying nothing, with an empty ignore list and the counter at 0, having chopped for the log's chop time and offered the chest the old counts plus the felled logs |
| `WalkRetries.RetryRoundIsFailedWalk` | scripts/NPCs/Woodcutter.ts:706-724 | a retry round is the tick into WalkingToWood followed by the whole walk handler for a walk that does not arrive |
| `WalkRetries.RetryRoundStep` | scripts/NPCs/Woodcutter.ts:707-724 | one retry round counts one more failure and returns to Searching, or on the fifth resets to Idle |
| `WalkRetries.RetriesCountFailures` | scripts/NPCs/Woodcutter.ts:707-724 | below the limit, each retry round counts one more failure and returns to Searching with the same target, ready to act |
| `WalkRetries.RetriesGiveUp` | scripts/NPCs/Woodcutter.ts:712-717 | the round that takes the count past 4 gives up: Idle, counter 0, ready |
| `WalkRetries.FailureLimitResets` | scripts/NPCs/Woodcutter.ts:707-724 | from any count, the walks that take the counter to 4 fail in Searching, and the next failure gives up: Idle, counter 0, ready. From 0 that is the fifth consecutive failure |

## Left out

- `LoadFromExistingEntity` (scripts/NPCs/Woodcutter.ts:142-220): it polls the world with `system.runInterval` until the manager block loads, then links, registers or clears. The operations it composes are modelled (`LinkManager`, `ClearFromCache`); the polling and the registration are host plumbing.
- NPCHandler: its registration, unregistration and tick dispatch are not part of this model. Unregistering shows only as `Removed` and `registered == false` in `WoodcutterRun`.
- PlayerDebounceManager and the 350 ms debounce in scripts/main.ts: not part of this model.
- The flood-fill iterator, the A* pathfinder (passable types, 300-node budget, walls and fences that cannot be jumped), `EntityWalker`, `GetAllConnectedBlocksOfType` (limits 100 and 75), `DarkOakSaplingLocationFinder` and `SaplingRaycastPlanter`: not part of this model. Their results are parameters. So the passable and unjumpable type lists and the search radius, which only these collaborators read, are not modelled.
- The flood-fill iterator's exclusion of the ignored locations: the search handler passes the ignore list to the iterator and never checks the result against it, so whether an ignored log can be found again depends on the iterator, which is not part of this model.
- World mutation: felling (`setPermutation` to air), placing the sapling, `addItem` into the chest, `kill`/`remove` beyond marking the entity invalid, and the animation properties "nox:is_moving" and "nox:is_chopping". The deposit shows only as `Delivery.offered`. Of the replanting, only whether it throws is modelled (`FellingThrows`): it decides whether the handler ends with the flag raised.
- Wait durations inside the handlers (150, 200 and 300 ticks; 10, 15 and 90 seconds): each wait is part of an atomic completion, except the walk handler's retry wait after a throw. The chop time (`ChopEnd.choppedFor`) and the tick's 600-tick hold are the only durations stated.
- `OnWoodcuttingDone`: when the connected logs cannot be read, the handler raises the flag and then waits 100 ticks before returning (scripts/NPCs/Woodcutter.ts:794-797). Nothing follows the wait, so the model completes the handler at the raise; a tick during that wait may start the next handler, and the rest of this one only waits.
- `Saplings.JungleReplantIsRejected`, `Saplings.IntendedSaplingNeverRejected`, `WoodcutterPhases.FellingThrowsOnlyOnHostError`, `WoodcutterRun.JungleTreeFreezes`: the set of `sapling_type` values the host's generic sapling block accepts is a parameter, not a fact of the model. The jungle-only rejection and the cure by "jungle" are proved for a host accepting the six vanilla values. The source's own sapling list (scripts/NPCs/Woodcutter.ts:71-80, with a pale oak sapling) suggests a host that has per-species sapling blocks. On a host without the generic block, every generic-sapling log's replanting throws under either table, and the lemmas state that case too.
- `WoodcutterPhases.FellingThrows`: on the dark oak path, the sapling is resolved through the same table (scripts/NPCs/Woodcutter.ts:868). On a host without the generic block that resolution throws as well. The model counts it under `hostThrew`, not under `SaplingRejected`.
- The entity's validity during a wait. In the source, `SetState` after a wait re-reads `isValid`: an entity gone during the wait keeps its old state name, and one back from an unloaded chunk gets the new one. The model has no validity outcome for these waits, so the entity can neither leave nor come back while a wait runs. It observes the entity only after `MoveTo` (both walk handlers), after `GetAdjacentChest`, and after the chop wait. The affected handlers follow, one per line.
- `RetryWaitEnded`: `SetState` after the 150-tick retry wait (scripts/NPCs/Woodcutter.ts:712-722) uses the validity observed before the wait.
- `WoodcutterPhases.OnSearchingDone`: `SetState(NONE)` after the 90 s, 15 s and 10 s waits (scripts/NPCs/Woodcutter.ts:592-595, 648-650, 657-659) uses the validity the entity had when the search began.
- `WoodcutterPhases.OnWalkToWoodDone`: two paths revert to WOODCUTTING after 150 ticks, using the validity observed before the wait (scripts/NPCs/Woodcutter.ts:737-741, 743-748). One is the entity found invalid after the walk; the other is the entity invalid on entry. The counted retry goes through `RetryWaitEnded` above.
- `WoodcutterPhases.OnWoodcuttingDone`: `SetState(NONE)` after the 150-tick waits for a target or entity gone invalid (scripts/NPCs/Woodcutter.ts:891-897, 899-905) uses the validity observed before the wait.
- `WoodcutterPhases.OnWalkToChestDone`, `WoodcutterPhases.DeliverToChest`: `SetState` after the 200-tick waits uses the validity observed before them. These are the waits in the walk's catch, in the invalid-entity branch and in the no-chest branch (scripts/NPCs/Woodcutter.ts:938-944, 972-978, 983-987).
- Dialogue (`InitDialog`, "nox:dialog_initiated" beyond being stored) and player messages.
- `Number()`/`Boolean()` coercion of entity properties and form values: properties are typed options, and the form response is typed. A coordinate that was never stored reads as NaN in the source and equals nothing; here it is `None`.
- The `try`/`catch` around `setProperty` in `SetState`, and the one around reading the manager coordinates. Both are assumed not to throw on a valid entity.
- The entity's position: `SpawnWoodcutter` reports the spawn location in `Spawn.at`, but the record does not track where the entity is.
- `LogToStrippedTypeIdMap` is not part of this model; it is a parameter. A missing key becomes the key "undefined", as in the source.
- The `ItemStack` constructor and the `for…in` order are not part of this model; they are the parameters `accepts` and `order`. `ListsKeys` states that the order lists exactly the carried types.
- scripts/main.ts event wiring, and the world-load initialisation of the id counter to 1. `CreateEntity` handles the unset counter as the source does.
- `SpawnWoodcutter` and `SetWoodcutter` return the updated manager block, but the model does not write it back into the manager-block cache. The source mutates the cached object in place; callers here hold the returned value.
- gulpfile.js: build and deployment tooling.
- `ManagerBlock.GetAdjacentChest`: does not state which of several chests is returned, because the host's enumeration order for a block volume is unknown. The function fixes x-major order, but the contract promises only some chest in the window.

Where the code and the design intent differ, the model follows the code:

- A walk to the chest that throws still empties the carried map when the entity is valid afterwards: the catch waits, reverts to WOODCUTTING and raises the flag, and the handler then goes on to deposit.
- After a failed walk the state returns to SEARCHING. The next tick starts the walk handler again, so the woodcutter walks to the same target without a new search.
- The flag can stay down with no handler in flight, which freezes the woodcutter for good (`WoodcutterRun.StallFreezes`). This happens when a found log turned invalid, when the tree check's block read throws, when the walk-to-wood or chest handler finds the entity field null, in the chest phase without a manager block, when a felling throws after the logs are credited, and when a deposit stack throws.
- On any manager-block break, a woodcutter whose entity is currently invalid (for example, in an unloaded chunk) is removed as well.

## Findings

| source | as written | input that shows it | evidently intended | confidence | as-written member | corrected member |
|---|---|---|---|---|---|---|
| scripts/NPCs/Woodcutter.ts:53, 845-851 | the jungle log maps to sapling_type "mjungle"; resolving that sapling throws after the logs were credited, so the handler ends with the flag down | felling a "minecraft:jungle_log" tree standing on dirt or grass | sapling_type "jungle", a value the generic sapling block accepts, so the jungle tree is replanted and the cycle goes on | not executed; the host's rejection of an unknown state value is inferred, not observed; the correction cures it only on a host whose generic sapling block accepts the vanilla values, which the source's per-species sapling list (scripts/NPCs/Woodcutter.ts:71-80) puts in doubt | `Saplings.SaplingForLog`, `Saplings.JungleReplantIsRejected`, `WoodcutterRun.JungleTreeFreezes` | `Saplings.IntendedSaplingForLog`, `Saplings.IntendedSaplingNeverRejected`, `WoodcutterPhases.FellingThrowsOnlyOnHostError` |
| scripts/NPCs/Woodcutter.ts:699-712 | the catch of a walk that threw raises the flag, then the handler waits 150 ticks | `MoveTo` throws with the entity valid; a tick arrives during the retry wait | the flag stays down until the handler's end, so no tick starts a second walk handler while this one waits | not executed | `WoodcutterPhases.WalkThrewCatch`, `WoodcutterRun.ThrownWalkStartsSecondHandler` | `WoodcutterPhases.IntendedWalkThrewCatch`, `WoodcutterRun.TraceKeepsOnePhase` |
| scripts/NPCs/Woodcutter.ts:122-136, 251, 288-293 | the `Id` field is never assigned, so `GetFromCache` never finds a cached woodcutter, and the entity-load handler (scripts/main.ts:122-129) loads a second instance for an entity already cached | an entity of a woodcutter created by `SpawnWoodcutter` is loaded again | `Id` holds the "nox:id" loaded from the entity, as its getter's comment says, so the cached woodcutter is found | not executed | `WoodcutterCache.BuiltCacheNeverMatches` | `WoodcutterCache.ReloadedEntityIsFound` |
