# OxidHome: a verified model of its concurrent core and its text forms

OxidHome is a home-automation host: it loads WebAssembly plugins, supervises their
instances, keeps a projection of device state for API clients, and routes calls between
plugins. This Dafny project models the parts whose correctness rests on ordering,
counting or parsing, and proves what they promise over every run and every input.

Verify everything with `dafny verify dfyconfig.toml`.

## What is modelled

| file | subject |
|---|---|
| `Registry.dfy` | the registry of supervised instances and the tracker of reaper tasks, as objects whose methods are the critical sections |
| `Supervision.dfy` | starters, supervisors, reapers, stoppers and drainers interleaving, one step per lock acquisition, and the inductive invariant |
| `Shutdown.dfy` | what that gives in every run: reapers act on their own generation, "stop everything, then drain" leaves nothing |
| `Lifecycle.dfy` | weak-reference per-plugin locks (object and functions), start and uninstall handlers, installs, crashes and boot scans, composed with the supervision protocol |
| `DeviceState.dfy` | capability names; the ordered slot map, revisions, stale sweeps, the eviction watermark |
| `Paging.dfy` | the page builder's loop and walks over a frozen store |
| `DeviceStore.dfy` | the store as an object: every lock acquisition is a method |
| `Resync.dfy` | client and server: page under a pinned revision, then follow changes, while writers, sweeps and daemon restarts interleave |
| `Services.dfy` | service grants, and the service registry with its in-flight counts |
| `Dispatch.dfy` | one call's ordered checks, and calls, mailboxes and supervisors as a step system |
| `ConfigSchema.dfy`, `ConfigMerge.dfy`, `ConfigTheorems.dfy`, `ConfigErrors.dfy` | the config schema, validation and merging as error-pushing methods, how the two agree, and exactly which errors each reports |
| `Text.dfy`, `Network.dfy` | string splitting and decimal numbers; parsing and printing of network rules |
| `UiTicket.dfy` | signed text tokens: UI tickets and pagination cursors |
| `Tail.dfy` | bus events and their JSON encoder; the WebSocket and Connect event tails |

A step system has a state, a `Step` datatype, `Enabled`, `Apply`, `Legal` (a legal
sequence of steps) and `Reachable`. An object of the source is a class whose methods are
tied to functions on a value; the step systems apply the same functions.

Modelling decisions:

- `Supervision.Start` is the critical section of the instance registry's `register`: the
  factory, the tracker insert and the registry insert happen under one lock. The new
  reaper may act earlier, but everything it can do before the lock is free commutes with
  the rest of the section.
- What a restart's load attempt sweeps (devices, services, fresh state) is three steps,
  one per lock, as in the code.
- Every writer of the device-state store is gated on a capability the device declares
  (`crates/oxidhome-core/src/runtime/state.rs:1186-1246`,
  `crates/oxidhome-core/src/runtime/instance.rs:1016-1040`), so a publish carries the
  declared capabilities and the name it claims, and an initial state is for one of the
  four stateful capabilities. Real names sort below the range sentinel, which is what
  makes every cursor of a reachable store resume (`Resync.ReachableCursorResumes`). For
  direct callers of the store, which no gate guards, `Paging.WalkEndsExactlyWhenSafe`
  remarks when a walk would still end.
- A `Committed` supervisor has acked the shutdown request and not yet published its
  terminal state. The ack follows the guest's shutdown call, and no plugin code of that
  instance runs after it.
- 64-bit counters that only grow by one (revisions, generations, ids) are unbounded.
  Where the width decides a result it is written out: saturating byte counters, port
  numbers, ticket expiry.
- A finite float is an exact real.
- Parameters stand for what comes from outside: the keyed hash is any function to 32
  bytes; IP address and network text is a record of functions with stated laws, met by a
  concrete instance (`Network.LawsCanBeMet`).
- A system time is a number of nanoseconds since the epoch. As in the code, the ticket
  verifier's clock reads zero before the epoch and beyond 64 bits of milliseconds;
  `UiTicket.LifetimeIsTtl` ties it to wall-clock time in between.
- A store epoch is a fresh nonce for every life of the process.

## Where the code differs from its own description

- The stop report calls its counted supervisors terminal
  (`crates/oxidhome-core/src/runtime.rs:178-205`). The code's `stop` has two normal
  returns (`crates/oxidhome-core/src/runtime/lifecycle.rs:446-461`): the channel or the
  reply was gone, and then the supervisor has ended; or the request was acked, which
  happens before the terminal state is published. `Shutdown.AllStoppedIsNotTerminal` is a
  concrete run, `Shutdown.ReportClaimHoldsExactly` says the claim holds exactly when no
  acked supervisor is still between its ack and its next step, and
  `Shutdown.StopThenDrainLeavesNothing` shows that the drain is still safe.
- A comment in the uninstall path says that the boot sweep cleans blob directories of
  tombstoned uuids (`crates/oxidhome-core/src/runtime.rs:647-650`); the boot code sweeps
  only at one migration (`crates/oxidhome-core/src/runtime.rs:301-318`). The model follows
  the boot code. A package directory deleted by hand can therefore strand state under a
  tombstone: `Lifecycle.HandRemovalCanStrandState` is a concrete run, and
  `Lifecycle.HandRemovedDirectories` the exact condition under which it does not.
- The watermark is described as forcing a reset at or below it
  (`crates/oxidhome-core/src/state/device_state.rs:1212-1216`); the code resets strictly
  below. Strictly below is enough: `Resync.EmptyPollMeansConverged`.
- A comment on the paged snapshot gives its default page size as 128
  (`crates/oxidhome-core/src/api/server.rs:536-538`); the constant is 64 (line 558), and
  the model uses 64.

## Model

| member | source | states |
|---|---|---|
| `Registry.InsertKeepsConsistent` | crates/oxidhome-core/src/runtime/registry.rs:115-198 | an admitted insert, singleton or not, keeps every slot exclusive and truthful and disturbs no other entry |
| `Registry.RemoveFreesOnlyOwnSlot` | crates/oxidhome-core/src/runtime/registry.rs:211-217 | removing an instance frees a singleton slot exactly when that instance held it |
| `Registry.InstanceRegistry.Register` | crates/oxidhome-core/src/runtime/registry.rs:115-198 | registers exactly when gate, id and singleton rule admit it, spawning and tracking the reaper first; otherwise reports the first failing check and changes nothing |
| `Registry.InstanceRegistry.Unregister` | crates/oxidhome-core/src/runtime/registry.rs:211-217 | the instance and the slot it held, and nothing else, are gone |
| `Registry.InstanceRegistry.BeginShutdown` | crates/oxidhome-core/src/runtime/registry.rs:231-234 | closes the gate and leaves instances and slots alone |
| `Registry.InstanceRegistry.List` | crates/oxidhome-core/src/runtime/registry.rs:250-258 | the snapshot is a list of exactly the registered handles, as many as there are, no two under one instance id |
| `Registry.ReaperTracker.Spawn` | crates/oxidhome-core/src/runtime.rs:874-923 | mints a new generation and files it under the instance id |
| `Registry.ReaperTracker.Forget` | crates/oxidhome-core/src/runtime.rs:900-912 | removes the entry only if it still carries this generation |
| `Registry.ReaperTracker.TakeAll` | crates/oxidhome-core/src/runtime.rs:1100-1106 | empties the tracker and hands out every entry |
| `Supervision.StepKeepsInv` | crates/oxidhome-core/src/runtime.rs:744-926 | every step of starters, supervisors, reapers, stoppers and drainers keeps the invariant: registered handles and pending reapers in one-to-one correspondence, records owned by unswept generations, tracker complete, snapshots cover |
| `Supervision.ReachableKeepsInv` | crates/oxidhome-core/src/runtime.rs:744-926 | so the invariant holds in every state of every run |
| `Supervision.OwnGenerationOnly` | crates/oxidhome-core/src/runtime.rs:884-900 | everything filed under a pending reaper's instance id was published by its own generation |
| `Shutdown.ReaperActsOnOwnGeneration` | crates/oxidhome-core/src/runtime.rs:881-912 | in every reachable state, whatever a reaper's next action removes (devices, services, fresh state, handle, tracker entry) belongs to its generation, and nothing of that generation is left behind in a table it has swept |
| `Shutdown.OnePendingReaperPerId` | crates/oxidhome-core/src/runtime.rs:848-912 | each registered id has exactly one reaper that has not unregistered, the one its handle names |
| `Shutdown.TrackerFollowsRegistry` | crates/oxidhome-core/src/runtime.rs:874-923 | until a drain takes it, a registered instance's reaper is tracked; no finished reaper is; the tracker is empty once all have finished |
| `Shutdown.SingletonsStayExclusive` | crates/oxidhome-core/src/runtime/registry.rs:139-217 | in every run, a plugin holding a slot has exactly one registered instance, the one the slot names |
| `Shutdown.StartRegisters` | crates/oxidhome-core/src/runtime.rs:874-926 | a start registers the instance under a never-used generation, takes the slot of a singleton alone, tracks the reaper and supervises the given installation; nothing else changes |
| `Shutdown.PublishFiles` | crates/oxidhome-core/src/runtime/lifecycle.rs:936-952 | a publish files one record under the publisher, in its table alone |
| `Shutdown.ReloadSweepsOwn` | crates/oxidhome-core/src/runtime/lifecycle.rs:936-952 | in every reachable state, what a load attempt sweeps from a table is exactly what earlier loads of the same generation published there |
| `Shutdown.FoldReport` | crates/oxidhome-core/src/runtime.rs:1126-1207 | the report's counts add up to the joined stops, each counts or lists exactly its own kind in join order, and it says "all stopped" exactly when all returned normally |
| `Shutdown.EndedWithExactly` | crates/oxidhome-core/src/runtime.rs:1126-1207 | an instance is listed under an outcome exactly when one of its stops ended so |
| `Shutdown.ReportAddsUp` | crates/oxidhome-core/src/runtime.rs:178-210 | the four counts of a finished run add up to the size of its snapshot |
| `Shutdown.RegisteredSetOnlyShrinks` | crates/oxidhome-core/src/runtime/registry.rs:139-141 | after the gate is closed nothing is ever registered again, whatever interleaves |
| `Shutdown.RegisteredLiesInSnapshot` | crates/oxidhome-core/src/runtime.rs:1126-1150 | whatever is registered after a stop took its snapshot is in that snapshot |
| `Shutdown.AllStoppedLeavesNoneLive` | crates/oxidhome-core/src/runtime.rs:1126-1207 | if every stop of a run returned normally, no supervisor of the engine can run plugin code any more |
| `Shutdown.AllStoppedIsNotTerminal` | crates/oxidhome-core/src/runtime.rs:178-210 | a reachable state where the report says "all stopped" and a supervisor is not terminal |
| `Shutdown.ReportClaimHoldsExactly` | crates/oxidhome-core/src/runtime/lifecycle.rs:446-461 | a stop that found the channel or reply gone counts an ended supervisor; an acked one counts an ended supervisor unless it is still committed; so the report's claim, for the counted supervisors and for all of the engine, holds exactly when no acked one is still committed, and each such one ends with its own next step |
| `Shutdown.EndedStays` | crates/oxidhome-core/src/runtime.rs:178-210 | and in every continuation an ended supervisor stays ended |
| `Shutdown.RunSpendsWork` | crates/oxidhome-core/src/runtime.rs:974-979 | from then on every supervisor exit and reaper action uses up one unit of a finite amount of work, and no step adds any |
| `Shutdown.DrainNeverStuck` | crates/oxidhome-core/src/runtime.rs:974-979 | while work is left, such an action can be taken |
| `Shutdown.DrainedLeavesNothing` | crates/oxidhome-core/src/runtime.rs:974-979 | in every reachable state with an empty tracker and every taken reaper finished, nothing is registered or published, every supervisor has ended and every reaper has unregistered |
| `Shutdown.TrackerStaysEmpty` | crates/oxidhome-core/src/runtime.rs:1100-1106 | once the gate is closed an emptied tracker stays empty, so a drain has taken all there is to take |
| `Shutdown.StopThenDrainLeavesNothing` | crates/oxidhome-core/src/runtime.rs:1126-1207 | stop everything, then drain: whenever the drains have returned, nothing is registered or published and every supervisor has ended; until then something can move, and only a bounded number of times |
| `Shutdown.AllStoppedRunsOut` | crates/oxidhome-core/src/runtime.rs:974-979 | every continuation of such a stop has a bounded number of exits and reaper actions, and none is left only when nothing is registered, tracked or published |
| `LifecycleLocks.LockMap.PluginLifecycleLock` | crates/oxidhome-core/src/runtime.rs:569-595 | hands out the mutex still referenced for the id, or a fresh one after sweeping dead entries, keeping the map consistent |
| `LifecycleLocks.LockMap.Release` | crates/oxidhome-core/src/runtime.rs:569-595 | dropping a reference touches nothing else |
| `LifecycleLocks.RequestKeepsLocks` | crates/oxidhome-core/src/runtime.rs:569-595 | a request never drops or replaces a mutex still referenced, and after an insert the map holds exactly the live ids |
| `Lifecycle.LifecycleLocksExclude` | crates/oxidhome-core/src/api/connect_rpc.rs:542-698 | over all runs, all live references of an id name one mutex, different ids never share one, and at most one start or uninstall section is held per id, cancelled handlers included |
| `Lifecycle.NoneRegisteredMeansNoneRuns` | crates/oxidhome-core/src/api/server.rs:1685-1710 | if the running check finds no registered instance, no generation of the plugin can still write |
| `Lifecycle.AdvanceEstablishesFacts` | crates/oxidhome-core/src/runtime.rs:623-655 | each action of an uninstall section establishes what the next one relies on |
| `Lifecycle.TombstoneUninstalls` | crates/oxidhome-core/src/state/installed_plugins.rs:1952-2063 | in every reachable state the last act of an uninstall takes the plugin out of rows, directories, index and quarantine, adds exactly its installation to the tombstones, and changes no other plugin, no state and no supervisor |
| `Lifecycle.UninstallGoesThrough` | crates/oxidhome-core/src/runtime.rs:623-655 | an uninstall section that holds the mutex of an idle installed plugin, live or quarantined, gets to the tombstone by its own actions alone; then the plugin is gone, its installation stateless, and no other state is touched |
| `Lifecycle.UninstallIsReachable` | crates/oxidhome-core/src/state/installed_plugins.rs:2768-2800 | a run from install to uninstall ends with the installation tombstoned and nothing of the plugin left |
| `Lifecycle.InstallIndexes` | crates/oxidhome-core/src/state/installed_plugins.rs:1671-1945 | an install writes the row first and is indexed, under the uuid minted for it, only with its directory in place |
| `Lifecycle.AbortUndoes` | crates/oxidhome-core/src/state/installed_plugins.rs:1905-1923 | an install that gives up leaves nothing but the used uuid, and its row if the rollback failed |
| `Lifecycle.HalfRemoved` | crates/oxidhome-core/src/state/installed_plugins.rs:2024-2048 | if the tombstone fails after the directory is gone, row and index stay and the uninstall can be tried again |
| `Lifecycle.WriteIsOwned` | crates/oxidhome-core/src/runtime.rs:623-655 | what a running generation writes belongs to its own installation and is the only state that changes |
| `Lifecycle.OthersKeepFacts` | crates/oxidhome-core/src/api/server.rs:1538-1565 | what a handler does to its own plugin cannot invalidate what another handler relies on |
| `Lifecycle.ScanKeepsCatalog` | crates/oxidhome-core/src/state/installed_plugins.rs:1474-1552 | the boot scan's tombstones never hit an installation that owns state |
| `Lifecycle.BootReconciles` | crates/oxidhome-core/src/state/installed_plugins.rs:1474-1552 | every live row ends indexed, quarantined or tombstoned exactly as the scan finds it healthy, bad or without a directory to keep it, under its own uuid, or stays a row; nothing else is tombstoned, directories and state stay as they are |
| `Lifecycle.StepKeepsInv` | crates/oxidhome-core/src/runtime.rs:569-655 | every step of handlers, installs, protocol, writes and crashes keeps the composed invariant |
| `Lifecycle.TombstonedOwnsNothing` | crates/oxidhome-core/src/runtime.rs:623-655 | end to end: in every reachable state of starts, stops, crashes, cancelled handlers, failed purges and retried uninstalls, a tombstoned installation owns no key-value rows, blob rows or blob files |
| `Lifecycle.TombstonedNeverRuns` | crates/oxidhome-core/src/api/server.rs:1538-1565 | and no generation that can still act runs a tombstoned installation |
| `Lifecycle.HandRemovedDirectories` | crates/oxidhome-core/src/state/installed_plugins.rs:1474-1552 | with package directories deleted behind the engine's back the result survives the boot scan exactly when no swept installation owns state |
| `Lifecycle.HandRemovalCanStrandState` | crates/oxidhome-core/src/state/installed_plugins.rs:1474-1552 | a run in which it does not survive: install, start, write, delete the directory, boot |
| `DeviceState.SortByRevisionSorts` | crates/oxidhome-core/src/state/device_state.rs:1026-1030 | the sorted delta list has the same rows once each, by strictly increasing revision |
| `DeviceState.WrittenKeepsInv` | crates/oxidhome-core/src/state/device_state.rs:456-560 | a publish keeps slots unique and sorted and revisions distinct |
| `DeviceState.SweptKeepsInv` | crates/oxidhome-core/src/state/device_state.rs:1176-1261 | so does a stale sweep with its evictions |
| `DeviceState.CapBoundsStale` | crates/oxidhome-core/src/state/device_state.rs:1233-1261 | after enforcement at most the cap's worth is stale, no fresh entry was evicted, every evicted one is older than every stale one kept |
| `DeviceState.WatermarkCovers` | crates/oxidhome-core/src/state/device_state.rs:1248-1260 | the watermark never falls, covers every evicted revision and is the old one or an evicted one |
| `DeviceState.SweptEvolves` | crates/oxidhome-core/src/state/device_state.rs:1176-1261 | a sweep never changes a row under an old revision, and a slot it drops was stale at a revision the watermark covers |
| `DeviceState.SweptStores` | crates/oxidhome-core/src/state/device_state.rs:1176-1261 | a sweep leaves the stale image of every picked fresh entry, same fields, owner and generation under a new revision, and every other entry unchanged, less evicted stale ones older than all stale ones left |
| `DeviceState.FlippedInKeyOrder` | crates/oxidhome-core/src/state/device_state.rs:1176-1204 | the new revisions rise in key order |
| `DeviceStore.SeededKeeps` | crates/oxidhome-core/src/state/device_state.rs:1104-1155 | re-registration, sweep and seeds together, is such a change too |
| `DeviceStore.DeviceStateStore.WriteEntry` | crates/oxidhome-core/src/state/device_state.rs:456-560 | after one write the rows are exactly the given fields, fresh, under the next revision with the owner and its generation, and the old rows of all other slots |
| `DeviceStore.DeviceStateStore.StaleWhere` | crates/oxidhome-core/src/state/device_state.rs:1176-1204 | every picked fresh entry goes stale under its own new revision, the others stay, and at most the cap of stale ones is kept |
| `DeviceStore.DeviceStateStore.EnforceStaleCap` | crates/oxidhome-core/src/state/device_state.rs:1233-1261 | the removal loop evicts exactly the oldest excess and raises the watermark to the highest of them |
| `DeviceStore.DeviceStateStore.RestartGeneration` | crates/oxidhome-core/src/state/device_state.rs:378-386 | in one critical section everything of the owner is stale, nothing fresh of anybody else is touched, and the generation is one more |
| `DeviceStore.DeviceStateStore.ResetAndSeedDevice` | crates/oxidhome-core/src/state/device_state.rs:1104-1155 | in one critical section the last seed of each capability is stored fresh, the device's other slots are stale, and nothing fresh of other devices is touched |
| `DeviceStore.DeviceStateStore.SnapshotPage` | crates/oxidhome-core/src/state/device_state.rs:632-656 | the lazy scan returns the longest prefix of the range with at most the given number of devices |
| `DeviceStore.DeviceStateStore.DeltasSince` | crates/oxidhome-core/src/state/device_state.rs:1011-1036 | a reset demand exactly above the counter or below the watermark, otherwise the oldest newer rows up to the limit |
| `DeviceStore.DeltasExactly` | crates/oxidhome-core/src/state/device_state.rs:1011-1036 | an answer without a reset lists changes only, by rising revision, and leaves one out only if it is full and that one is newer than all it lists |
| `DeviceStore.DeviceStateStore.AllDeviceState` | crates/oxidhome-core/src/api/server.rs:662-833 | the handler returns the page of the whole listing after the cursor, with the pinned revision in the answer and in the next cursor |
| `Paging.EffectiveLimit` | crates/oxidhome-core/src/api/server.rs:668-672 | a request between 1 and 256 is honoured, a larger one gives 256, an absent or zero one gives 64 |
| `Paging.Commit` | crates/oxidhome-core/src/api/server.rs:734-763 | a pending device is refused exactly when it would break the count or the byte cap and is not the first |
| `Paging.BuildPage` | crates/oxidhome-core/src/api/server.rs:725-798 | the loop returns the longest prefix of whole devices within the limit and one mebibyte (a single device always fits), saturating counters deciding like exact ones, and is capped exactly when devices remain |
| `Paging.SizesAdd` | crates/oxidhome-core/src/api/server.rs:764-798 | a page weighs the capability name in bytes and the fields of each of its rows |
| `Paging.FetchedPageIsPage` | crates/oxidhome-core/src/api/server.rs:687-692 | fetching one device more than the page holds decides the page and its cursor as the whole listing would |
| `Capabilities.NameBelowSentinel` | crates/oxidhome-core/src/state/device_state.rs:1662-1669 | every real capability name sorts below the range sentinel |
| `Capabilities.NamesAreDistinct` | crates/oxidhome-core/src/runtime/state.rs:1186-1246 | different capabilities have different names, and an initial state is filed under the name of its capability |
| `Resync.MutatedKeepsNames` | crates/oxidhome-core/src/runtime/state.rs:1186-1246 | every gated writer keeps every slot under a real capability name |
| `Resync.ReachableCursorResumes` | crates/oxidhome-core/src/state/device_state.rs:632-656 | in every reachable state a cursor resumes exactly after the page that issued it |
| `Resync.ReachablePagesListEverything` | crates/oxidhome-core/src/api/server.rs:725-833 | with nobody writing, the pages of a reachable store concatenate to its full listing by whole devices, at most one page per device |
| `Paging.EachDeviceOnce` | crates/oxidhome-core/src/api/server.rs:725-833 | each device is listed once, in order |
| `Resync.StepKeepsInv` | crates/oxidhome-core/src/api/server.rs:495-526 | every page, poll, write, sweep and restart keeps what the client knows faithful relative to its anchor revision |
| `Resync.EvolvingKeepsFaithful` | crates/oxidhome-core/src/api/server.rs:696-703 | writers never invalidate what a client was told up to its anchor |
| `Resync.PageKeepsFaithful` | crates/oxidhome-core/src/api/server.rs:662-833 | a page extends that knowledge under the pinned revision |
| `Resync.DeltasCover` | crates/oxidhome-core/src/state/device_state.rs:1011-1036 | an answer carries every change between the old anchor and the highest revision in it |
| `Resync.EmptyPollMeansConverged` | crates/oxidhome-core/src/api/server.rs:926-959 | for every interleaving, an empty non-reset answer of the client's epoch means its cache has exactly the store's value for every slot, and nothing fresh beside it |
| `Resync.PollShrinks` | crates/oxidhome-core/src/api/server.rs:842-868 | each non-empty answer leaves fewer changes outstanding |
| `Resync.QuietResyncConverges` | crates/oxidhome-core/src/api/server.rs:495-526 | from every reachable state with nobody writing, a resync with any page size ends after finitely many pages with exactly the store's state |
| `Resync.PublishIsSeen` | crates/oxidhome-core/src/state/device_state.rs:456-560 | after a publish of a declared capability, a client that catches up by whatever steps of its own holds exactly that payload, fresh, under the next revision; an undeclared one stores nothing |
| `Resync.RestartIsSeen` | crates/oxidhome-core/src/state/device_state.rs:378-386 | after the end of a supervisor's life such a client holds nothing of it fresh |
| `Resync.RegisterIsSeen` | crates/oxidhome-core/src/state/device_state.rs:1104-1155 | after a registration such a client holds the last initial state of each capability, fresh, and nothing else of the device fresh |
| `Grants.TwoListsAreTheIntersection` | crates/oxidhome-manifest/src/manifest.rs:278-298 | the two-list check authorizes exactly the calls the materialized pairwise intersection would, all wildcards included |
| `Grants.MatchesOnFields` | crates/oxidhome-manifest/src/manifest.rs:278-298 | a selector authorizes a call exactly if plugin and service are its own, and target instance, caller instance and command are its own or a star |
| `Grants.MeetMatches` | crates/oxidhome-manifest/src/manifest.rs:278-298 | a narrowed selector matches exactly what both of its sources match |
| `Services.ServiceRegistry.Register` | crates/oxidhome-core/src/state/services.rs:130-156 | refuses a taken (owner, local id) and otherwise files the service under a never-used id |
| `Services.ServiceRegistry.Update` | crates/oxidhome-core/src/state/services.rs:176-206 | replaces the info of an owned service, never its local id |
| `Services.ServiceRegistry.Remove` | crates/oxidhome-core/src/state/services.rs:214-231 | succeeds exactly for an owned service with no call in flight |
| `Services.ServiceRegistry.AcquireCall` | crates/oxidhome-core/src/state/services.rs:318-329 | counts one more call exactly when the service is registered |
| `Services.ServiceRegistry.ReleaseCall` | crates/oxidhome-core/src/state/services.rs:333-341 | counts down, forgets a zero, tolerates an unknown id |
| `Services.ServiceRegistry.RemoveByOwner` | crates/oxidhome-core/src/state/services.rs:379-395 | drops exactly the owner's services, with their counts |
| `Dispatch.CallService` | crates/oxidhome-core/src/runtime/dispatcher.rs:194-358 | each refusal exactly when it is the first check to fail, authorization being a selector in each list that names plugin, local id, and target instance, caller and command or a star; otherwise chain and count grow by one |
| `Dispatch.ExtendedChainOk` | crates/oxidhome-core/src/runtime/dispatcher.rs:233-251 | the cycle check passes exactly when the extended chain stays linked, with distinct callers and a target outside them |
| `Dispatch.StepKeepsInv` | crates/oxidhome-core/src/runtime/dispatcher.rs:210-358 | every step of calls, mailboxes, restarts and timeouts keeps chains, handlers, waiters and counts in agreement |
| `Dispatch.ChainTouchesDistinctInstances` | crates/oxidhome-core/src/runtime/dispatcher.rs:233-251 | in every run, a chain of n calls touches n + 1 distinct instances |
| `Dispatch.InFlightCountsGuards` | crates/oxidhome-core/src/runtime/dispatcher.rs:30-50 | in every run, a registered service's count is the number of guards held by messages and handlers |
| `Dispatch.RemoveWaitsForHandlers` | crates/oxidhome-core/src/state/services.rs:214-231 | in every run, removing a service succeeds exactly when none of its calls is being sent, queued or handled |
| `Dispatch.ExitLosesMessages` | crates/oxidhome-core/src/runtime/lifecycle.rs:413-426 | in every run, a message underway when its supervisor exits can only be lost, even with a successor under the same id |
| `Dispatch.ParkedFormAPath` | crates/oxidhome-core/src/runtime/dispatcher.rs:339-347 | with one root and no timed-out call, the parked supervisors are exactly the distinct callers of one chain |
| `Dispatch.QueuedTipIsFree` | crates/oxidhome-core/src/runtime/lifecycle.rs:1163-1258 | the addressee at the end of that chain, if it does not handle the last call yet, is idle |
| `Dispatch.RunningTipIsFree` | crates/oxidhome-core/src/runtime/lifecycle.rs:1210-1245 | and if it does, it waits for nothing |
| `Dispatch.StuckExactlyWhenAllWait` | crates/oxidhome-core/src/runtime/dispatcher.rs:215-251 | for any number of roots and timeouts and any mailbox capacity, in every run: work is in progress and nothing can move exactly when every busy supervisor waits on a call to a busy one, accepted or not, and every message sent or queued is for a living, busy supervisor |
| `Dispatch.StuckHasWaitCycle` | crates/oxidhome-core/src/runtime/dispatcher.rs:215-251 | and then there is a cycle of supervisors, each waiting for the next |
| `Dispatch.OneRootNeverDeadlocks` | crates/oxidhome-core/src/runtime/dispatcher.rs:233-251 | so with one root and no timed-out call the run never deadlocks: unless everything is idle some step moves the work forward |
| `Dispatch.MovingRunsEnd` | crates/oxidhome-core/src/runtime/dispatcher.rs:210-358 | a run whose every step moves work is no longer than the work it started with |
| `Dispatch.OneRootRunsOut` | crates/oxidhome-core/src/runtime/dispatcher.rs:233-251 | so with one root and no timed-out call the work can always be moved to its end, all supervisors idle |
| `Dispatch.IndependentRootsCanCrossWait` | crates/oxidhome-core/src/runtime/dispatcher.rs:215-251 | two independent roots can wait on each other until a timeout: a reachable state in which nothing else moves |
| `ConfigMerge.Merge` | crates/oxidhome-manifest/src/config.rs:313-348 | the merge loop returns the resolved values, or all errors in order |
| `ConfigMerge.ResolveField` | crates/oxidhome-manifest/src/config.rs:350-626 | one field, at any depth, pushes exactly its errors and yields its value |
| `ConfigMerge.CheckRange` | crates/oxidhome-manifest/src/config.rs:628-706 | pushes an inverted-bounds error alone, otherwise one error per violated bound |
| `ConfigMerge.CheckRangeF` | crates/oxidhome-manifest/src/config.rs:708-808 | the same for floats, after non-finite bounds |
| `ConfigMerge.Validate` | crates/oxidhome-manifest/src/validate.rs:601-620 | validation pushes exactly the schema's errors, in order |
| `ConfigMerge.ValidateConfigField` | crates/oxidhome-manifest/src/validate.rs:622-647 | one field, at any depth |
| `ConfigTheorems.ValidateMeansSound` | crates/oxidhome-manifest/src/validate.rs:622-775 | a field passes validation exactly when bounds are ordered and finite, defaults fit, enums are not empty and names below have no dot |
| `ConfigTheorems.MergeRefinesSpec` | crates/oxidhome-manifest/src/config.rs:313-372 | on a validated schema merging succeeds exactly when overrides conform recursively and every absent leaf has a default, and the result has exactly the schema's keys with typed, in-range, finite, in-enum values taken from the override or the default |
| `ConfigErrors.MergeReportsExactly` | crates/oxidhome-manifest/src/config.rs:313-812 | for any schema and overrides, exactly which errors merging returns: per field reached `Required`, type mismatch with both names, bound and number broken, enum, not finite, the schema faults, per level each undeclared key |
| `ConfigErrors.IntRangeReports` | crates/oxidhome-manifest/src/config.rs:628-706 | inverted bounds are reported alone, otherwise the one bound an integer breaks, blamed on override or default |
| `ConfigErrors.FloatRangeReports` | crates/oxidhome-manifest/src/config.rs:708-808 | the same for a finite float, after bounds that are not finite |
| `ConfigErrors.ValidateReportsExactly` | crates/oxidhome-manifest/src/validate.rs:601-775 | exactly which errors validation reports for each declaration at any depth, and for which names with a dot |
| `ConfigTheorems.MergeBlamesOverrides` | crates/oxidhome-manifest/src/config.rs:589-808 | on a validated schema merging never reports a schema-side error and never puts two errors on one declared field |
| `ConfigTheorems.PathsSharedExactly` | crates/oxidhome-manifest/src/config.rs:313-372 | two errors of any kind, unknown keys included, share a path exactly when, at some level, an undeclared override key with a dot has the path at which a declared field beside it, or something below that field, is refused as well |
| `ConfigTheorems.DotFreeOverridesShareNoPath` | crates/oxidhome-manifest/src/config.rs:313-372 | so if no override key has a dot, no two errors share a path |
| `ConfigTheorems.DottedKeyCanShareAPath` | crates/oxidhome-manifest/src/config.rs:606-613 | a dotted override key can share its path with a missing nested field: a concrete schema and override |
| `ConfigTheorems.SiblingsApart` | crates/oxidhome-manifest/src/validate.rs:601-620 | distinct dot-free siblings never share an error path, nor do the fields below them |
| `ConfigTheorems.JoinInjective` | crates/oxidhome-manifest/src/config.rs:589-626 | dot-joining dot-free names is injective |
| `Network.PrintParseRoundTrip` | crates/oxidhome-manifest/src/network.rs:124-361 | for every accepted string, printing and parsing again gives the same rule; and a rule survives the round trip exactly when it is well formed |
| `Network.ParsedIsWellFormed` | crates/oxidhome-manifest/src/network.rs:124-321 | whatever the parser accepts is well formed |
| `Network.ParseExactly` | crates/oxidhome-manifest/src/network.rs:124-321 | exactly which texts are accepted as which rule, and for every other text exactly the error: the first thing wrong with scheme, authority, blanks, host and port, in that order |
| `Network.BracketedAddress` | crates/oxidhome-manifest/src/network.rs:143-160 | a version-6 address in brackets is accepted with a port, and without one for https alone, on port 443 |
| `Network.AddressIsHostOnly` | crates/oxidhome-manifest/src/network.rs:209-230 | version-6 address and network text is never split at a colon |
| `Network.HostReads` | crates/oxidhome-manifest/src/network.rs:232-285 | every well-formed host reads back as printed, bracketed exactly when a port follows colons |
| `Network.PortRoundTrip` | crates/oxidhome-manifest/src/network.rs:287-312 | every port, range and wildcard reads back |
| `SignedText.ConstantTimeEq` | crates/oxidhome-core/src/api/ui_ticket.rs:227-236 | the bit-accumulating comparison decides equality |
| `SignedText.FillSupplied` | crates/oxidhome-core/src/api/ui_ticket.rs:181-189 | the buffer loop succeeds exactly on hex text and fills in its bytes |
| `SignedText.HexRoundTrip` | crates/oxidhome-core/src/api/ui_ticket.rs:128-134 | written hex reads back as the same bytes |
| `UiTicket.Issue` | crates/oxidhome-core/src/api/ui_ticket.rs:117-136 | the issued text is the payload with the first 16 bytes of its MAC |
| `UiTicket.Verify` | crates/oxidhome-core/src/api/ui_ticket.rs:151-203 | accepts exactly the claims of a text within the cap that joins expiry, plugin id without a tilde and installation and ends in their MAC text, before expiry; reports expiry exactly for such texts from then on |
| `UiTicket.IssueThenVerify` | crates/oxidhome-core/src/api/ui_ticket.rs:117-203 | for every keyed function and time: same claims back while the clock reads less than the expiry, `Expired` otherwise |
| `UiTicket.RoundTripExactly` | crates/oxidhome-core/src/api/ui_ticket.rs:117-203 | the claims come back exactly for a nonempty `~`-free plugin id, a nonempty uuid, within the cap and before expiry |
| `UiTicket.LifetimeIsTtl` | crates/oxidhome-core/src/api/ui_ticket.rs:117-203 | while times fit in 64 bits, a ticket is good for exactly five minutes, to the millisecond |
| `UiTicket.ClockEdges` | crates/oxidhome-core/src/api/ui_ticket.rs:117-203 | an expiry that is not representable or before the epoch makes a ticket that is never good; such a clock reads zero |
| `UiTicket.AcceptedIsSigned` | crates/oxidhome-core/src/api/ui_ticket.rs:151-203 | only text carrying the MAC of its own payload is accepted |
| `Cursor.VerifyCursor` | crates/oxidhome-core/src/state/device_state.rs:926-957 | accepts exactly the current epoch's texts that end in the MAC text of what precedes it, giving pin and device; tells exactly the well-shaped texts of another epoch so, MAC unseen; all else is bad |
| `Cursor.CursorRoundTrip` | crates/oxidhome-core/src/state/device_state.rs:888-957 | a cursor returns its pin and device to the life that issued it, whatever the device id contains, and reports a changed epoch to every other |
| `Tail.TailEventsLoop` | crates/oxidhome-core/src/api/server.rs:2378-2443 | the loop sends a prefix of what is due, cut only where the client's connection fails |
| `Tail.ConnectAtAnyCut` | crates/oxidhome-core/src/api/connect_rpc.rs:971-1026 | after any number of steps the Connect output is what is owed for the deliveries taken, except for the one buffered event |
| `WireEvents.EncodesExactly` | crates/oxidhome-core/src/api/server.rs:2449-2521 | the JSON writer refuses exactly the values with a map key that is not text |
| `WireEvents.EveryEventEncodes` | crates/oxidhome-core/src/api/server.rs:2420-2422 | no bus event is refused, so the loop's skip branch is never taken |
| `WireEvents.EventReads` | crates/oxidhome-core/src/api/server.rs:2449-2600 | what a client finds under each name of an event, its payload, fields and values, the row id and other optional parts only when present |
| `WireEvents.EncodingLosesNothing` | crates/oxidhome-core/src/api/server.rs:2449-2600 | two events encode alike only if they are equal |
| `Tail.TailsAgree` | crates/oxidhome-core/src/api/connect_rpc.rs:971-1026 | for every delivery sequence both tails emit the same frames, each in its own encoding: a lag notice first, then the event, in order, none dropped |

## Left out

- Axum routing, WebSocket and Connect transport, JSON and proto conversions: plumbing.
- WebAssembly execution, the epoch ticker, file locks, SQLite and the file system: only success or failure appears, as a step that may or may not be taken.
- Strength of SHA-256 and HMAC, and the block padding inside `hmac_sha256`: the keyed hash is an arbitrary function.
- Bearer tokens, scopes and audit rows: single-branch decisions.
- Task panics and mutex poisoning, other than the `panicked` count of the stop report.
- The bounded drain's detach path: best effort by its own contract.
- Dev-mode loads, which bypass the lifecycle lock, and directories placed by hand, which the boot scan gives a row or quarantines without one: not part of the uninstall theorem.
- Restart policy, backoff delays and the watchdog: a supervisor may reload or exit at any time.
- Device ownership and the admission caps in front of the device-state store: a publish is gated on the declared capability only.
- Field merging and truncation inside one device-state slot: a publish carries the final field list and its size.
- Rounding of integers converted to 64-bit floats, in overrides and in the manifest.
- Parsing of the manifest's TOML itself, and keyword, UI and path checks: easy members.
- The capacity of the control mailbox (crates/oxidhome-core/src/runtime/lifecycle.rs:575) and the other commands that share it: in the dispatch step system a message being sent may be accepted at any time, so a full mailbox's runs are among the model's, and `Dispatch.Moves` does not count an accept by a busy supervisor as movement.
- Deadlock freedom across independent call roots is not promised by the code; `Dispatch.StuckExactlyWhenAllWait` says exactly when a run is stuck, and the timeout is the way out.
- The lookups of one call and the count it takes are one step of the dispatch system: ids are never reused and a service's owner never changes, so splitting them only adds refusals.
- What a device, service or state record holds: the supervision protocol only follows who published it.
