/**
  The supervisor / reaper protocol as a step system: any number of starters,
  supervisors, reapers, stoppers and drainers interleave at the granularity of
  the locks they take (crates/oxidhome-core/src/runtime.rs).

  A generation names one start: its supervisor, its reaper and its tracker entry.
 */
module Supervision {
  import opened Registry

  type Uuid = string

  /** `Committed` is a supervisor that has taken the shutdown request and acked it
      but has not yet published its terminal state; nothing can make it live again. */
  datatype Phase = Live | Committed | Terminal

  datatype Sup = Sup(instanceId: InstanceId, pluginId: PluginId, installation: Uuid, phase: Phase)

  /** Program counter of a reaper: the state after each of its six actions. */
  datatype ReaperPc = Waiting | DevicesEvicted | ServicesEvicted | MarkedStale | Unregistered | Finished

  /** A device, a service or a fresh device-state slot, filed under its owner's id.
      `gen` records which generation published it; the code never reads it. */
  datatype Record = Record(key: string, owner: InstanceId, gen: nat)

  /** How one stop ended.  A stop that returns normally does so by either branch of the
      handle's `stop`: the request was acked, or the control channel or the reply was
      gone because the supervisor task had ended. */
  datatype StopOutcome = Acked | Gone | Errored | TimedOut | Panicked {
    predicate Normal() {
      Acked? || Gone?
    }
  }

  /** One call of the stop-everything operation: the gate is closed, then a snapshot
      of the registry is stopped in parallel, each stop ending with an outcome. */
  datatype StopRun =
    | GateClosed
    | Stopping(snapshot: map<InstanceId, Handle>, outcomes: map<InstanceId, StopOutcome>)

  datatype Sys = Sys(
    reg: Reg,
    tracker: map<InstanceId, nat>,
    nextGen: nat,
    sups: map<nat, Sup>,
    reapers: map<nat, ReaperPc>,
    devices: set<Record>,
    services: set<Record>,
    live: set<Record>,
    taken: set<nat>,
    stops: map<nat, StopRun>)

  const INIT := Sys(EMPTY_REG, map[], 0, map[], map[], {}, {}, {}, {}, map[])

  datatype Table = Devices | Services | FreshState

  datatype Step =
    | Start(instanceId: InstanceId, pluginId: PluginId, singleton: bool, installation: Uuid)
    | Publish(gen: nat, key: string, table: Table)
    | Reload(gen: nat, table: Table)
    | Acknowledge(gen: nat)
    | Exit(gen: nat)
    | Reap(gen: nat)
    | CloseGate(run: nat)
    | Snapshot(run: nat)
    | StopEnds(run: nat, instanceId: InstanceId, outcome: StopOutcome)
    | TakeHandles

  predicate PastAck(sups: map<nat, Sup>, g: nat) {
    g in sups && sups[g].phase != Live
  }

  predicate Ended(sups: map<nat, Sup>, g: nat) {
    g in sups && sups[g].phase == Terminal
  }

  function Evicted(records: set<Record>, owner: InstanceId): set<Record> {
    set r | r in records && r.owner != owner
  }

  /** When a step may be taken.  A `Start` stands for the critical section of
      `register`; the unlocked fast-path check before it only forbids more starts. */
  ghost predicate Enabled(s: Sys, step: Step) {
    match step
    case Start(i, p, singleton, _) => Admits(s.reg, i, p, singleton)
    case Publish(g, _, _) => g in s.sups && s.sups[g].phase == Live
    // The top of a load attempt sweeps the three tables one lock at a time.
    case Reload(g, _) => g in s.sups && s.sups[g].phase == Live
    case Acknowledge(g) => g in s.sups && s.sups[g].phase == Live
    case Exit(g) => g in s.sups && s.sups[g].phase != Terminal
    case Reap(g) =>
      && g in s.reapers && g in s.sups && s.reapers[g] != Finished
      && (s.reapers[g] == Waiting ==> s.sups[g].phase == Terminal)
    case CloseGate(run) => run !in s.stops
    case Snapshot(run) => run in s.stops && s.stops[run] == GateClosed
    case StopEnds(run, i, outcome) =>
      && run in s.stops && s.stops[run].Stopping?
      && i in s.stops[run].snapshot && i !in s.stops[run].outcomes
      && (outcome == Acked ==> PastAck(s.sups, s.stops[run].snapshot[i].gen))
      // The supervisor publishes its terminal state before its task ends.
      && (outcome == Gone ==> Ended(s.sups, s.stops[run].snapshot[i].gen))
    case TakeHandles => true
  }

  function NextPc(pc: ReaperPc): ReaperPc
    requires pc != Finished
  {
    match pc
    case Waiting => DevicesEvicted
    case DevicesEvicted => ServicesEvicted
    case ServicesEvicted => MarkedStale
    case MarkedStale => Unregistered
    case Unregistered => Finished
  }

  ghost function ReapedOnce(s: Sys, g: nat): Sys
    requires g in s.reapers && g in s.sups && s.reapers[g] != Finished
  {
    var owner := s.sups[g].instanceId;
    var s' := s.(reapers := s.reapers[g := NextPc(s.reapers[g])]);
    match s.reapers[g]
    case Waiting => s'.(devices := Evicted(s.devices, owner))
    case DevicesEvicted => s'.(services := Evicted(s.services, owner))
    case ServicesEvicted => s'.(live := Evicted(s.live, owner))
    case MarkedStale => s'.(reg := Removed(s.reg, owner, s.sups[g].pluginId))
    case Unregistered => s'.(tracker := Forgotten(s.tracker, owner, g))
  }

  ghost function Apply(s: Sys, step: Step): Sys
    requires Enabled(s, step)
  {
    match step
    case Start(i, p, singleton, u) =>
      s.(reg := Inserted(s.reg, Handle(i, p, s.nextGen), singleton),
         tracker := s.tracker[i := s.nextGen],
         nextGen := s.nextGen + 1,
         sups := s.sups[s.nextGen := Sup(i, p, u, Live)],
         reapers := s.reapers[s.nextGen := Waiting])
    case Publish(g, key, Devices) => s.(devices := s.devices + {Record(key, s.sups[g].instanceId, g)})
    case Publish(g, key, Services) => s.(services := s.services + {Record(key, s.sups[g].instanceId, g)})
    case Publish(g, key, FreshState) => s.(live := s.live + {Record(key, s.sups[g].instanceId, g)})
    case Reload(g, Devices) => s.(devices := Evicted(s.devices, s.sups[g].instanceId))
    case Reload(g, Services) => s.(services := Evicted(s.services, s.sups[g].instanceId))
    case Reload(g, FreshState) => s.(live := Evicted(s.live, s.sups[g].instanceId))
    case Acknowledge(g) => s.(sups := s.sups[g := s.sups[g].(phase := Committed)])
    case Exit(g) => s.(sups := s.sups[g := s.sups[g].(phase := Terminal)])
    case Reap(g) => ReapedOnce(s, g)
    case CloseGate(run) => s.(reg := s.reg.(shuttingDown := true), stops := s.stops[run := GateClosed])
    case Snapshot(run) => s.(stops := s.stops[run := Stopping(s.reg.instances, map[])])
    case StopEnds(run, i, outcome) =>
      s.(stops := s.stops[run := s.stops[run].(outcomes := s.stops[run].outcomes[i := outcome])])
    case TakeHandles => s.(tracker := map[], taken := s.taken + s.tracker.Values)
  }

  // ---- Runs ----

  ghost predicate Legal(s: Sys, steps: seq<Step>)
    decreases |steps|
  {
    steps == [] || (Enabled(s, steps[0]) && Legal(Apply(s, steps[0]), steps[1..]))
  }

  ghost function Exec(s: Sys, steps: seq<Step>): Sys
    requires Legal(s, steps)
    decreases |steps|
  {
    if steps == [] then s else Exec(Apply(s, steps[0]), steps[1..])
  }

  ghost predicate Reachable(s: Sys) {
    exists steps :: Legal(INIT, steps) && Exec(INIT, steps) == s
  }

  // ---- The inductive invariant, one concern per predicate ----

  // Each predicate reads only the components it is about, so a step that leaves
  // those alone keeps it for free.

  type Sups = map<nat, Sup>
  type Reapers = map<nat, ReaperPc>

  /** Reaper `g` has not yet unregistered its instance. */
  ghost predicate Pending(reapers: Reapers, g: nat) {
    g in reapers && reapers[g] != Unregistered && reapers[g] != Finished
  }

  ghost predicate Generations(sups: Sups, reapers: Reapers, nextGen: nat) {
    && sups.Keys == reapers.Keys
    && (forall g :: g in sups ==> g < nextGen)
    && (forall g :: g in reapers && reapers[g] != Waiting ==> sups[g].phase == Terminal)
  }

  /** Registered handles and pending reapers are in one-to-one correspondence. */
  ghost predicate Matched(instances: map<InstanceId, Handle>, sups: Sups, reapers: Reapers) {
    && (forall i :: i in instances ==>
          var h := instances[i];
          && h.gen in sups && Pending(reapers, h.gen)
          && sups[h.gen].instanceId == i && sups[h.gen].pluginId == h.pluginId)
    && (forall g :: Pending(reapers, g) ==>
          g in sups && sups[g].instanceId in instances && instances[sups[g].instanceId].gen == g)
  }

  /** How many of its six actions a reaper has performed. */
  function ActionsDone(pc: ReaperPc): nat {
    match pc
    case Waiting => 0
    case DevicesEvicted => 1
    case ServicesEvicted => 2
    case MarkedStale => 3
    case Unregistered => 4
    case Finished => 5
  }

  /** Every record was published by a generation that owns the record's owner id and
      whose reaper has not yet swept the table (its `sweep`th action). */
  ghost predicate Owned(records: set<Record>, sups: Sups, reapers: Reapers, sweep: nat) {
    forall r :: r in records ==>
      && r.gen in sups && r.gen in reapers
      && sups[r.gen].instanceId == r.owner && ActionsDone(reapers[r.gen]) < sweep
  }

  ghost predicate Tracked(tracker: map<InstanceId, nat>, sups: Sups, reapers: Reapers) {
    forall i :: i in tracker ==>
      && tracker[i] in sups && tracker[i] in reapers
      && sups[tracker[i]].instanceId == i && reapers[tracker[i]] != Finished
  }

  /** Until a drain takes it, a registered instance's reaper is in the tracker. */
  ghost predicate TrackerComplete(instances: map<InstanceId, Handle>, tracker: map<InstanceId, nat>, taken: set<nat>) {
    forall i :: i in instances ==>
      instances[i].gen in taken || (i in tracker && tracker[i] == instances[i].gen)
  }

  /** Once a gate is closed nothing new registers: whatever is registered was in
      every snapshot taken since; an acked stop was acked and a gone supervisor had ended. */
  ghost predicate StopsCover(reg: Reg, stops: map<nat, StopRun>, sups: Sups) {
    forall run :: run in stops ==> reg.shuttingDown && RunCovers(reg.instances, stops[run], sups)
  }

  ghost predicate RunCovers(instances: map<InstanceId, Handle>, run: StopRun, sups: Sups) {
    run.Stopping? ==>
      && (forall i :: i in instances ==> i in run.snapshot && run.snapshot[i] == instances[i])
      && (forall i :: i in run.outcomes ==> i in run.snapshot)
      && (forall i :: i in run.outcomes && run.outcomes[i] == Acked ==> PastAck(sups, run.snapshot[i].gen))
      && (forall i :: i in run.outcomes && run.outcomes[i] == Gone ==> Ended(sups, run.snapshot[i].gen))
  }

  ghost predicate Inv(s: Sys) {
    && Consistent(s.reg)
    && Generations(s.sups, s.reapers, s.nextGen)
    && Matched(s.reg.instances, s.sups, s.reapers)
    && Owned(s.devices, s.sups, s.reapers, 1)
    && Owned(s.services, s.sups, s.reapers, 2)
    && Owned(s.live, s.sups, s.reapers, 3)
    && Tracked(s.tracker, s.sups, s.reapers)
    && TrackerComplete(s.reg.instances, s.tracker, s.taken)
    && StopsCover(s.reg, s.stops, s.sups)
  }

  lemma StartKeepsMatched(instances: map<InstanceId, Handle>, sups: Sups, reapers: Reapers, g: nat, u: Sup)
    requires Matched(instances, sups, reapers) && g !in sups && g !in reapers
    requires u.instanceId !in instances
    ensures Matched(instances[u.instanceId := Handle(u.instanceId, u.pluginId, g)], sups[g := u], reapers[g := Waiting])
  {
    var instances' := instances[u.instanceId := Handle(u.instanceId, u.pluginId, g)];
    var reapers' := reapers[g := Waiting];
    assert forall k :: Pending(reapers', k) <==> Pending(reapers, k) || k == g;
    forall i | i in instances'
      ensures instances'[i].gen in sups[g := u] && Pending(reapers', instances'[i].gen)
      ensures sups[g := u][instances'[i].gen].instanceId == i
      ensures sups[g := u][instances'[i].gen].pluginId == instances'[i].pluginId
    {
      if i != u.instanceId {
        assert Pending(reapers, instances[i].gen);
      }
    }
  }

  lemma StartKeepsInv(s: Sys, step: Step)
    requires Inv(s) && step.Start? && Enabled(s, step)
    ensures Inv(Apply(s, step))
  {
    var u := Sup(step.instanceId, step.pluginId, step.installation, Live);
    var s' := Apply(s, step);
    assert Consistent(s'.reg) by {
      InsertKeepsConsistent(s.reg, Handle(step.instanceId, step.pluginId, s.nextGen), step.singleton);
    }
    assert Matched(s'.reg.instances, s'.sups, s'.reapers) by {
      StartKeepsMatched(s.reg.instances, s.sups, s.reapers, s.nextGen, u);
    }
    assert forall run :: run !in s.stops;
    StartKeepsRest(s, step);
  }

  lemma StartKeepsRest(s: Sys, step: Step)
    requires Inv(s) && step.Start? && Enabled(s, step)
    ensures var s' := Apply(s, step);
      && Generations(s'.sups, s'.reapers, s'.nextGen)
      && Owned(s'.devices, s'.sups, s'.reapers, 1)
      && Owned(s'.services, s'.sups, s'.reapers, 2)
      && Owned(s'.live, s'.sups, s'.reapers, 3)
      && Tracked(s'.tracker, s'.sups, s'.reapers)
      && TrackerComplete(s'.reg.instances, s'.tracker, s'.taken)
  {
    assert s.nextGen !in s.sups && s.nextGen !in s.reapers;
  }

  /** Advancing a reaper's counter inside its sweep, or past its unregister, keeps the
      correspondence when the registry is left alone. */
  lemma ReapKeepsMatched(s: Sys, g: nat, pc: ReaperPc)
    requires Matched(s.reg.instances, s.sups, s.reapers) && g in s.reapers
    requires Pending(s.reapers, g) <==> pc != Unregistered && pc != Finished
    ensures Matched(s.reg.instances, s.sups, s.reapers[g := pc])
  {
    assert forall k :: Pending(s.reapers[g := pc], k) <==> Pending(s.reapers, k);
  }

  /** One sweep removes the reaper's own records from one table, so the reaper may
      advance past it. */
  lemma SweepKeepsOwned(records: set<Record>, sups: Sups, reapers: Reapers, sweep: nat, g: nat, pc: ReaperPc)
    requires Owned(records, sups, reapers, sweep) && g in sups && g in reapers
    ensures Owned(Evicted(records, sups[g].instanceId), sups, reapers[g := pc], sweep)
    ensures ActionsDone(pc) < sweep || ActionsDone(reapers[g]) >= sweep ==>
              Owned(records, sups, reapers[g := pc], sweep)
  {
  }

  /** A reaper that advances still watches a terminal supervisor, and is tracked as
      before unless it finishes. */
  lemma AdvanceKeepsRest(s: Sys, g: nat, pc: ReaperPc)
    requires Generations(s.sups, s.reapers, s.nextGen) && Tracked(s.tracker, s.sups, s.reapers)
    requires g in s.sups && g in s.reapers && s.sups[g].phase == Terminal && pc != Finished
    ensures Generations(s.sups, s.reapers[g := pc], s.nextGen)
    ensures Tracked(s.tracker, s.sups, s.reapers[g := pc])
  {
  }

  lemma ReapedIsTerminal(s: Sys, g: nat)
    requires Generations(s.sups, s.reapers, s.nextGen) && Enabled(s, Reap(g))
    ensures s.sups[g].phase == Terminal
  {
  }

  lemma SweepKeepsInv(s: Sys, g: nat)
    requires Inv(s) && Enabled(s, Reap(g)) && ActionsDone(s.reapers[g]) < 3
    ensures Inv(Apply(s, Reap(g)))
  {
    hide Consistent, Generations, Matched, Owned, Tracked, TrackerComplete, StopsCover;
    var pc := NextPc(s.reapers[g]);
    ReapedIsTerminal(s, g);
    ReapKeepsMatched(s, g, pc);
    SweepKeepsOwned(s.devices, s.sups, s.reapers, 1, g, pc);
    SweepKeepsOwned(s.services, s.sups, s.reapers, 2, g, pc);
    SweepKeepsOwned(s.live, s.sups, s.reapers, 3, g, pc);
    AdvanceKeepsRest(s, g, pc);
  }

  /** Records filed under the id of a pending reaper carry that reaper's generation. */
  lemma OwnGenerationOnly(s: Sys, g: nat)
    requires Inv(s) && Pending(s.reapers, g)
    ensures forall r :: r in s.devices + s.services + s.live && r.owner == s.sups[g].instanceId ==> r.gen == g
    ensures forall r :: r in s.devices + s.services + s.live && r.gen == g ==> r.owner == s.sups[g].instanceId
  {
    forall r | r in s.devices + s.services + s.live && r.owner == s.sups[g].instanceId
      ensures r.gen == g
    {
      assert Pending(s.reapers, r.gen);
    }
  }

  lemma UnregisterKeepsMatched(instances: map<InstanceId, Handle>, sups: Sups, reapers: Reapers, g: nat)
    requires Matched(instances, sups, reapers) && Pending(reapers, g)
    ensures Matched(instances - {sups[g].instanceId}, sups, reapers[g := Unregistered])
  {
    assert forall k :: Pending(reapers[g := Unregistered], k) <==> Pending(reapers, k) && k != g;
  }

  /** The handle a pending reaper is about to remove is its own. */
  lemma PendingIsRegistered(s: Sys, g: nat)
    requires Matched(s.reg.instances, s.sups, s.reapers) && Pending(s.reapers, g)
    ensures g in s.sups && s.sups[g].instanceId in s.reg.instances
    ensures s.reg.instances[s.sups[g].instanceId].pluginId == s.sups[g].pluginId
  {
  }

  lemma UnregisterKeepsInv(s: Sys, g: nat)
    requires Inv(s) && Enabled(s, Reap(g)) && s.reapers[g] == MarkedStale
    ensures Inv(Apply(s, Reap(g)))
  {
    hide Consistent, Generations, Matched, Owned, Tracked, StopsCover;
    var owner := s.sups[g].instanceId;
    var reg' := Removed(s.reg, owner, s.sups[g].pluginId);
    ReapedIsTerminal(s, g);
    PendingIsRegistered(s, g);
    RemoveFreesOnlyOwnSlot(s.reg, owner);
    UnregisterKeepsMatched(s.reg.instances, s.sups, s.reapers, g);
    ShrinkKeepsStopsCover(s.reg, reg', s.stops, s.sups);
    SweepKeepsOwned(s.devices, s.sups, s.reapers, 1, g, Unregistered);
    SweepKeepsOwned(s.services, s.sups, s.reapers, 2, g, Unregistered);
    SweepKeepsOwned(s.live, s.sups, s.reapers, 3, g, Unregistered);
    AdvanceKeepsRest(s, g, Unregistered);
    assert TrackerComplete(reg'.instances, s.tracker, s.taken);
  }

  /** Removing handles from the registry cannot break what a snapshot covers. */
  lemma ShrinkKeepsStopsCover(reg: Reg, reg': Reg, stops: map<nat, StopRun>, sups: Sups)
    requires StopsCover(reg, stops, sups) && reg'.shuttingDown == reg.shuttingDown
    requires forall i :: i in reg'.instances ==> i in reg.instances && reg'.instances[i] == reg.instances[i]
    ensures StopsCover(reg', stops, sups)
  {
    forall run | run in stops
      ensures RunCovers(reg'.instances, stops[run], sups)
    {
      assert RunCovers(reg.instances, stops[run], sups);
    }
  }

  lemma ForgetKeepsInv(s: Sys, g: nat)
    requires Inv(s) && Enabled(s, Reap(g)) && s.reapers[g] == Unregistered
    ensures Inv(Apply(s, Reap(g)))
  {
    ReapKeepsMatched(s, g, Finished);
    SweepKeepsOwned(s.devices, s.sups, s.reapers, 1, g, Finished);
    SweepKeepsOwned(s.services, s.sups, s.reapers, 2, g, Finished);
    SweepKeepsOwned(s.live, s.sups, s.reapers, 3, g, Finished);
    ForgetKeepsTracker(s, g);
  }

  lemma ForgetKeepsTracker(s: Sys, g: nat)
    requires Tracked(s.tracker, s.sups, s.reapers) && Matched(s.reg.instances, s.sups, s.reapers)
    requires TrackerComplete(s.reg.instances, s.tracker, s.taken)
    requires g in s.sups && g in s.reapers && s.reapers[g] == Unregistered
    ensures Tracked(Forgotten(s.tracker, s.sups[g].instanceId, g), s.sups, s.reapers[g := Finished])
    ensures TrackerComplete(s.reg.instances, Forgotten(s.tracker, s.sups[g].instanceId, g), s.taken)
  {
    forall i | i in s.reg.instances
      ensures s.reg.instances[i].gen != g
    {
      assert Pending(s.reapers, s.reg.instances[i].gen);
    }
  }

  /** The same generations under the same identities, none of them revived. */
  ghost predicate Ages(sups: Sups, sups': Sups) {
    && sups'.Keys == sups.Keys
    && (forall g :: g in sups ==>
          && sups'[g].instanceId == sups[g].instanceId && sups'[g].pluginId == sups[g].pluginId
          && (sups[g].phase != Live ==> sups'[g].phase != Live)
          && (sups[g].phase == Terminal ==> sups'[g].phase == Terminal))
  }

  lemma AgeingKeepsCorrespondence(s: Sys, sups': Sups)
    requires Ages(s.sups, sups')
    ensures Generations(s.sups, s.reapers, s.nextGen) ==> Generations(sups', s.reapers, s.nextGen)
    ensures Matched(s.reg.instances, s.sups, s.reapers) ==> Matched(s.reg.instances, sups', s.reapers)
    ensures Tracked(s.tracker, s.sups, s.reapers) ==> Tracked(s.tracker, sups', s.reapers)
  {
  }

  lemma AgeingKeepsOwned(records: set<Record>, sups: Sups, sups': Sups, reapers: Reapers, sweep: nat)
    requires Ages(sups, sups') && Owned(records, sups, reapers, sweep)
    ensures Owned(records, sups', reapers, sweep)
  {
  }

  lemma AgeingKeepsStopsCover(reg: Reg, stops: map<nat, StopRun>, sups: Sups, sups': Sups)
    requires Ages(sups, sups') && StopsCover(reg, stops, sups)
    ensures StopsCover(reg, stops, sups')
  {
    forall run | run in stops
      ensures RunCovers(reg.instances, stops[run], sups')
    {
      assert RunCovers(reg.instances, stops[run], sups);
    }
  }

  lemma SupervisorStepKeepsInv(s: Sys, step: Step)
    requires Inv(s) && (step.Acknowledge? || step.Exit?) && Enabled(s, step)
    ensures Inv(Apply(s, step))
  {
    var sups' := Apply(s, step).sups;
    assert Ages(s.sups, sups');
    AgeingKeepsCorrespondence(s, sups');
    AgeingKeepsOwned(s.devices, s.sups, sups', s.reapers, 1);
    AgeingKeepsOwned(s.services, s.sups, sups', s.reapers, 2);
    AgeingKeepsOwned(s.live, s.sups, sups', s.reapers, 3);
    AgeingKeepsStopsCover(s.reg, s.stops, s.sups, sups');
  }

  lemma StopStepKeepsInv(s: Sys, step: Step)
    requires Inv(s) && (step.CloseGate? || step.Snapshot? || step.StopEnds?) && Enabled(s, step)
    ensures Inv(Apply(s, step))
  {
    var s' := Apply(s, step);
    forall run | run in s'.stops
      ensures s'.reg.shuttingDown && RunCovers(s'.reg.instances, s'.stops[run], s'.sups)
    {
      if run in s.stops {
        assert RunCovers(s.reg.instances, s.stops[run], s.sups);
      }
    }
  }

  lemma LiveStepKeepsOwned(records: set<Record>, sups: Sups, reapers: Reapers, sweep: nat, g: nat, key: string)
    requires Owned(records, sups, reapers, sweep) && sweep > 0
    requires g in sups && g in reapers && reapers[g] == Waiting
    ensures Owned(records + {Record(key, sups[g].instanceId, g)}, sups, reapers, sweep)
    ensures Owned(Evicted(records, sups[g].instanceId), sups, reapers, sweep)
  {
  }

  lemma PublishKeepsInv(s: Sys, g: nat, key: string, table: Table)
    requires Inv(s) && Enabled(s, Publish(g, key, table))
    ensures Inv(Apply(s, Publish(g, key, table)))
  {
    assert s.reapers[g] == Waiting;
    match table
    case Devices => LiveStepKeepsOwned(s.devices, s.sups, s.reapers, 1, g, key);
    case Services => LiveStepKeepsOwned(s.services, s.sups, s.reapers, 2, g, key);
    case FreshState => LiveStepKeepsOwned(s.live, s.sups, s.reapers, 3, g, key);
  }

  lemma ReloadKeepsInv(s: Sys, g: nat, table: Table)
    requires Inv(s) && Enabled(s, Reload(g, table))
    ensures Inv(Apply(s, Reload(g, table)))
  {
    assert s.reapers[g] == Waiting;
    match table
    case Devices => LiveStepKeepsOwned(s.devices, s.sups, s.reapers, 1, g, "");
    case Services => LiveStepKeepsOwned(s.services, s.sups, s.reapers, 2, g, "");
    case FreshState => LiveStepKeepsOwned(s.live, s.sups, s.reapers, 3, g, "");
  }

  lemma TakeKeepsInv(s: Sys)
    requires Inv(s)
    ensures Inv(Apply(s, TakeHandles))
  {
    forall i | i in s.reg.instances && s.reg.instances[i].gen !in s.taken
      ensures s.reg.instances[i].gen in s.tracker.Values
    {
      assert s.tracker[i] in s.tracker.Values;
    }
  }

  lemma StepKeepsInv(s: Sys, step: Step)
    requires Inv(s) && Enabled(s, step)
    ensures Inv(Apply(s, step))
  {
    hide Matched, Tracked;
    match step
    case Start(_, _, _, _) => StartKeepsInv(s, step);
    case Reap(g) =>
      if s.reapers[g] == MarkedStale {
        UnregisterKeepsInv(s, g);
      } else if s.reapers[g] == Unregistered {
        ForgetKeepsInv(s, g);
      } else {
        SweepKeepsInv(s, g);
      }
    case Acknowledge(_) => SupervisorStepKeepsInv(s, step);
    case Exit(_) => SupervisorStepKeepsInv(s, step);
    case CloseGate(_) => StopStepKeepsInv(s, step);
    case Snapshot(_) => StopStepKeepsInv(s, step);
    case StopEnds(_, _, _) => StopStepKeepsInv(s, step);
    case Publish(g, key, table) => PublishKeepsInv(s, g, key, table);
    case Reload(g, table) => ReloadKeepsInv(s, g, table);
    case TakeHandles => TakeKeepsInv(s);
  }

  /** Every state of every run satisfies the invariant. */
  lemma {:induction false} RunKeepsInv(s: Sys, steps: seq<Step>)
    requires Inv(s) && Legal(s, steps)
    ensures Inv(Exec(s, steps))
    decreases |steps|
  {
    if steps == [] {
    } else {
      StepKeepsInv(s, steps[0]);
      RunKeepsInv(Apply(s, steps[0]), steps[1..]);
    }
  }

  lemma ReachableKeepsInv(s: Sys)
    requires Reachable(s)
    ensures Inv(s)
  {
    var steps :| Legal(INIT, steps) && Exec(INIT, steps) == s;
    RunKeepsInv(INIT, steps);
  }
}
