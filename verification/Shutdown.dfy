/**
  What the supervisor / reaper protocol guarantees in every run: reapers only touch
  their own generation, the tracker follows the registry, and "stop everything,
  then drain" leaves nothing behind.
 */
module Shutdown {
  import opened Registry
  import opened Supervision

  // ---- Reapers and the tracker ----

  /** `after` is `before` without some records of generation `g`; once the sweep of
      this table is behind the reaper, without all of them. */
  ghost predicate SweptFor(before: set<Record>, after: set<Record>, g: nat, swept: bool) {
    && after <= before
    && (forall r :: r in before && r !in after ==> r.gen == g)
    && (swept ==> forall r :: r in after ==> r.gen != g)
  }

  /** Whatever a reaper's action removes, in any reachable state and even if its
      instance id was recycled, belongs to its own generation; and each sweep removes
      everything that generation published in the table. */
  lemma ReaperActsOnOwnGeneration(s: Sys, g: nat)
    requires Reachable(s) && Enabled(s, Reap(g))
    ensures SweptFor(s.devices, Apply(s, Reap(g)).devices, g, true)
    ensures SweptFor(s.services, Apply(s, Reap(g)).services, g, ActionsDone(s.reapers[g]) >= 1)
    ensures SweptFor(s.live, Apply(s, Reap(g)).live, g, ActionsDone(s.reapers[g]) >= 2)
    ensures forall i :: i in s.reg.instances && i !in Apply(s, Reap(g)).reg.instances ==> s.reg.instances[i].gen == g
    ensures forall i :: i in s.tracker && i !in Apply(s, Reap(g)).tracker ==> s.tracker[i] == g
  {
    hide SweptFor, Evicted;
    ReachableKeepsInv(s);
    ReapRemovesOwnRecords(s, g);
    ReapRemovesOwnEntries(s, g);
  }

  lemma ReapRemovesOwnEntries(s: Sys, g: nat)
    requires Inv(s) && Enabled(s, Reap(g))
    ensures forall i :: i in s.reg.instances && i !in Apply(s, Reap(g)).reg.instances ==> s.reg.instances[i].gen == g
    ensures forall i :: i in s.tracker && i !in Apply(s, Reap(g)).tracker ==> s.tracker[i] == g
  {
    hide Consistent, Owned, Tracked, TrackerComplete, StopsCover, Generations;
    assert s.reapers[g] == MarkedStale ==> Pending(s.reapers, g);
  }

  lemma ReapRemovesOwnRecords(s: Sys, g: nat)
    requires Inv(s) && Enabled(s, Reap(g))
    ensures SweptFor(s.devices, Apply(s, Reap(g)).devices, g, true)
    ensures SweptFor(s.services, Apply(s, Reap(g)).services, g, ActionsDone(s.reapers[g]) >= 1)
    ensures SweptFor(s.live, Apply(s, Reap(g)).live, g, ActionsDone(s.reapers[g]) >= 2)
  {
    hide Matched, Tracked, TrackerComplete, StopsCover, Consistent;
    if ActionsDone(s.reapers[g]) < 4 {
      OwnGenerationOnly(s, g);
    }
    OwnedSweep(s.devices, s.sups, s.reapers, 1, g);
    OwnedSweep(s.services, s.sups, s.reapers, 2, g);
    OwnedSweep(s.live, s.sups, s.reapers, 3, g);
  }

  lemma OwnedSweep(records: set<Record>, sups: Sups, reapers: Reapers, sweep: nat, g: nat)
    requires Owned(records, sups, reapers, sweep) && g in sups && g in reapers
    ensures ActionsDone(reapers[g]) >= sweep ==> forall r :: r in records ==> r.gen != g
    ensures forall r :: r in Evicted(records, sups[g].instanceId) ==> r.gen != g
  {
  }

  /** A start registers the instance under a fresh generation, takes the slot of a
      singleton, tracks the reaper and supervises the installation it was given. */
  lemma StartRegisters(s: Sys, step: Step)
    requires Reachable(s) && step.Start? && Enabled(s, step)
    ensures var s', g := Apply(s, step), s.nextGen;
      && g !in s.sups && g !in s.reapers
      && s'.reg.instances == s.reg.instances[step.instanceId := Handle(step.instanceId, step.pluginId, g)]
      && s'.reg.singletons == (if step.singleton then s.reg.singletons[step.pluginId := step.instanceId]
                               else s.reg.singletons)
      && s'.tracker == s.tracker[step.instanceId := g]
      && s'.sups == s.sups[g := Sup(step.instanceId, step.pluginId, step.installation, Live)]
      && s'.reapers == s.reapers[g := Waiting] && s'.nextGen > g
      && s'.devices == s.devices && s'.services == s.services && s'.live == s.live
  {
    ReachableKeepsInv(s);
    hide Reachable, Matched, Owned, Tracked, TrackerComplete, StopsCover, Consistent;
  }

  function TableOf(s: Sys, table: Table): set<Record> {
    match table
    case Devices => s.devices
    case Services => s.services
    case FreshState => s.live
  }

  /** A publish files one record under the publisher's id, in that table alone. */
  lemma PublishFiles(s: Sys, g: nat, key: string, table: Table)
    requires Enabled(s, Publish(g, key, table))
    ensures var s' := Apply(s, Publish(g, key, table));
      forall t :: TableOf(s', t) ==
                  TableOf(s, t) + if t == table then {Record(key, s.sups[g].instanceId, g)} else {}
  {
  }

  /** Before a load, the sweep of a table removes exactly what the earlier loads of the
      same generation published there, in any reachable state. */
  lemma ReloadSweepsOwn(s: Sys, g: nat, table: Table)
    requires Reachable(s) && Enabled(s, Reload(g, table))
    ensures var s' := Apply(s, Reload(g, table));
      && (forall r :: r in TableOf(s', table) <==> r in TableOf(s, table) && r.gen != g)
      && (forall t :: t != table ==> TableOf(s', t) == TableOf(s, t))
      && s'.reg == s.reg && s'.sups == s.sups && s'.reapers == s.reapers
  {
    ReloadApplies(s, g, table);
    hide Reachable, Apply, Enabled;
    ReachableKeepsInv(s);
    assert Generations(s.sups, s.reapers, s.nextGen) && Pending(s.reapers, g);
    hide Inv, Generations, Pending;
    OwnGenerationOnly(s, g);
    assert forall r :: r in TableOf(s, table) ==> r in s.devices + s.services + s.live;
  }

  lemma ReloadApplies(s: Sys, g: nat, table: Table)
    requires Enabled(s, Reload(g, table))
    ensures g in s.sups && s.sups[g].phase == Live
    ensures var s' := Apply(s, Reload(g, table));
      && (forall r :: r in TableOf(s', table) <==> r in TableOf(s, table) && r.owner != s.sups[g].instanceId)
      && (forall t :: t != table ==> TableOf(s', t) == TableOf(s, t))
      && s'.reg == s.reg && s'.sups == s.sups && s'.reapers == s.reapers
  {
  }

  /** Every registered id has exactly one reaper that has not yet unregistered: the
      one whose generation the registered handle carries. */
  lemma OnePendingReaperPerId(s: Sys, i: InstanceId)
    requires Reachable(s) && i in s.reg.instances
    ensures forall g :: Pending(s.reapers, g) && g in s.sups && s.sups[g].instanceId == i <==>
              g == s.reg.instances[i].gen
  {
    ReachableKeepsInv(s);
  }

  /** A registered reaper stays tracked until a drain takes it, a finished reaper is
      never tracked, and so the tracker is empty once every reaper has finished. */
  lemma TrackerFollowsRegistry(s: Sys)
    requires Reachable(s)
    ensures forall i :: i in s.reg.instances && s.reg.instances[i].gen !in s.taken ==>
                          i in s.tracker && s.tracker[i] == s.reg.instances[i].gen
    ensures forall i :: i in s.tracker ==> s.tracker[i] in s.reapers && s.reapers[s.tracker[i]] != Finished
    ensures (forall g :: g in s.reapers ==> s.reapers[g] == Finished) ==> s.tracker == map[]
  {
    ReachableKeepsInv(s);
    if s.tracker != map[] {
      var i :| i in s.tracker;
      assert s.reapers[s.tracker[i]] != Finished;
    }
  }

  /** In every run a plugin that holds a singleton slot has exactly one registered
      instance, the one named by the slot. */
  lemma SingletonsStayExclusive(s: Sys, p: PluginId)
    requires Reachable(s) && p in s.reg.singletons
    ensures forall i :: i in s.reg.instances && s.reg.instances[i].pluginId == p <==> i == s.reg.singletons[p]
  {
    ReachableKeepsInv(s);
  }

  // ---- The stop report ----

  datatype StopAllReport = StopAllReport(
    stopped: nat, errored: seq<InstanceId>, timedOut: seq<InstanceId>, panicked: nat)
  {
    predicate AllStopped() {
      errored == [] && timedOut == [] && panicked == 0
    }

    function Total(): nat {
      stopped + |errored| + |timedOut| + panicked
    }
  }

  /** Outcome of one stop task, in the order the tasks were joined. */
  datatype Joined = Joined(instanceId: InstanceId, outcome: StopOutcome)

  /** The instances whose stop ended with `outcome`, in join order. */
  function EndedWith(results: seq<Joined>, outcome: StopOutcome): seq<InstanceId> {
    if results == [] then []
    else
      var last := results[|results| - 1];
      EndedWith(results[..|results| - 1], outcome) + (if last.outcome == outcome then [last.instanceId] else [])
  }

  /** Exactly the instances whose stop ended with an outcome are listed under it. */
  lemma {:induction false} EndedWithExactly(results: seq<Joined>)
    ensures forall i, o :: i in EndedWith(results, o) <==> Joined(i, o) in results
    ensures forall o :: EndedWith(results, o) != [] <==> exists i :: Joined(i, o) in results
  {
    if results == [] {
    } else {
      var n := |results| - 1;
      EndedWithExactly(results[..n]);
      assert results == results[..n] + [results[n]];
      forall o
        ensures EndedWith(results, o) != [] <==> exists i :: Joined(i, o) in results
      {
        if EndedWith(results, o) != [] {
          assert Joined(EndedWith(results, o)[0], o) in results;
        }
      }
    }
  }

  /** The report counts and lists the outcomes of these stops. */
  ghost predicate Reports(report: StopAllReport, results: seq<Joined>) {
    && report.stopped == |EndedWith(results, Acked)| + |EndedWith(results, Gone)|
    && report.panicked == |EndedWith(results, Panicked)|
    && report.errored == EndedWith(results, Errored) && report.timedOut == EndedWith(results, TimedOut)
    && report.Total() == |results|
    && (report.AllStopped() <==> forall k :: 0 <= k < |results| ==> results[k].outcome.Normal())
  }

  lemma ReportsOneMore(report: StopAllReport, results: seq<Joined>, k: nat)
    requires k < |results| && Reports(report, results[..k])
    ensures var i, all := results[k].instanceId, results[..k + 1];
      match results[k].outcome
      case Acked => Reports(report.(stopped := report.stopped + 1), all)
      case Gone => Reports(report.(stopped := report.stopped + 1), all)
      case Errored => Reports(report.(errored := report.errored + [i]), all)
      case TimedOut => Reports(report.(timedOut := report.timedOut + [i]), all)
      case Panicked => Reports(report.(panicked := report.panicked + 1), all)
  {
    hide EndedWith;
    OneMoreJoined(results, k);
    var all := results[..k + 1];
    assert forall j :: 0 <= j < k ==> all[j] == results[..k][j];
    assert all[k] == results[k];
  }

  /** Fold the joined stop tasks into a report. */
  method FoldReport(results: seq<Joined>) returns (report: StopAllReport)
    ensures report.stopped == |EndedWith(results, Acked)| + |EndedWith(results, Gone)|
    ensures report.panicked == |EndedWith(results, Panicked)|
    ensures report.errored == EndedWith(results, Errored) && report.timedOut == EndedWith(results, TimedOut)
    ensures report.Total() == |results|
    ensures report.AllStopped() <==> forall k :: 0 <= k < |results| ==> results[k].outcome.Normal()
  {
    report := StopAllReport(0, [], [], 0);
    assert Reports(report, []);
    for k := 0 to |results|
      invariant Reports(report, results[..k])
    {
      hide Reports;
      ReportsOneMore(report, results, k);
      match results[k].outcome
      case Acked => report := report.(stopped := report.stopped + 1);
      case Gone => report := report.(stopped := report.stopped + 1);
      case Errored => report := report.(errored := report.errored + [results[k].instanceId]);
      case TimedOut => report := report.(timedOut := report.timedOut + [results[k].instanceId]);
      case Panicked => report := report.(panicked := report.panicked + 1);
    }
    assert results[..|results|] == results;
  }

  lemma OneMoreJoined(results: seq<Joined>, k: nat)
    requires k < |results|
    ensures forall o :: EndedWith(results[..k + 1], o) ==
                          EndedWith(results[..k], o) + if results[k].outcome == o then [results[k].instanceId] else []
  {
    assert results[..k + 1][..k] == results[..k];
  }

  /** `results` lists every entry of `outcomes` once. */
  ghost predicate Lists(results: seq<Joined>, outcomes: map<InstanceId, StopOutcome>) {
    && (forall k :: 0 <= k < |results| ==>
          results[k].instanceId in outcomes && outcomes[results[k].instanceId] == results[k].outcome)
    && (forall j, k :: 0 <= j < k < |results| ==> results[j].instanceId != results[k].instanceId)
    && (forall i :: i in outcomes ==> Joined(i, outcomes[i]) in results)
  }

  lemma {:induction false} ListsLength(results: seq<Joined>, outcomes: map<InstanceId, StopOutcome>)
    requires Lists(results, outcomes)
    ensures |results| == |outcomes|
  {
    if results == [] {
      assert outcomes.Keys == {};
    } else {
      var n := |results| - 1;
      var rest := outcomes - {results[n].instanceId};
      forall i | i in rest
        ensures Joined(i, rest[i]) in results[..n]
      {
        var k :| 0 <= k < |results| && results[k] == Joined(i, outcomes[i]);
        assert results[..n][k] == results[k];
      }
      ListsLength(results[..n], rest);
      assert rest.Keys == outcomes.Keys - {results[n].instanceId};
    }
  }

  ghost predicate RunComplete(s: Sys, run: nat) {
    run in s.stops && s.stops[run].Stopping? && s.stops[run].outcomes.Keys == s.stops[run].snapshot.Keys
  }

  ghost predicate RunAllStopped(s: Sys, run: nat) {
    && RunComplete(s, run)
    && forall i :: i in s.stops[run].outcomes ==> s.stops[run].outcomes[i].Normal()
  }

  /** The four counts of a completed report add up to the snapshot, and the report
      says "all stopped" exactly when every stop of the snapshot returned normally. */
  lemma ReportAddsUp(s: Sys, run: nat, results: seq<Joined>, report: StopAllReport)
    requires RunComplete(s, run) && Lists(results, s.stops[run].outcomes)
    requires report.Total() == |results|
    requires report.AllStopped() <==> forall k :: 0 <= k < |results| ==> results[k].outcome.Normal()
    ensures report.Total() == |s.stops[run].snapshot|
    ensures report.AllStopped() <==> RunAllStopped(s, run)
  {
    ListsLength(results, s.stops[run].outcomes);
    assert |s.stops[run].outcomes.Keys| == |s.stops[run].snapshot.Keys|;
    if report.AllStopped() {
      forall i | i in s.stops[run].outcomes
        ensures s.stops[run].outcomes[i].Normal()
      {
        assert Joined(i, s.stops[run].outcomes[i]) in results;
      }
    }
  }

  // ---- After the gate is closed ----

  lemma StepOnlyShrinks(s: Sys, step: Step)
    requires s.reg.shuttingDown && Enabled(s, step)
    ensures Apply(s, step).reg.shuttingDown
    ensures Apply(s, step).reg.instances.Keys <= s.reg.instances.Keys
    ensures forall i :: i in Apply(s, step).reg.instances ==> Apply(s, step).reg.instances[i] == s.reg.instances[i]
  {
    assert !step.Start?;
  }

  /** Once shutting down, the registered set only shrinks, whatever else happens. */
  lemma {:induction false} RegisteredSetOnlyShrinks(s: Sys, steps: seq<Step>)
    requires s.reg.shuttingDown && Legal(s, steps)
    ensures Exec(s, steps).reg.shuttingDown
    ensures Exec(s, steps).reg.instances.Keys <= s.reg.instances.Keys
    ensures forall i :: i in Exec(s, steps).reg.instances ==> Exec(s, steps).reg.instances[i] == s.reg.instances[i]
    decreases |steps|
  {
    if steps == [] {
    } else {
      var s1 := Apply(s, steps[0]);
      StepOnlyShrinks(s, steps[0]);
      RegisteredSetOnlyShrinks(s1, steps[1..]);
      forall i | i in Exec(s1, steps[1..]).reg.instances
        ensures Exec(s1, steps[1..]).reg.instances[i] == s.reg.instances[i]
      {
        assert i in s1.reg.instances;
      }
    }
  }

  /** Everything registered after a snapshot was taken is in the snapshot. */
  lemma RegisteredLiesInSnapshot(s: Sys, run: nat)
    requires Reachable(s) && run in s.stops && s.stops[run].Stopping?
    ensures forall i :: i in s.reg.instances ==>
                          i in s.stops[run].snapshot && s.stops[run].snapshot[i] == s.reg.instances[i]
  {
    ReachableKeepsInv(s);
    assert RunCovers(s.reg.instances, s.stops[run], s.sups);
  }

  ghost predicate NoneLive(s: Sys) {
    forall g :: g in s.sups ==> s.sups[g].phase != Live
  }

  /** If every stop of a completed run returned normally, no supervisor is left that
      could still run plugin code: each has ended or is committed to ending. */
  lemma AllStoppedLeavesNoneLive(s: Sys, run: nat)
    requires Inv(s) && RunAllStopped(s, run)
    ensures s.reg.shuttingDown && NoneLive(s)
  {
    assert RunCovers(s.reg.instances, s.stops[run], s.sups);
    forall g | g in s.sups
      ensures s.sups[g].phase != Live
    {
      if s.reapers[g] == Waiting {
        assert Pending(s.reapers, g);
        assert s.reg.instances[s.sups[g].instanceId].gen == g;
      }
    }
  }

  /** Every supervisor the report counted as stopped has ended. */
  ghost predicate CountedHaveEnded(s: Sys, run: nat)
    requires run in s.stops && s.stops[run].Stopping?
  {
    forall i :: i in s.stops[run].snapshot ==> Ended(s.sups, s.stops[run].snapshot[i].gen)
  }

  /** The supervisor behind an acked stop is between its ack and its terminal state. */
  ghost predicate StillCommitted(s: Sys, run: nat, i: InstanceId)
    requires run in s.stops && s.stops[run].Stopping?
  {
    && i in s.stops[run].snapshot && i in s.stops[run].outcomes && s.stops[run].outcomes[i] == Acked
    && s.stops[run].snapshot[i].gen in s.sups && s.sups[s.stops[run].snapshot[i].gen].phase == Committed
  }

  /** When "all stopped" means what it says.  A stop that found the channel or the reply
      gone counts an ended supervisor; one that was acked counts a supervisor that has
      ended unless it is still committed.  So the claim about the counted supervisors,
      and the same claim about every supervisor of the engine, hold exactly when no
      acked one is still committed; each such supervisor ends with its own next step. */
  lemma ReportClaimHoldsExactly(s: Sys, run: nat)
    requires Reachable(s) && RunAllStopped(s, run)
    ensures forall i :: i in s.stops[run].snapshot && s.stops[run].outcomes[i] == Gone ==>
                          Ended(s.sups, s.stops[run].snapshot[i].gen)
    ensures forall i :: i in s.stops[run].snapshot && s.stops[run].outcomes[i] == Acked ==>
                          (Ended(s.sups, s.stops[run].snapshot[i].gen) <==> !StillCommitted(s, run, i))
    ensures CountedHaveEnded(s, run) <==> forall i :: i in s.stops[run].snapshot ==> !StillCommitted(s, run, i)
    ensures CountedHaveEnded(s, run) <==> forall g :: g in s.sups ==> Ended(s.sups, g)
    ensures forall i :: StillCommitted(s, run, i) ==>
                          var g := s.stops[run].snapshot[i].gen;
                          Enabled(s, Exit(g)) && Ended(Apply(s, Exit(g)).sups, g)
  {
    ReachableKeepsInv(s);
    assert RunCovers(s.reg.instances, s.stops[run], s.sups);
    if CountedHaveEnded(s, run) {
      CountedCoverAll(s, run);
    }
    hide Matched, Owned, Tracked, TrackerComplete, Generations;
  }

  lemma CountedCoverAll(s: Sys, run: nat)
    requires Inv(s) && run in s.stops && s.stops[run].Stopping? && CountedHaveEnded(s, run)
    ensures forall g :: g in s.sups ==> Ended(s.sups, g)
  {
    assert RunCovers(s.reg.instances, s.stops[run], s.sups);
    forall g | g in s.sups
      ensures Ended(s.sups, g)
    {
      if s.reapers[g] == Waiting {
        assert Pending(s.reapers, g);
        assert s.stops[run].snapshot[s.sups[g].instanceId].gen == g;
      }
    }
  }

  lemma StepKeepsEnded(s: Sys, step: Step, g: nat)
    requires Generations(s.sups, s.reapers, s.nextGen) && Enabled(s, step) && Ended(s.sups, g)
    ensures Ended(Apply(s, step).sups, g)
  {
  }

  /** And from then on it stays true. */
  lemma {:induction false} EndedStays(s: Sys, steps: seq<Step>, g: nat)
    requires Inv(s) && Legal(s, steps) && Ended(s.sups, g)
    ensures Ended(Exec(s, steps).sups, g)
    decreases |steps|
  {
    if steps == [] {
    } else {
      StepKeepsInv(s, steps[0]);
      StepKeepsEnded(s, steps[0], g);
      hide Inv, Apply, Enabled, Ended;
      EndedStays(Apply(s, steps[0]), steps[1..], g);
    }
  }

  /** The state of an engine with one instance "a", its supervisor in `phase`. */
  ghost function Lone(phase: Phase, shuttingDown: bool, stops: map<nat, StopRun>): Sys {
    Sys(Reg(map["a" := Handle("a", "p", 0)], map[], shuttingDown), map["a" := 0], 1,
        map[0 := Sup("a", "p", "u", phase)], map[0 := Waiting], {}, {}, {}, {}, stops)
  }

  lemma LoneIsReachable()
    ensures Reachable(Lone(Live, false, map[]))
  {
    var start := Start("a", "p", false, "u");
    assert Admits(EMPTY_REG, "a", "p", false);
    assert Apply(INIT, start) == Lone(Live, false, map[]);
    ExtendReachable(INIT, start);
  }

  lemma LoneIsClosed()
    ensures Reachable(Lone(Live, true, map[0 := GateClosed]))
  {
    LoneIsReachable();
    var s := Lone(Live, false, map[]);
    assert Enabled(s, CloseGate(0)) && Apply(s, CloseGate(0)) == Lone(Live, true, map[0 := GateClosed]);
    hide Reachable;
    ExtendReachable(s, CloseGate(0));
  }

  lemma LoneIsStopping()
    ensures Reachable(Lone(Live, true, map[0 := Stopping(map["a" := Handle("a", "p", 0)], map[])]))
  {
    LoneIsClosed();
    var s := Lone(Live, true, map[0 := GateClosed]);
    assert Enabled(s, Snapshot(0));
    assert Apply(s, Snapshot(0)) == Lone(Live, true, map[0 := Stopping(map["a" := Handle("a", "p", 0)], map[])]);
    hide Reachable;
    ExtendReachable(s, Snapshot(0));
  }

  lemma LoneIsAcked(s: Sys)
    requires s == Lone(Committed, true, map[0 := Stopping(map["a" := Handle("a", "p", 0)], map[])]) && Reachable(s)
    ensures exists s' :: Reachable(s') && RunAllStopped(s', 0)
                         && 0 in s'.sups && s'.sups[0].phase != Terminal && "a" in s'.reg.instances
  {
    ExtendReachable(s, StopEnds(0, "a", Acked));
    var s' := Apply(s, StopEnds(0, "a", Acked));
    assert s'.stops[0].outcomes == map["a" := Acked];
    assert RunAllStopped(s', 0);
  }

  /** "All stopped" is weaker than "every supervisor is terminal": the request is acked
      before the terminal state is published, and the reaper has not run. */
  lemma AllStoppedIsNotTerminal()
    ensures exists s :: Reachable(s) && RunAllStopped(s, 0)
                        && 0 in s.sups && s.sups[0].phase != Terminal && "a" in s.reg.instances
  {
    LoneIsStopping();
    var stopping := Stopping(map["a" := Handle("a", "p", 0)], map[]);
    var s := Lone(Live, true, map[0 := stopping]);
    assert Apply(s, Acknowledge(0)) == Lone(Committed, true, map[0 := stopping]);
    ExtendReachable(s, Acknowledge(0));
    LoneIsAcked(Lone(Committed, true, map[0 := stopping]));
  }

  lemma ExtendReachable(s: Sys, step: Step)
    requires (s == INIT || Reachable(s)) && Enabled(s, step)
    ensures Reachable(Apply(s, step))
  {
    assert Legal(INIT, []) && Exec(INIT, []) == INIT;
    var steps :| Legal(INIT, steps) && Exec(INIT, steps) == s;
    ExecSnoc(INIT, steps, step);
  }

  lemma {:induction false} ExecSnoc(s: Sys, steps: seq<Step>, step: Step)
    requires Legal(s, steps) && Enabled(Exec(s, steps), step)
    ensures Legal(s, steps + [step]) && Exec(s, steps + [step]) == Apply(Exec(s, steps), step)
    decreases |steps|
  {
    var all := steps + [step];
    if steps == [] {
      assert all[1..] == [];
    } else {
      assert all[1..] == steps[1..] + [step];
      ExecSnoc(Apply(s, steps[0]), steps[1..], step);
    }
  }

  // ---- The unbounded drain terminates ----

  /** Actions still to be taken by generation `g` once it is committed to ending. */
  ghost function Remaining(sups: Sups, reapers: Reapers, g: nat): nat {
    if g in sups && g in reapers then
      (5 - ActionsDone(reapers[g])) + (if sups[g].phase == Terminal then 0 else 1)
    else
      0
  }

  ghost function WorkUpTo(sups: Sups, reapers: Reapers, n: nat): nat {
    if n == 0 then 0 else Remaining(sups, reapers, n - 1) + WorkUpTo(sups, reapers, n - 1)
  }

  /** Actions still to be taken by all generations together. */
  ghost function Work(s: Sys): nat {
    WorkUpTo(s.sups, s.reapers, s.nextGen)
  }

  /** One action of the drained tail: a committed supervisor ends, or a reaper advances. */
  ghost predicate Settles(step: Step) {
    step.Exit? || step.Reap?
  }

  ghost function CountSettling(steps: seq<Step>): nat {
    if steps == [] then 0 else (if Settles(steps[0]) then 1 else 0) + CountSettling(steps[1..])
  }

  lemma {:induction false} WorkDiffersAt(sups: Sups, reapers: Reapers, sups': Sups, reapers': Reapers, g: nat, n: nat)
    requires forall k :: 0 <= k < n && k != g ==> Remaining(sups', reapers', k) == Remaining(sups, reapers, k)
    requires g < n
    ensures WorkUpTo(sups', reapers', n) + Remaining(sups, reapers, g)
         == WorkUpTo(sups, reapers, n) + Remaining(sups', reapers', g)
  {
    if n - 1 == g {
      WorkSame(sups, reapers, sups', reapers', n - 1);
    } else {
      WorkDiffersAt(sups, reapers, sups', reapers', g, n - 1);
    }
  }

  lemma {:induction false} WorkSame(sups: Sups, reapers: Reapers, sups': Sups, reapers': Reapers, n: nat)
    requires forall k :: 0 <= k < n ==> Remaining(sups', reapers', k) == Remaining(sups, reapers, k)
    ensures WorkUpTo(sups', reapers', n) == WorkUpTo(sups, reapers, n)
  {
    if n == 0 {
    } else {
      WorkSame(sups, reapers, sups', reapers', n - 1);
    }
  }

  lemma ExitSpendsWork(s: Sys, g: nat)
    requires Inv(s) && NoneLive(s) && Enabled(s, Exit(g))
    ensures NoneLive(Apply(s, Exit(g))) && Work(Apply(s, Exit(g))) + 1 == Work(s)
  {
    var s' := Apply(s, Exit(g));
    WorkDiffersAt(s.sups, s.reapers, s'.sups, s'.reapers, g, s.nextGen);
  }

  lemma AdvanceSpendsWork(sups: Sups, reapers: Reapers, g: nat, n: nat)
    requires g in sups && g in reapers && g < n && reapers[g] != Finished
    ensures WorkUpTo(sups, reapers[g := NextPc(reapers[g])], n) + 1 == WorkUpTo(sups, reapers, n)
  {
    WorkDiffersAt(sups, reapers, sups, reapers[g := NextPc(reapers[g])], g, n);
  }

  lemma ReapSpendsWork(s: Sys, g: nat)
    requires Generations(s.sups, s.reapers, s.nextGen) && Enabled(s, Reap(g))
    ensures Apply(s, Reap(g)).sups == s.sups && Apply(s, Reap(g)).nextGen == s.nextGen
    ensures Work(Apply(s, Reap(g))) + 1 == Work(s)
  {
    AdvanceSpendsWork(s.sups, s.reapers, g, s.nextGen);
  }

  /** With no live supervisor and the gate closed, a settling step uses up one unit of
      work and no other step adds any; both conditions persist. */
  lemma StepSpendsWork(s: Sys, step: Step)
    requires Inv(s) && NoneLive(s) && s.reg.shuttingDown && Enabled(s, step)
    ensures NoneLive(Apply(s, step))
    ensures Work(Apply(s, step)) + (if Settles(step) then 1 else 0) == Work(s)
  {
    match step
    case Exit(g) => ExitSpendsWork(s, g);
    case Reap(g) => ReapSpendsWork(s, g);
    case CloseGate(_) =>
    case Snapshot(_) =>
    case StopEnds(_, _, _) =>
    case TakeHandles =>
  }

  lemma {:induction false} RunSpendsWork(s: Sys, steps: seq<Step>)
    requires Inv(s) && NoneLive(s) && s.reg.shuttingDown && Legal(s, steps)
    ensures Inv(Exec(s, steps)) && NoneLive(Exec(s, steps))
    ensures Work(Exec(s, steps)) + CountSettling(steps) == Work(s)
    decreases |steps|
  {
    if steps == [] {
    } else {
      StepKeepsInv(s, steps[0]);
      StepOnlyShrinks(s, steps[0]);
      StepSpendsWork(s, steps[0]);
      RunSpendsWork(Apply(s, steps[0]), steps[1..]);
    }
  }

  lemma {:induction false} SomeWorkLeft(sups: Sups, reapers: Reapers, n: nat)
    requires WorkUpTo(sups, reapers, n) > 0
    ensures exists g :: 0 <= g < n && Remaining(sups, reapers, g) > 0
  {
    if Remaining(sups, reapers, n - 1) == 0 {
      SomeWorkLeft(sups, reapers, n - 1);
    }
  }

  /** While work is left a settling step can be taken: the drain is never stuck. */
  lemma DrainNeverStuck(s: Sys)
    requires Inv(s) && NoneLive(s) && Work(s) > 0
    ensures exists step :: Settles(step) && Enabled(s, step)
  {
    SomeWorkLeft(s.sups, s.reapers, s.nextGen);
    var g :| 0 <= g < s.nextGen && Remaining(s.sups, s.reapers, g) > 0;
    if s.sups[g].phase != Terminal {
      assert Enabled(s, Exit(g));
    } else {
      assert Enabled(s, Reap(g));
    }
  }

  lemma {:induction false} NoWorkMeansFinished(sups: Sups, reapers: Reapers, n: nat)
    requires WorkUpTo(sups, reapers, n) == 0
    ensures forall g :: g in reapers && g in sups && g < n ==> reapers[g] == Finished
  {
    if n == 0 {
    } else {
      NoWorkMeansFinished(sups, reapers, n - 1);
      assert Remaining(sups, reapers, n - 1) == 0;
    }
  }

  ghost predicate NothingLeft(s: Sys) {
    && s.reg.instances == map[] && s.reg.singletons == map[] && s.tracker == map[]
    && s.devices == {} && s.services == {} && s.live == {}
    && forall g :: g in s.reapers ==> s.reapers[g] == Finished
  }

  lemma NoWorkLeavesNothing(s: Sys)
    requires Inv(s) && Work(s) == 0
    ensures NothingLeft(s)
  {
    NoWorkMeansFinished(s.sups, s.reapers, s.nextGen);
    forall i
      ensures i !in s.reg.instances
    {
      if i in s.reg.instances {
        assert false;
      }
    }
    assert forall r :: r !in s.devices && r !in s.services && r !in s.live;
  }

  /** After a run of stops that all returned normally, whatever interleaving follows
      contains at most `Work(s)` settling steps, can always be continued by one until
      they are used up, and then leaves nothing registered, tracked or published. */
  lemma AllStoppedRunsOut(s: Sys, run: nat, steps: seq<Step>)
    requires Reachable(s) && RunAllStopped(s, run) && Legal(s, steps)
    ensures CountSettling(steps) <= Work(s)
    ensures CountSettling(steps) == Work(s) ==> NothingLeft(Exec(s, steps))
    ensures CountSettling(steps) < Work(s) ==> exists step :: Settles(step) && Enabled(Exec(s, steps), step)
  {
    ReachableKeepsInv(s);
    AllStoppedLeavesNoneLive(s, run);
    RunSpendsWork(s, steps);
    var s' := Exec(s, steps);
    if CountSettling(steps) == Work(s) {
      NoWorkLeavesNothing(s');
    } else {
      DrainNeverStuck(s');
    }
  }

  // ---- What a caller of the drain can rely on ----

  /** Every reaper whose join handle a drain took has finished, so every drain that was
      awaiting one has returned. */
  ghost predicate DrainsReturned(s: Sys) {
    forall g :: g in s.taken && g in s.reapers ==> s.reapers[g] == Finished
  }

  /** Nothing is registered or published, every supervisor has ended and every reaper
      has unregistered its instance. */
  ghost predicate NothingRuns(s: Sys) {
    && s.reg.instances == map[] && s.reg.singletons == map[]
    && s.devices == {} && s.services == {} && s.live == {}
    && (forall g :: g in s.sups ==> Ended(s.sups, g))
    && (forall g :: !Pending(s.reapers, g))
  }

  /** In every reachable state, with or without a stop before: an empty tracker and
      finished reapers behind every handle taken mean that nothing is left running. */
  lemma DrainedLeavesNothing(s: Sys)
    requires Reachable(s) && s.tracker == map[] && DrainsReturned(s)
    ensures NothingRuns(s)
  {
    ReachableKeepsInv(s);
    RegisteredIsPending(s);
    hide Tracked, StopsCover;
    forall g
      ensures !Pending(s.reapers, g)
    {
    }
    forall g | g in s.sups
      ensures Ended(s.sups, g)
    {
      assert !Pending(s.reapers, g);
    }
    assert s.reg.instances == map[];
    NothingPublished(s);
  }

  lemma RegisteredIsPending(s: Sys)
    requires Matched(s.reg.instances, s.sups, s.reapers)
    ensures forall i :: i in s.reg.instances ==> Pending(s.reapers, s.reg.instances[i].gen)
  {
  }

  lemma NothingPublished(s: Sys)
    requires Inv(s) && forall g :: !Pending(s.reapers, g)
    ensures s.devices == {} && s.services == {} && s.live == {}
    ensures s.reg.instances == map[] ==> s.reg.singletons == map[]
  {
    hide Matched, Tracked, TrackerComplete, StopsCover;
    forall r
      ensures r !in s.devices && r !in s.services && r !in s.live
    {
      assert !Pending(s.reapers, r.gen);
    }
  }

  /** Once the gate is closed, an emptied tracker stays empty and nothing more is taken. */
  lemma {:induction false} TrackerStaysEmpty(s: Sys, steps: seq<Step>)
    requires s.reg.shuttingDown && s.tracker == map[] && Legal(s, steps)
    ensures Exec(s, steps).tracker == map[] && Exec(s, steps).taken == s.taken
    decreases |steps|
  {
    if steps == [] {
    } else {
      StepKeepsTrackerEmpty(s, steps[0]);
      TrackerStaysEmpty(Apply(s, steps[0]), steps[1..]);
    }
  }

  lemma StepKeepsTrackerEmpty(s: Sys, step: Step)
    requires s.reg.shuttingDown && s.tracker == map[] && Enabled(s, step)
    ensures Apply(s, step).reg.shuttingDown && Apply(s, step).tracker == map[] && Apply(s, step).taken == s.taken
  {
    assert !step.Start?;
    assert step.TakeHandles? ==> s.tracker.Values == {};
  }

  lemma {:induction false} ReachableExec(s: Sys, steps: seq<Step>)
    requires Reachable(s) && Legal(s, steps)
    ensures Reachable(Exec(s, steps))
    decreases |steps|
  {
    if steps == [] {
    } else {
      ExtendReachable(s, steps[0]);
      ReachableExec(Apply(s, steps[0]), steps[1..]);
    }
  }

  /** Stop everything, then drain.  The drain takes every tracked handle and awaits it.
      While some taken handle is unfinished the reapers and supervisors can move, at most
      `Work(s)` times in all; and in whatever state the drains have returned, nothing is
      registered or published and every supervisor has ended. */
  lemma StopThenDrainLeavesNothing(s: Sys, run: nat, steps: seq<Step>)
    requires Reachable(s) && RunAllStopped(s, run) && Legal(Apply(s, TakeHandles), steps)
    ensures var end := Exec(Apply(s, TakeHandles), steps);
      && end.taken == s.taken + s.tracker.Values
      && CountSettling(steps) <= Work(s)
      && (DrainsReturned(end) ==> NothingRuns(end))
      && (!DrainsReturned(end) ==> exists step :: Settles(step) && Enabled(end, step))
      && (CountSettling(steps) == Work(s) ==> DrainsReturned(end))
  {
    var drained := Apply(s, TakeHandles);
    ReachableKeepsInv(s);
    AllStoppedLeavesNoneLive(s, run);
    ExtendReachable(s, TakeHandles);
    AllStoppedRunsOut(drained, run, steps);
    TrackerStaysEmpty(drained, steps);
    ReachableExec(drained, steps);
    var end := Exec(drained, steps);
    if DrainsReturned(end) {
      DrainedLeavesNothing(end);
    } else {
      ReachableKeepsInv(end);
      var g :| g in end.taken && g in end.reapers && end.reapers[g] != Finished;
      assert Enabled(end, if end.sups[g].phase == Terminal then Reap(g) else Exit(g));
    }
  }
}
