/**
  Cross-plugin service dispatch (crates/oxidhome-core/src/runtime/dispatcher.rs): the
  ordered checks of one call, and calls, mailboxes and supervisors as a step system.
 */
module Dispatch {
  import opened Prelude
  import opened Grants
  import opened Services

  datatype Frame = Frame(caller: InstanceId, target: InstanceId, service: ServiceId)

  type Chain = seq<Frame>

  /** The supervisors a chain has parked: every caller on it awaits a reply. */
  predicate OnChain(chain: Chain, i: InstanceId) {
    exists k :: 0 <= k < |chain| && chain[k].caller == i
  }

  /** Dispatching to `target` would queue work behind a supervisor parked on this chain. */
  predicate WouldDeadlock(chain: Chain, caller: InstanceId, target: InstanceId) {
    caller == target || OnChain(chain, target)
  }

  /** Why a call is refused.  On the wire these are `not-found`, `invalid-argument` (with
      two messages), `permission-denied` and `unavailable`. */
  datatype Refusal =
    | UnknownService | SameInstance | Cycle
    | NotGranted(requested: bool, granted: bool) | NotRunning

  datatype Request = Request(caller: InstanceId, requested: seq<ServiceGrant>, granted: seq<ServiceGrant>,
                             service: ServiceId, command: string)

  function TargetOf(q: Request, meta: Meta): Target {
    Target(q.caller, meta.plugin, meta.owner, meta.info.localId, q.command)
  }

  /** When a call goes through: the service is registered, its owner is not parked on the
      chain and is not the caller, some selector of each list matches, the owner runs. */
  ghost predicate Allowed(t: Table, running: set<InstanceId>, chain: Chain, q: Request) {
    && q.service in t.metas
    && !WouldDeadlock(chain, q.caller, t.metas[q.service].owner)
    && AnyMatches(Materialized(q.requested, q.granted), TargetOf(q, t.metas[q.service]))
    && t.metas[q.service].owner in running
  }

  /** Some selector of the list authorizes this call to this service. */
  ghost predicate Listed(grants: seq<ServiceGrant>, q: Request, meta: Meta) {
    exists g :: g in grants && Authorizes(g, q.caller, meta.plugin, meta.owner, meta.info.localId, q.command)
  }

  /** One call up to the message it hands to the callee: the checks in order, then the
      in-flight count, then the extended chain.  The first check that fails is named. */
  method CallService(services: ServiceRegistry, running: set<InstanceId>, parent: Chain, q: Request)
    returns (r: Result<Chain, Refusal>)
    requires TableInv(services.View())
    modifies services`active
    ensures TableInv(services.View())
    ensures r.Ok? <==> Allowed(old(services.View()), running, parent, q)
    ensures r == Err(UnknownService) <==> q.service !in services.metas
    ensures r == Err(SameInstance) <==>
              q.service in services.metas && services.metas[q.service].owner == q.caller
    ensures r == Err(Cycle) <==>
              && q.service in services.metas && services.metas[q.service].owner != q.caller
              && exists k :: 0 <= k < |parent| && parent[k].caller == services.metas[q.service].owner
    ensures r != Err(UnknownService) && r != Err(SameInstance) && r != Err(Cycle) ==>
              var meta := services.metas[q.service];
              var requested, granted := Listed(q.requested, q, meta), Listed(q.granted, q, meta);
              r == if !requested || !granted then Err(NotGranted(requested, granted))
                   else if meta.owner !in running then Err(NotRunning)
                   else Ok(parent + [Frame(q.caller, meta.owner, q.service)])
    ensures services.View() == if r.Ok? then Acquired(old(services.View()), q.service) else old(services.View())
    ensures forall id :: InFlight(services.View(), id) ==
                         InFlight(old(services.View()), id) + if r.Ok? && id == q.service then 1 else 0
  {
    if q.service !in services.metas {
      return Err(UnknownService);
    }
    var meta := services.metas[q.service];
    if q.caller == meta.owner {
      return Err(SameInstance);
    }
    if OnChain(parent, meta.owner) {
      return Err(Cycle);
    }
    MatchesOnFields(q.requested, TargetOf(q, meta));
    MatchesOnFields(q.granted, TargetOf(q, meta));
    var matchesRequested := AnyMatches(q.requested, TargetOf(q, meta));
    var matchesGranted := AnyMatches(q.granted, TargetOf(q, meta));
    TwoListsAreTheIntersection(q.requested, q.granted, TargetOf(q, meta));
    if !(matchesRequested && matchesGranted) {
      return Err(NotGranted(matchesRequested, matchesGranted));
    }
    if meta.owner !in running {
      return Err(NotRunning);
    }
    var acquired := services.AcquireCall(q.service);
    if !acquired {
      return Err(UnknownService);
    }
    r := Ok(parent + [Frame(q.caller, meta.owner, q.service)]);
  }

  // ---- Calls, mailboxes and supervisors as a step system ----

  type CallId = nat

  /** Where the message of a call is: still being sent, in the callee's mailbox, or
      being handled.  It holds the call guard in all three. */
  datatype Place = Sending | Queued | Running

  /** `waited`: the caller still awaits the reply.  `life`: the supervisor incarnation
      the message is addressed to. */
  datatype Call = Call(chain: Chain, place: Place, waited: bool, life: nat)

  /** A supervisor between messages, or driving wasm: for a handled call or for an entry
      point of its own (`None`), possibly parked on a call it made. */
  datatype Activity = Idle | Busy(handling: Option<CallId>, waiting: Option<CallId>)

  datatype Sup = Sup(life: nat, activity: Activity)

  datatype World = World(table: Table, sups: map<InstanceId, Sup>, calls: map<CallId, Call>, nextCall: nat,
      nextLife: nat)

  const EMPTY_WORLD := World(EMPTY_TABLE, map[], map[], 0, 0)

  datatype Step =
    | Open(i: InstanceId)
    | Exit(i: InstanceId)
    | BeginRoot(i: InstanceId)
    | EndRoot(i: InstanceId)
    | AddService(i: InstanceId, plugin: string, info: Info)
    | RemoveService(i: InstanceId, id: ServiceId)
    | SweepServices(i: InstanceId)
    | Invoke(request: Request)
    | Accept(c: CallId)
    | Deliver(c: CallId)
    | Finish(c: CallId)
    | Reject(c: CallId)
    | Lose(c: CallId)
    | Timeout(c: CallId)

  function Caller(c: Call): InstanceId
    requires c.chain != []
  {
    c.chain[|c.chain| - 1].caller
  }

  function Callee(c: Call): InstanceId
    requires c.chain != []
  {
    c.chain[|c.chain| - 1].target
  }

  function ServiceOf(c: Call): ServiceId
    requires c.chain != []
  {
    c.chain[|c.chain| - 1].service
  }

  /** The chain an instance's wasm runs under. */
  function ParentChain(w: World, i: InstanceId): Chain {
    if i in w.sups && w.sups[i].activity.Busy? && w.sups[i].activity.handling.Some?
       && w.sups[i].activity.handling.value in w.calls
    then w.calls[w.sups[i].activity.handling.value].chain else []
  }

  predicate Driving(w: World, i: InstanceId) {
    i in w.sups && w.sups[i].activity.Busy? && w.sups[i].activity.waiting.None?
  }

  predicate IsIdle(w: World, i: InstanceId) {
    i in w.sups && w.sups[i].activity.Idle?
  }

  /** The message's addressee is still the supervisor it was sent to. */
  predicate Connected(w: World, c: Call)
    requires c.chain != []
  {
    Callee(c) in w.sups && w.sups[Callee(c)].life == c.life
  }

  predicate InPlace(w: World, c: CallId, place: Place) {
    c in w.calls && w.calls[c].chain != [] && w.calls[c].place == place
  }

  /** A message being sent or queued: no handler runs for it yet. */
  predicate Undelivered(w: World, c: CallId) {
    c in w.calls && w.calls[c].chain != [] && w.calls[c].place != Running
  }

  ghost predicate Enabled(w: World, step: Step) {
    match step
    case Open(i) => i !in w.sups
    case Exit(i) => IsIdle(w, i)
    case BeginRoot(i) => IsIdle(w, i)
    case EndRoot(i) => Driving(w, i) && w.sups[i].activity.handling.None?
    case AddService(i, _, _) => Driving(w, i)
    case RemoveService(i, _) => Driving(w, i)
    // At a restart, before the plugin is loaded again, or by the reaper.
    case SweepServices(i) => i !in w.sups || IsIdle(w, i)
    case Invoke(q) => Driving(w, q.caller)
    case Accept(c) => InPlace(w, c, Sending) && Connected(w, w.calls[c])
    case Deliver(c) => InPlace(w, c, Queued) && Connected(w, w.calls[c]) && IsIdle(w, Callee(w.calls[c]))
    // The handler returned or trapped.
    case Finish(c) =>
      && InPlace(w, c, Running) && Callee(w.calls[c]) in w.sups
      && w.sups[Callee(w.calls[c])].activity == Busy(Some(c), None)
    // Answered with an error by a supervisor waiting out a restart backoff.
    case Reject(c) => InPlace(w, c, Queued) && Connected(w, w.calls[c]) && IsIdle(w, Callee(w.calls[c]))
    // The mailbox is gone, and the message with it.
    case Lose(c) => Undelivered(w, c) && !Connected(w, w.calls[c])
    case Timeout(c) => c in w.calls && w.calls[c].chain != [] && w.calls[c].waited
  }

  // ---- Effects ----

  /** The caller of `c` stops waiting for it. */
  function Resumed(sups: map<InstanceId, Sup>, c: CallId, call: Call): map<InstanceId, Sup>
    requires call.chain != []
  {
    var i := Caller(call);
    if call.waited && i in sups && sups[i].activity.Busy? && sups[i].activity.waiting == Some(c) then
      sups[i := sups[i].(activity := sups[i].activity.(waiting := None))]
    else sups
  }

  /** The message is gone: its guard is dropped and its caller, if still waiting, resumes. */
  function Gone(w: World, c: CallId): World
    requires c in w.calls && w.calls[c].chain != []
  {
    w.(table := Released(w.table, ServiceOf(w.calls[c])), calls := w.calls - {c},
       sups := Resumed(w.sups, c, w.calls[c]))
  }

  function WithActivity(w: World, i: InstanceId, activity: Activity): World
    requires i in w.sups
  {
    w.(sups := w.sups[i := w.sups[i].(activity := activity)])
  }

  ghost function Sent(w: World, q: Request): World
    requires Driving(w, q.caller) && Allowed(w.table, w.sups.Keys, ParentChain(w, q.caller), q)
  {
    var target := w.table.metas[q.service].owner;
    var call := Call(ParentChain(w, q.caller) + [Frame(q.caller, target, q.service)], Sending, true,
        w.sups[target].life);
    World(Acquired(w.table, q.service),
          w.sups[q.caller := w.sups[q.caller].(activity := w.sups[q.caller].activity.(waiting := Some(w.nextCall)))],
          w.calls[w.nextCall := call], w.nextCall + 1, w.nextLife)
  }

  ghost function Apply(w: World, step: Step): World
    requires Enabled(w, step)
  {
    match step
    case Open(i) => w.(sups := w.sups[i := Sup(w.nextLife, Idle)], nextLife := w.nextLife + 1)
    case Exit(i) => w.(sups := w.sups - {i})
    case BeginRoot(i) => WithActivity(w, i, Busy(None, None))
    case EndRoot(i) => WithActivity(w, i, Idle)
    case AddService(i, plugin, info) =>
      if Taken(w.table, i, info.localId) then w else w.(table := Registered(w.table, Meta(i, plugin, info)))
    case RemoveService(i, id) =>
      if id in w.table.metas && w.table.metas[id].owner == i && InFlight(w.table, id) == 0
      then w.(table := Dropped(w.table, id)) else w
    case SweepServices(i) => w.(table := SweptOf(w.table, i))
    case Invoke(q) => if Allowed(w.table, w.sups.Keys, ParentChain(w, q.caller), q) then Sent(w, q) else w
    case Accept(c) => w.(calls := w.calls[c := w.calls[c].(place := Queued)])
    case Deliver(c) =>
      WithActivity(w, Callee(w.calls[c]), Busy(Some(c), None)).(calls := w.calls[c := w.calls[c].(place := Running)])
    case Finish(c) => Gone(WithActivity(w, Callee(w.calls[c]), Idle), c)
    case Reject(c) => Gone(w, c)
    case Lose(c) => Gone(w, c)
    // A message not yet accepted is dropped with the wait; one already accepted stays,
    // guard included, and its reply will find nobody waiting.
    case Timeout(c) =>
      if w.calls[c].place == Sending then Gone(w, c)
      else w.(sups := Resumed(w.sups, c, w.calls[c]), calls := w.calls[c := w.calls[c].(waited := false)])
  }

  ghost predicate Legal(w: World, steps: seq<Step>)
    decreases |steps|
  {
    steps == [] || (Enabled(w, steps[0]) && Legal(Apply(w, steps[0]), steps[1..]))
  }

  ghost function Exec(w: World, steps: seq<Step>): World
    requires Legal(w, steps)
    decreases |steps|
  {
    if steps == [] then w else Exec(Apply(w, steps[0]), steps[1..])
  }

  ghost predicate Reachable(w: World) {
    exists steps :: Legal(EMPTY_WORLD, steps) && Exec(EMPTY_WORLD, steps) == w
  }

  // ---- Invariants ----

  /** Each hop starts where the one before ended, no supervisor is parked twice, and the
      target is not parked. */
  ghost predicate ChainOk(chain: Chain) {
    && chain != []
    && (forall k :: 0 < k < |chain| ==> Linked(chain, k))
    && (forall j, k :: 0 <= j < k < |chain| ==> chain[j].caller != chain[k].caller)
    && (forall k :: 0 <= k < |chain| ==> chain[k].caller != chain[|chain| - 1].target)
  }

  ghost predicate Linked(chain: Chain, k: nat)
    requires 0 < k < |chain|
  {
    chain[k - 1].target == chain[k].caller
  }

  ghost predicate ChainsOk(calls: map<CallId, Call>) {
    forall c :: c in calls ==> ChainOk(calls[c].chain)
  }

  ghost predicate CallIdsOk(calls: map<CallId, Call>, nextCall: nat) {
    forall c :: c in calls ==> c < nextCall
  }

  /** Calls being handled and supervisors handling them name each other. */
  ghost predicate HandlersMatch(calls: map<CallId, Call>, sups: map<InstanceId, Sup>) {
    && (forall c :: c in calls && calls[c].chain != [] && calls[c].place == Running ==>
          Handles(sups, Callee(calls[c]), c))
    && (forall i, c :: Handles(sups, i, c) ==>
          c in calls && calls[c].chain != [] && calls[c].place == Running && Callee(calls[c]) == i)
  }

  predicate Handles(sups: map<InstanceId, Sup>, i: InstanceId, c: CallId) {
    i in sups && sups[i].activity.Busy? && sups[i].activity.handling == Some(c)
  }

  predicate Waits(sups: map<InstanceId, Sup>, i: InstanceId, c: CallId) {
    i in sups && sups[i].activity.Busy? && sups[i].activity.waiting == Some(c)
  }

  /** A call still waited for parks exactly its caller, whose own chain it extends. */
  ghost predicate WaitersMatch(calls: map<CallId, Call>, sups: map<InstanceId, Sup>) {
    && (forall c :: c in calls && calls[c].chain != [] && calls[c].waited ==>
          Waits(sups, Caller(calls[c]), c) && ExtendsOwn(calls, sups[Caller(calls[c])].activity, calls[c].chain))
    && (forall i, c :: Waits(sups, i, c) ==>
        c in calls && calls[c].chain != [] && calls[c].waited && Caller(calls[c]) == i)
  }

  /** The chain is the chain its last caller runs under, plus one frame. */
  ghost predicate ExtendsOwn(calls: map<CallId, Call>, activity: Activity, chain: Chain)
    requires activity.Busy? && chain != []
  {
    match activity.handling
    case None => |chain| == 1
    case Some(p) => p in calls && chain[..|chain| - 1] == calls[p].chain
  }

  function GuardsOf(calls: map<CallId, Call>, id: ServiceId): set<CallId> {
    set c | c in calls && calls[c].chain != [] && ServiceOf(calls[c]) == id
  }

  /** A registered service's count is the number of its guards. */
  ghost predicate CountsMatch(t: Table, calls: map<CallId, Call>) {
    && (forall id :: id in t.metas ==> InFlight(t, id) == |GuardsOf(calls, id)|)
    && (forall c :: c in calls && calls[c].chain != [] ==> ServiceOf(calls[c]) < t.nextId)
    && (forall id :: id in t.active ==> id in t.metas && t.active[id] > 0)
    && (forall id :: id in t.metas ==> id < t.nextId)
  }

  /** A message not yet accepted disappears with its caller's wait. */
  ghost predicate SendersWait(calls: map<CallId, Call>) {
    forall c :: c in calls && calls[c].place == Sending ==> calls[c].waited
  }

  ghost predicate Inv(w: World) {
    && ChainsOk(w.calls) && CallIdsOk(w.calls, w.nextCall) && SendersWait(w.calls)
    && HandlersMatch(w.calls, w.sups) && WaitersMatch(w.calls, w.sups)
    && CountsMatch(w.table, w.calls)
  }

  // ---- Preservation: the counts ----

  lemma GuardsWithout(calls: map<CallId, Call>, c: CallId, id: ServiceId)
    requires c in calls && calls[c].chain != []
    ensures GuardsOf(calls - {c}, id) == GuardsOf(calls, id) - {c}
    ensures |GuardsOf(calls, id)| == |GuardsOf(calls - {c}, id)| + if ServiceOf(calls[c]) == id then 1 else 0
  {
    assert GuardsOf(calls - {c}, id) == GuardsOf(calls, id) - {c};
    assert c in GuardsOf(calls, id) <==> id == ServiceOf(calls[c]);
  }

  lemma GuardGone(t: Table, calls: map<CallId, Call>, c: CallId)
    requires CountsMatch(t, calls) && c in calls && calls[c].chain != []
    ensures CountsMatch(Released(t, ServiceOf(calls[c])), calls - {c})
  {
    hide GuardsOf;
    forall id | id in t.metas
      ensures InFlight(Released(t, ServiceOf(calls[c])), id) == |GuardsOf(calls - {c}, id)|
    {
      GuardsWithout(calls, c, id);
    }
  }

  lemma GuardTaken(t: Table, calls: map<CallId, Call>, c: CallId, call: Call)
    requires CountsMatch(t, calls) && c !in calls && call.chain != [] && ServiceOf(call) in t.metas
    ensures CountsMatch(Acquired(t, ServiceOf(call)), calls[c := call])
  {
    hide GuardsOf;
    forall id | id in t.metas
      ensures InFlight(Acquired(t, ServiceOf(call)), id) == |GuardsOf(calls[c := call], id)|
    {
      GuardsWithout(calls[c := call], c, id);
      assert calls[c := call] - {c} == calls;
    }
  }

  lemma GuardMoved(t: Table, calls: map<CallId, Call>, c: CallId, call: Call)
    requires CountsMatch(t, calls) && c in calls && call.chain == calls[c].chain
    ensures CountsMatch(t, calls[c := call])
  {
    forall id | id in t.metas
      ensures GuardsOf(calls[c := call], id) == GuardsOf(calls, id)
    {
    }
  }

  lemma TableStepKeepsCounts(w: World, step: Step)
    requires CountsMatch(w.table, w.calls) && Enabled(w, step)
    requires step.AddService? || step.RemoveService? || step.SweepServices?
    ensures CountsMatch(Apply(w, step).table, w.calls)
  {
    match step
    case AddService(i, plugin, info) =>
      assert GuardsOf(w.calls, w.table.nextId) == {};
    case RemoveService(_, _) =>
    case SweepServices(_) =>
  }

  // ---- Preservation: handlers and waiters ----

  /** A supervisor that waits for nothing changes what it does, handling nothing it was
      not handed. */
  lemma ActivityKeepsMatches(calls: map<CallId, Call>, sups: map<InstanceId, Sup>, sups': map<InstanceId, Sup>,
      i: InstanceId)
    requires HandlersMatch(calls, sups) && WaitersMatch(calls, sups)
    requires forall j :: j != i ==> (j in sups <==> j in sups') && (j in sups ==> sups'[j] == sups[j])
    requires i in sups ==> sups[i].activity.Idle? || sups[i].activity == Busy(None, None)
    requires i in sups' ==> sups'[i].activity.Idle? || sups'[i].activity == Busy(None, None)
    ensures HandlersMatch(calls, sups') && WaitersMatch(calls, sups')
  {
    assert forall j, c :: Handles(sups', j, c) <==> Handles(sups, j, c);
    assert forall j, c :: Waits(sups', j, c) <==> Waits(sups, j, c);
  }

  /** A call disappears together with whatever handled it or waited for it. */
  lemma RemovalKeepsMatches(calls: map<CallId, Call>, sups: map<InstanceId, Sup>, sups': map<InstanceId, Sup>,
      c: CallId)
    requires ChainsOk(calls) && HandlersMatch(calls, sups) && WaitersMatch(calls, sups) && c in calls
    requires forall j, d :: Handles(sups', j, d) <==> Handles(sups, j, d) && d != c
    requires forall j, d :: Waits(sups', j, d) <==> Waits(sups, j, d) && d != c
    requires forall j, d :: Waits(sups', j, d) ==> sups'[j].activity.handling == sups[j].activity.handling
    requires forall j, d :: Handles(sups, j, c) && Waits(sups, j, d) ==> d == c
    ensures HandlersMatch(calls - {c}, sups') && WaitersMatch(calls - {c}, sups')
  {
    forall d | d in calls - {c} && calls[d].waited
      ensures Waits(sups', Caller(calls[d]), d)
      ensures ExtendsOwn(calls - {c}, sups'[Caller(calls[d])].activity, calls[d].chain)
    {
      assert ChainOk(calls[d].chain);
      var i := Caller(calls[d]);
      assert Waits(sups, i, d) && ExtendsOwn(calls, sups[i].activity, calls[d].chain);
      assert !Handles(sups, i, c);
    }
  }

  lemma GoneKeepsInv(w: World, c: CallId)
    requires Inv(w) && c in w.calls && w.calls[c].chain != [] && w.calls[c].place != Running
    ensures Inv(Gone(w, c))
  {
    var sups' := Resumed(w.sups, c, w.calls[c]);
    assert forall j :: !Handles(w.sups, j, c);
    ResumedFacts(w.calls, w.sups, c);
    hide HandlersMatch, WaitersMatch, CountsMatch, Resumed, Released, Handles, Waits;
    GuardGone(w.table, w.calls, c);
    RemovalKeepsMatches(w.calls, w.sups, sups', c);
  }

  lemma ResumedFacts(calls: map<CallId, Call>, sups: map<InstanceId, Sup>, c: CallId)
    requires WaitersMatch(calls, sups) && c in calls && calls[c].chain != []
    ensures var sups' := Resumed(sups, c, calls[c]);
      && (forall j, d :: Handles(sups', j, d) <==> Handles(sups, j, d))
      && (forall j, d :: Waits(sups', j, d) <==> Waits(sups, j, d) && d != c)
      && (forall j, d :: Waits(sups', j, d) ==> sups'[j].activity.handling == sups[j].activity.handling)
  {
    assert forall j :: Waits(sups, j, c) ==> calls[c].waited && Caller(calls[c]) == j;
    hide WaitersMatch;
    var sups' := Resumed(sups, c, calls[c]);
    forall j, d
      ensures Waits(sups', j, d) <==> Waits(sups, j, d) && d != c
    {
      if Waits(sups, j, c) {
        assert sups'[j].activity.waiting == None;
      }
    }
  }

  /** The supervisor that finishes a call is not the caller it resumes. */
  lemma FinishResumes(w: World, c: CallId)
    requires Enabled(w, Finish(c)) && ChainsOk(w.calls)
    ensures var i := Callee(w.calls[c]);
      var resumed := Resumed(w.sups, c, w.calls[c]);
      && i in resumed && resumed[i] == w.sups[i]
      && Resumed(w.sups[i := w.sups[i].(activity := Idle)], c, w.calls[c]) == resumed[i := w.sups[i].(activity := Idle)]
  {
    assert ChainOk(w.calls[c].chain);
    assert Callee(w.calls[c]) != Caller(w.calls[c]);
  }

  lemma FinishKeepsMatches(w: World, c: CallId)
    requires ChainsOk(w.calls) && HandlersMatch(w.calls, w.sups) && WaitersMatch(w.calls, w.sups)
    requires Enabled(w, Finish(c))
    ensures var i := Callee(w.calls[c]);
      var sups' := Resumed(w.sups, c, w.calls[c])[i := w.sups[i].(activity := Idle)];
      HandlersMatch(w.calls - {c}, sups') && WaitersMatch(w.calls - {c}, sups')
  {
    var i := Callee(w.calls[c]);
    assert forall j :: Handles(w.sups, j, c) ==> j == i;
    hide HandlersMatch, WaitersMatch, ChainOk, ChainsOk, Resumed;
    FinishResumes(w, c);
    ResumedFacts(w.calls, w.sups, c);
    FinishedFacts(w.sups, Resumed(w.sups, c, w.calls[c]), i, c);
    RemovalKeepsMatches(w.calls, w.sups, Resumed(w.sups, c, w.calls[c])[i := w.sups[i].(activity := Idle)], c);
  }

  lemma FinishKeepsInv(w: World, c: CallId)
    requires Inv(w) && Enabled(w, Finish(c))
    ensures Inv(Apply(w, Finish(c)))
  {
    hide HandlersMatch, WaitersMatch, CountsMatch, ChainOk, Resumed, Released;
    FinishResumes(w, c);
    GuardGone(w.table, w.calls, c);
    FinishKeepsMatches(w, c);
  }

  lemma FinishedFacts(sups: map<InstanceId, Sup>, resumed: map<InstanceId, Sup>, i: InstanceId, c: CallId)
    requires i in sups && i in resumed && resumed[i] == sups[i] && sups[i].activity == Busy(Some(c), None)
    requires forall j :: Handles(sups, j, c) ==> j == i
    requires forall j, d :: Handles(resumed, j, d) <==> Handles(sups, j, d)
    ensures var sups' := resumed[i := sups[i].(activity := Idle)];
      && (forall j, d :: Handles(sups', j, d) <==> Handles(sups, j, d) && d != c)
      && (forall j, d :: Waits(sups', j, d) <==> Waits(resumed, j, d))
  {
    var sups' := resumed[i := sups[i].(activity := Idle)];
    forall j, d
      ensures Handles(sups', j, d) <==> Handles(sups, j, d) && d != c
    {
      assert j != i ==> (Handles(sups', j, d) <==> Handles(resumed, j, d));
    }
  }

  /** The message moves on; who handles and who waits stays. */
  lemma MovingKeepsMatches(calls: map<CallId, Call>, sups: map<InstanceId, Sup>, c: CallId, call: Call)
    requires HandlersMatch(calls, sups) && WaitersMatch(calls, sups) && c in calls
    requires call.chain == calls[c].chain && call.waited == calls[c].waited
    requires call.place != Running && calls[c].place != Running
    ensures HandlersMatch(calls[c := call], sups) && WaitersMatch(calls[c := call], sups)
  {
    assert forall j :: c in calls && Handles(sups, j, c) ==> calls[c].place == Running;
  }

  lemma AcceptKeepsInv(w: World, c: CallId)
    requires Inv(w) && Enabled(w, Accept(c))
    ensures Inv(Apply(w, Accept(c)))
  {
    hide HandlersMatch, WaitersMatch, CountsMatch;
    GuardMoved(w.table, w.calls, c, w.calls[c].(place := Queued));
    MovingKeepsMatches(w.calls, w.sups, c, w.calls[c].(place := Queued));
  }

  lemma DeliveryKeepsMatches(calls: map<CallId, Call>, sups: map<InstanceId, Sup>, c: CallId, i: InstanceId)
    requires HandlersMatch(calls, sups) && WaitersMatch(calls, sups)
    requires c in calls && calls[c].chain != [] && calls[c].place == Queued && Callee(calls[c]) == i
    requires i in sups && sups[i].activity.Idle?
    ensures var sups' := sups[i := sups[i].(activity := Busy(Some(c), None))];
      var calls' := calls[c := calls[c].(place := Running)];
      HandlersMatch(calls', sups') && WaitersMatch(calls', sups')
  {
    var sups' := sups[i := sups[i].(activity := Busy(Some(c), None))];
    var calls' := calls[c := calls[c].(place := Running)];
    assert forall j, d :: Handles(sups', j, d) <==> Handles(sups, j, d) || (j == i && d == c);
    assert forall j, d :: Waits(sups', j, d) <==> Waits(sups, j, d);
    forall d | d in calls' && calls'[d].chain != [] && calls'[d].waited
      ensures Waits(sups', Caller(calls'[d]), d)
      ensures ExtendsOwn(calls', sups'[Caller(calls'[d])].activity, calls'[d].chain)
    {
      assert Waits(sups, Caller(calls[d]), d);
    }
  }

  lemma DeliverKeepsInv(w: World, c: CallId)
    requires Inv(w) && Enabled(w, Deliver(c))
    ensures Inv(Apply(w, Deliver(c)))
  {
    hide HandlersMatch, WaitersMatch, CountsMatch;
    GuardMoved(w.table, w.calls, c, w.calls[c].(place := Running));
    DeliveryKeepsMatches(w.calls, w.sups, c, Callee(w.calls[c]));
  }

  lemma UnwaitingKeepsMatches(calls: map<CallId, Call>, sups: map<InstanceId, Sup>, c: CallId)
    requires HandlersMatch(calls, sups) && WaitersMatch(calls, sups) && c in calls && calls[c].chain != []
    ensures HandlersMatch(calls[c := calls[c].(waited := false)], Resumed(sups, c, calls[c]))
    ensures WaitersMatch(calls[c := calls[c].(waited := false)], Resumed(sups, c, calls[c]))
  {
    ResumedFacts(calls, sups, c);
    hide Resumed;
    var sups' := Resumed(sups, c, calls[c]);
    var calls' := calls[c := calls[c].(waited := false)];
    forall d | d in calls' && calls'[d].chain != [] && calls'[d].waited
      ensures Waits(sups', Caller(calls'[d]), d)
      ensures ExtendsOwn(calls', sups'[Caller(calls'[d])].activity, calls'[d].chain)
    {
      assert Waits(sups, Caller(calls[d]), d);
    }
  }

  lemma UnwaitedKeepsInv(w: World, c: CallId)
    requires Inv(w) && Enabled(w, Timeout(c)) && w.calls[c].place != Sending
    ensures Inv(Apply(w, Timeout(c)))
  {
    hide HandlersMatch, WaitersMatch, CountsMatch, Resumed;
    GuardMoved(w.table, w.calls, c, w.calls[c].(waited := false));
    UnwaitingKeepsMatches(w.calls, w.sups, c);
  }

  lemma ExtendedChainOk(chain: Chain, frame: Frame)
    requires chain == [] || (ChainOk(chain) && chain[|chain| - 1].target == frame.caller)
    ensures ChainOk(chain + [frame]) <==> !WouldDeadlock(chain, frame.caller, frame.target)
  {
    var all := chain + [frame];
    assert all[|chain|] == frame && forall k :: 0 <= k < |chain| ==> all[k] == chain[k];
    if WouldDeadlock(chain, frame.caller, frame.target) {
      var k :| 0 <= k < |all| && all[k].caller == frame.target;
    } else {
      forall k | 0 < k < |all|
        ensures Linked(all, k)
      {
        if k < |chain| {
          assert Linked(chain, k);
        }
      }
      assert forall k :: 0 <= k < |chain| ==> all[k].caller == chain[k].caller && chain[k].caller != frame.target;
    }
  }

  /** The wasm of an instance runs under a chain that ends at that instance. */
  lemma ParentChainOk(w: World, i: InstanceId)
    requires ChainsOk(w.calls) && HandlersMatch(w.calls, w.sups) && Driving(w, i)
    ensures var parent := ParentChain(w, i);
      parent == [] || (ChainOk(parent) && parent[|parent| - 1].target == i)
    ensures ExtendsOwnChain(w, i)
  {
    if w.sups[i].activity.handling.Some? {
      assert Handles(w.sups, i, w.sups[i].activity.handling.value);
    }
  }

  ghost predicate ExtendsOwnChain(w: World, i: InstanceId)
    requires Driving(w, i)
  {
    match w.sups[i].activity.handling
    case None => ParentChain(w, i) == []
    case Some(p) => p in w.calls && ParentChain(w, i) == w.calls[p].chain
  }

  lemma SentKeepsInv(w: World, q: Request)
    requires Inv(w) && Driving(w, q.caller) && Allowed(w.table, w.sups.Keys, ParentChain(w, q.caller), q)
    ensures Inv(Sent(w, q))
  {
    hide HandlersMatch, WaitersMatch, CountsMatch, AnyMatches, WouldDeadlock, ChainOk, ParentChain, ExtendsOwnChain;
    var target := w.table.metas[q.service].owner;
    var frame := Frame(q.caller, target, q.service);
    var parent := ParentChain(w, q.caller);
    var call := Call(parent + [frame], Sending, true, w.sups[target].life);
    ParentChainOk(w, q.caller);
    ExtendedChainOk(parent, frame);
    assert w.nextCall !in w.calls;
    GuardTaken(w.table, w.calls, w.nextCall, call);
    SentKeepsMatches(w, q, call);
  }

  lemma SentKeepsMatches(w: World, q: Request, call: Call)
    requires HandlersMatch(w.calls, w.sups) && WaitersMatch(w.calls, w.sups) && CallIdsOk(w.calls, w.nextCall)
    requires Driving(w, q.caller) && ExtendsOwnChain(w, q.caller)
    requires call.chain != [] && call.chain[..|call.chain| - 1] == ParentChain(w, q.caller)
    requires Caller(call) == q.caller && call.place == Sending && call.waited
    ensures var c := w.nextCall;
      var sups' := w.sups[q.caller := w.sups[q.caller].(activity := w.sups[q.caller].activity.(waiting := Some(c)))];
      HandlersMatch(w.calls[c := call], sups') && WaitersMatch(w.calls[c := call], sups')
  {
    var c := w.nextCall;
    var sups' := w.sups[q.caller := w.sups[q.caller].(activity := w.sups[q.caller].activity.(waiting := Some(c)))];
    var calls' := w.calls[c := call];
    assert forall j, d :: Handles(sups', j, d) <==> Handles(w.sups, j, d);
    assert forall j, d :: Waits(sups', j, d) <==> Waits(w.sups, j, d) || (j == q.caller && d == c);
    assert c !in w.calls;
    forall d | d in calls' && calls'[d].chain != [] && calls'[d].waited
      ensures Waits(sups', Caller(calls'[d]), d)
      ensures ExtendsOwn(calls', sups'[Caller(calls'[d])].activity, calls'[d].chain)
    {
      if d != c {
        assert Waits(w.sups, Caller(w.calls[d]), d);
      }
    }
  }

  lemma StepKeepsInv(w: World, step: Step)
    requires Inv(w) && Enabled(w, step)
    ensures Inv(Apply(w, step))
  {
    match step
    case Open(i) => ActivityKeepsMatches(w.calls, w.sups, Apply(w, step).sups, i);
    case Exit(i) => ActivityKeepsMatches(w.calls, w.sups, Apply(w, step).sups, i);
    case BeginRoot(i) => ActivityKeepsMatches(w.calls, w.sups, Apply(w, step).sups, i);
    case EndRoot(i) => ActivityKeepsMatches(w.calls, w.sups, Apply(w, step).sups, i);
    case AddService(_, _, _) => TableStepKeepsCounts(w, step);
    case RemoveService(_, _) => TableStepKeepsCounts(w, step);
    case SweepServices(_) => TableStepKeepsCounts(w, step);
    case Invoke(q) =>
      if Allowed(w.table, w.sups.Keys, ParentChain(w, q.caller), q) {
        SentKeepsInv(w, q);
      }
    case Accept(c) => AcceptKeepsInv(w, c);
    case Deliver(c) => DeliverKeepsInv(w, c);
    case Finish(c) => FinishKeepsInv(w, c);
    case Reject(c) => GoneKeepsInv(w, c);
    case Lose(c) => GoneKeepsInv(w, c);
    case Timeout(c) => if w.calls[c].place == Sending { GoneKeepsInv(w, c); } else { UnwaitedKeepsInv(w, c); }
  }

  lemma {:induction false} RunKeepsInv(w: World, steps: seq<Step>)
    requires Inv(w) && Legal(w, steps)
    ensures Inv(Exec(w, steps))
    decreases |steps|
  {
    hide Inv, Apply, Enabled;
    if steps == [] {
    } else {
      StepKeepsInv(w, steps[0]);
      RunKeepsInv(Apply(w, steps[0]), steps[1..]);
    }
  }

  lemma ReachableKeepsInv(w: World)
    requires Reachable(w)
    ensures Inv(w)
  {
    var steps :| Legal(EMPTY_WORLD, steps) && Exec(EMPTY_WORLD, steps) == w;
    RunKeepsInv(EMPTY_WORLD, steps);
  }

  // ---- Main results: chains and counts ----

  function Callers(chain: Chain): set<InstanceId> {
    set k | 0 <= k < |chain| :: chain[k].caller
  }

  lemma {:induction false} CallersCount(chain: Chain)
    requires forall j, k :: 0 <= j < k < |chain| ==> chain[j].caller != chain[k].caller
    ensures |Callers(chain)| == |chain|
  {
    if chain == [] {
    } else {
      var n := |chain| - 1;
      CallersCount(chain[..n]);
      assert Callers(chain) == Callers(chain[..n]) + {chain[n].caller};
    }
  }

  /** Every chain handed to a supervisor is linked, and its n calls touch n + 1 distinct
      instances: n parked callers and one target that is not parked on it. */
  lemma ChainTouchesDistinctInstances(w: World, c: CallId)
    requires Reachable(w) && c in w.calls
    ensures w.calls[c].chain != []
    ensures forall k :: 0 < k < |w.calls[c].chain| ==> Linked(w.calls[c].chain, k)
    ensures |Callers(w.calls[c].chain) + {Callee(w.calls[c])}| == |w.calls[c].chain| + 1
  {
    ReachableKeepsInv(w);
    assert ChainOk(w.calls[c].chain);
    CallersCount(w.calls[c].chain);
    assert Callee(w.calls[c]) !in Callers(w.calls[c].chain);
  }

  /** In every run with timeouts, closed mailboxes, restarts and refusals, a registered
      service's in-flight count is the number of guards still held: by messages being
      sent, queued messages and running handlers. */
  lemma InFlightCountsGuards(w: World, id: ServiceId)
    requires Reachable(w) && id in w.table.metas
    ensures InFlight(w.table, id) == |GuardsOf(w.calls, id)|
  {
    ReachableKeepsInv(w);
  }

  /** `remove-service` succeeds exactly when no call to the service is being sent, queued
      or handled. */
  lemma RemoveWaitsForHandlers(w: World, i: InstanceId, id: ServiceId)
    requires Reachable(w) && Enabled(w, RemoveService(i, id)) && id in w.table.metas && w.table.metas[id].owner == i
    ensures id !in Apply(w, RemoveService(i, id)).table.metas <==>
            forall c :: c in w.calls && w.calls[c].chain != [] ==> ServiceOf(w.calls[c]) != id
  {
    ReachableKeepsInv(w);
    InFlightCountsGuards(w, id);
    var guards := GuardsOf(w.calls, id);
    if guards == {} {
      assert forall c :: c in w.calls && w.calls[c].chain != [] && ServiceOf(w.calls[c]) == id ==> c in guards;
    } else {
      var c :| c in guards;
      assert |guards| > 0;
    }
  }

  // ---- Messages of an earlier life ----

  /** Every life, of a supervisor or named in a message, has been handed out. */
  ghost predicate LivesOk(w: World) {
    && (forall i :: i in w.sups ==> w.sups[i].life < w.nextLife)
    && (forall c :: c in w.calls ==> w.calls[c].life < w.nextLife)
  }

  lemma StepKeepsLives(w: World, step: Step)
    requires LivesOk(w) && Enabled(w, step)
    ensures LivesOk(Apply(w, step))
  {
    hide AnyMatches, Materialized, WouldDeadlock, ParentChain, Resumed;
    match step {
      case Finish(c) => ResumedKeepsLives(WithActivity(w, Callee(w.calls[c]), Idle).sups, c, w.calls[c]);
      case Reject(c) => ResumedKeepsLives(w.sups, c, w.calls[c]);
      case Lose(c) => ResumedKeepsLives(w.sups, c, w.calls[c]);
      case Timeout(c) => ResumedKeepsLives(w.sups, c, w.calls[c]);
      case _ =>
    }
  }

  lemma ResumedKeepsLives(sups: map<InstanceId, Sup>, c: CallId, call: Call)
    requires call.chain != []
    ensures forall i :: i in Resumed(sups, c, call) ==> i in sups && Resumed(sups, c, call)[i].life == sups[i].life
  {
  }

  lemma {:induction false} RunKeepsLives(w: World, steps: seq<Step>)
    requires LivesOk(w) && Legal(w, steps)
    ensures LivesOk(Exec(w, steps))
    decreases |steps|
  {
    hide LivesOk, Apply, Enabled;
    if steps == [] {
    } else {
      StepKeepsLives(w, steps[0]);
      RunKeepsLives(Apply(w, steps[0]), steps[1..]);
    }
  }

  /** A message still underway when its supervisor exits never reaches a successor under
      the same id: it can only be lost. */
  lemma ExitLosesMessages(w: World, i: InstanceId, c: CallId)
    requires Reachable(w) && Enabled(w, Exit(i)) && Undelivered(w, c) && Callee(w.calls[c]) == i
    ensures var w1 := Apply(w, Exit(i));
      && i !in w1.sups && w1.calls == w.calls && Enabled(w1, Lose(c)) && Enabled(w1, Open(i))
      && var w2 := Apply(w1, Open(i));
         IsIdle(w2, i) && w2.calls == w.calls && Enabled(w2, Lose(c))
         && !Enabled(w2, Accept(c)) && !Enabled(w2, Deliver(c)) && !Enabled(w2, Reject(c))
  {
    ReachableKeepsLives(w);
    hide Reachable;
    NextLifeDiffers(w, i, c);
  }

  lemma ReachableKeepsLives(w: World)
    requires Reachable(w)
    ensures LivesOk(w)
  {
    var steps :| Legal(EMPTY_WORLD, steps) && Exec(EMPTY_WORLD, steps) == w;
    RunKeepsLives(EMPTY_WORLD, steps);
  }

  lemma NextLifeDiffers(w: World, i: InstanceId, c: CallId)
    requires LivesOk(w) && Undelivered(w, c) && Callee(w.calls[c]) == i && i in w.sups
    ensures !Connected(w.(sups := w.sups - {i}), w.calls[c])
    ensures !Connected(w.(sups := (w.sups - {i})[i := Sup(w.nextLife, Idle)], nextLife := w.nextLife + 1), w.calls[c])
  {
  }

  // ---- Main results: one root never deadlocks ----

  predicate AllIdle(sups: map<InstanceId, Sup>) {
    forall i :: i in sups ==> sups[i].activity.Idle?
  }

  /** A run with one root at a time and no timed-out call. */
  ghost predicate SoloLegal(w: World, steps: seq<Step>)
    decreases |steps|
  {
    steps == [] ||
    (Enabled(w, steps[0]) && !steps[0].Timeout? && (steps[0].BeginRoot? ==> AllIdle(w.sups))
     && SoloLegal(Apply(w, steps[0]), steps[1..]))
  }

  ghost function SoloExec(w: World, steps: seq<Step>): World
    requires SoloLegal(w, steps)
    decreases |steps|
  {
    if steps == [] then w else SoloExec(Apply(w, steps[0]), steps[1..])
  }

  ghost predicate SoloReachable(w: World) {
    exists steps :: SoloLegal(EMPTY_WORLD, steps) && SoloExec(EMPTY_WORLD, steps) == w
  }

  predicate IsRoot(sups: map<InstanceId, Sup>, i: InstanceId) {
    i in sups && sups[i].activity.Busy? && sups[i].activity.handling.None?
  }

  ghost predicate Solo(w: World) {
    && (forall c :: c in w.calls ==> w.calls[c].waited)
    && (forall i, j :: IsRoot(w.sups, i) && IsRoot(w.sups, j) ==> i == j)
  }

  /** A step that leaves calls waited for and creates no second root. */
  lemma SoloStep(w: World, step: Step)
    requires Inv(w) && Solo(w) && Enabled(w, step) && !step.Timeout? && (step.BeginRoot? ==> AllIdle(w.sups))
    ensures Solo(Apply(w, step))
  {
    hide HandlersMatch, WaitersMatch, CountsMatch, ChainsOk, Allowed, ParentChain;
    var w' := Apply(w, step);
    if !step.BeginRoot? {
      forall i | IsRoot(w'.sups, i)
        ensures IsRoot(w.sups, i)
      {
      }
    }
  }

  lemma {:induction false} SoloRun(w: World, steps: seq<Step>)
    requires Inv(w) && Solo(w) && SoloLegal(w, steps)
    ensures Inv(SoloExec(w, steps)) && Solo(SoloExec(w, steps))
    decreases |steps|
  {
    hide Inv, Solo, Apply, Enabled;
    if steps == [] {
    } else {
      StepKeepsInv(w, steps[0]);
      SoloStep(w, steps[0]);
      SoloRun(Apply(w, steps[0]), steps[1..]);
    }
  }

  lemma WaiterOf(w: World, c: CallId)
    requires Inv(w) && c in w.calls && w.calls[c].waited
    ensures w.calls[c].chain != [] && Waits(w.sups, Caller(w.calls[c]), c)
    ensures ExtendsOwn(w.calls, w.sups[Caller(w.calls[c])].activity, w.calls[c].chain)
  {
    hide HandlersMatch, CountsMatch;
    assert ChainOk(w.calls[c].chain);
  }

  /** The caller of a waited call is a root if the chain starts there... */
  lemma RootOf(w: World, c: CallId)
    requires Inv(w) && c in w.calls && w.calls[c].waited && |w.calls[c].chain| == 1
    ensures Waits(w.sups, Caller(w.calls[c]), c) && IsRoot(w.sups, Caller(w.calls[c]))
  {
    WaiterOf(w, c);
    ExtendsMeansLonger(w, w.sups[Caller(w.calls[c])].activity, w.calls[c].chain);
  }

  lemma ExtendsMeansLonger(w: World, activity: Activity, chain: Chain)
    requires ChainsOk(w.calls) && activity.Busy? && chain != [] && ExtendsOwn(w.calls, activity, chain)
    ensures activity.handling.Some? ==> |chain| > 1
  {
    if activity.handling.Some? {
      assert ChainOk(w.calls[activity.handling.value].chain);
    }
  }

  /** ...and otherwise it handles the call one shorter. */
  lemma ParentOf(w: World, c: CallId) returns (p: CallId)
    requires Inv(w) && c in w.calls && w.calls[c].waited && |w.calls[c].chain| > 1
    ensures p in w.calls && w.calls[p].chain == w.calls[c].chain[..|w.calls[c].chain| - 1]
    ensures Handles(w.sups, Caller(w.calls[c]), p)
  {
    WaiterOf(w, c);
    hide HandlersMatch, WaitersMatch, CountsMatch, ChainsOk;
    p := w.sups[Caller(w.calls[c])].activity.handling.value;
  }

  /** With one root, calls of the same depth are the same call. */
  lemma {:induction false} OneCallPerDepth(w: World, c: CallId, d: CallId)
    requires Inv(w) && Solo(w) && c in w.calls && d in w.calls
    requires |w.calls[c].chain| == |w.calls[d].chain|
    ensures c == d
    decreases |w.calls[c].chain|
  {
    assert w.calls[c].waited && w.calls[d].waited;
    WaiterOf(w, c);
    WaiterOf(w, d);
    if |w.calls[c].chain| == 1 {
      RootOf(w, c);
      RootOf(w, d);
    } else {
      var p := ParentOf(w, c);
      var q := ParentOf(w, d);
      SameCaller(w, c, d);
      hide Inv, Solo;
      OneCallPerDepth(w, p, q);
    }
  }

  /** Calls whose chains agree up to their last frame are made by the same instance. */
  lemma SameCaller(w: World, c: CallId, d: CallId)
    requires ChainsOk(w.calls) && c in w.calls && d in w.calls
    requires |w.calls[c].chain| == |w.calls[d].chain| > 1
    ensures w.calls[c].chain[..|w.calls[c].chain| - 1] == w.calls[d].chain[..|w.calls[d].chain| - 1] ==>
              Caller(w.calls[c]) == Caller(w.calls[d])
  {
    var n := |w.calls[c].chain| - 1;
    assert ChainOk(w.calls[c].chain) && ChainOk(w.calls[d].chain);
    assert Linked(w.calls[c].chain, n) && Linked(w.calls[d].chain, n);
    assert w.calls[c].chain[..n][n - 1] == w.calls[c].chain[n - 1];
    assert w.calls[d].chain[..n][n - 1] == w.calls[d].chain[n - 1];
  }

  /** Every prefix of a chain is the chain of a call still in progress. */
  lemma {:induction false} AncestorAt(w: World, c: CallId, k: nat) returns (p: CallId)
    requires Inv(w) && Solo(w) && c in w.calls && 1 <= k <= |w.calls[c].chain|
    ensures p in w.calls && w.calls[p].chain == w.calls[c].chain[..k]
    decreases |w.calls[c].chain|
  {
    assert w.calls[c].waited;
    if k == |w.calls[c].chain| {
      assert w.calls[c].chain[..k] == w.calls[c].chain;
      p := c;
    } else {
      var q := ParentOf(w, c);
      hide Inv, Solo;
      p := AncestorAt(w, q, k);
      assert w.calls[q].chain[..k] == w.calls[c].chain[..k];
    }
  }

  /** So all calls in progress are prefixes of the deepest one. */
  lemma PrefixOfDeepest(w: World, c: CallId, d: CallId)
    requires Inv(w) && Solo(w) && c in w.calls && d in w.calls && |w.calls[d].chain| <= |w.calls[c].chain|
    ensures w.calls[d].chain <= w.calls[c].chain
  {
    assert ChainOk(w.calls[d].chain);
    hide HandlersMatch, WaitersMatch, CountsMatch;
    var p := AncestorAt(w, c, |w.calls[d].chain|);
    OneCallPerDepth(w, p, d);
  }

  ghost predicate Deepest(calls: map<CallId, Call>, c: CallId) {
    c in calls && forall d :: d in calls ==> |calls[d].chain| <= |calls[c].chain|
  }

  lemma {:induction false} SomeDeepest(calls: map<CallId, Call>) returns (c: CallId)
    requires calls != map[]
    ensures Deepest(calls, c)
    decreases |calls|
  {
    var d :| d in calls;
    var rest := calls - {d};
    if rest == map[] {
      assert forall e :: e in calls && e != d ==> e in rest;
      c := d;
    } else {
      assert rest.Keys == calls.Keys - {d};
      var e := SomeDeepest(rest);
      assert forall x :: x in calls && x != d ==> x in rest && rest[x] == calls[x];
      c := if |calls[d].chain| > |calls[e].chain| then d else e;
    }
  }

  predicate Parked(sups: map<InstanceId, Sup>, i: InstanceId) {
    i in sups && sups[i].activity.Busy? && sups[i].activity.waiting.Some?
  }

  lemma ParkedIsOnPath(w: World, c: CallId, i: InstanceId)
    requires Inv(w) && Solo(w) && Deepest(w.calls, c) && Parked(w.sups, i)
    ensures OnChain(w.calls[c].chain, i)
  {
    var d := w.sups[i].activity.waiting.value;
    assert Waits(w.sups, i, d);
    assert d in w.calls && w.calls[d].chain != [] && Caller(w.calls[d]) == i;
    hide Inv, Solo;
    PrefixOfDeepest(w, c, d);
    assert w.calls[c].chain[|w.calls[d].chain| - 1].caller == i;
  }

  lemma WaitedIsParked(w: World, p: CallId)
    requires Inv(w) && Solo(w) && p in w.calls && w.calls[p].chain != []
    ensures Parked(w.sups, Caller(w.calls[p]))
  {
    assert w.calls[p].waited;
    hide Solo;
    WaiterOf(w, p);
  }

  lemma OnPathIsParked(w: World, c: CallId, k: nat)
    requires Inv(w) && Solo(w) && c in w.calls && k < |w.calls[c].chain|
    ensures Parked(w.sups, w.calls[c].chain[k].caller)
  {
    hide Inv, Solo;
    var p := AncestorAt(w, c, k + 1);
    WaitedIsParked(w, p);
  }

  /** With one root and no timed-out call, the parked supervisors are exactly the
      (pairwise distinct) callers along one chain, the deepest call's. */
  lemma ParkedFormAPath(w: World, c: CallId)
    requires SoloReachable(w) && Deepest(w.calls, c)
    ensures ChainOk(w.calls[c].chain)
    ensures forall i :: Parked(w.sups, i) <==> OnChain(w.calls[c].chain, i)
  {
    SoloReachableFacts(w);
    hide Solo, SoloReachable, HandlersMatch, WaitersMatch, CountsMatch, ChainOk, Parked;
    forall i | Parked(w.sups, i)
      ensures OnChain(w.calls[c].chain, i)
    {
      ParkedIsOnPath(w, c, i);
    }
    forall k | 0 <= k < |w.calls[c].chain|
      ensures Parked(w.sups, w.calls[c].chain[k].caller)
    {
      OnPathIsParked(w, c, k);
    }
  }

  lemma SoloReachableFacts(w: World)
    requires SoloReachable(w)
    ensures Inv(w) && Solo(w)
  {
    var steps :| SoloLegal(EMPTY_WORLD, steps) && SoloExec(EMPTY_WORLD, steps) == w;
    assert Inv(EMPTY_WORLD) && Solo(EMPTY_WORLD);
    hide Inv, Solo;
    SoloRun(EMPTY_WORLD, steps);
  }

  /** A step that moves the work in progress: a root ends, a message reaches an idle
      supervisor or is delivered, a handler finishes, a message to a dead supervisor is
      lost. A place in a busy supervisor's mailbox moves nothing: that mailbox is bounded,
      and its owner reads it only when idle. */
  predicate Moves(w: World, step: Step) {
    match step
    case Accept(c) => InPlace(w, c, Sending) && IsIdle(w, Callee(w.calls[c]))
    case EndRoot(_) => true
    case Deliver(_) => true
    case Finish(_) => true
    case Lose(_) => true
    case _ => false
  }

  /** The handler of the deepest call is not parked. */
  lemma RunningTipIsFree(w: World, c: CallId)
    requires Inv(w) && Solo(w) && Deepest(w.calls, c) && w.calls[c].chain != [] && w.calls[c].place == Running
    ensures Callee(w.calls[c]) in w.sups && w.sups[Callee(w.calls[c])].activity == Busy(Some(c), None)
  {
    var t := Callee(w.calls[c]);
    assert Handles(w.sups, t, c);
    var activity := w.sups[t].activity;
    if activity.waiting.Some? {
      assert Waits(w.sups, t, activity.waiting.value);
    }
  }

  /** No other call is addressed to the deepest call's target. */
  lemma TipTargetIsUnique(w: World, c: CallId, p: CallId)
    requires Inv(w) && Solo(w) && Deepest(w.calls, c) && p in w.calls && p != c
    requires w.calls[c].chain != [] && w.calls[p].chain != []
    ensures Callee(w.calls[p]) != Callee(w.calls[c])
  {
    hide HandlersMatch, WaitersMatch, CountsMatch;
    assert ChainOk(w.calls[c].chain);
    PrefixOfDeepest(w, c, p);
    HandledTargetIsCaller(w.calls[c].chain, w.calls[p].chain);
    if |w.calls[c].chain| == |w.calls[p].chain| {
      OneCallPerDepth(w, c, p);
    }
  }

  lemma TipTargetIsNotRoot(w: World, c: CallId)
    requires Inv(w) && Solo(w) && c in w.calls && w.calls[c].chain != []
    ensures !IsRoot(w.sups, Callee(w.calls[c]))
  {
    assert ChainOk(w.calls[c].chain);
    hide HandlersMatch, WaitersMatch, CountsMatch;
    var first := AncestorAt(w, c, 1);
    RootOf(w, first);
  }

  /** The addressee of the deepest call, if it is not yet handled, does nothing else:
      neither is it the root nor does it handle another call. */
  lemma QueuedTipIsFree(w: World, c: CallId)
    requires Inv(w) && Solo(w) && Deepest(w.calls, c) && w.calls[c].chain != [] && w.calls[c].place != Running
    requires Callee(w.calls[c]) in w.sups
    ensures IsIdle(w, Callee(w.calls[c]))
  {
    var t := Callee(w.calls[c]);
    TipTargetIsNotRoot(w, c);
    if w.sups[t].activity.Busy? {
      var p := w.sups[t].activity.handling.value;
      assert Handles(w.sups, t, p);
      assert p in w.calls && w.calls[p].place == Running && w.calls[p].chain != [] && Callee(w.calls[p]) == t;
      hide Inv, Solo, Deepest;
      TipTargetIsUnique(w, c, p);
    }
  }

  /** The target of a proper prefix of a chain is parked on the chain. */
  lemma HandledTargetIsCaller(chain: Chain, prefix: Chain)
    requires ChainOk(chain) && prefix != [] && prefix <= chain
    ensures |prefix| < |chain| ==> OnChain(chain, prefix[|prefix| - 1].target)
  {
    if |prefix| < |chain| {
      assert Linked(chain, |prefix|);
    }
  }

  // ---- Main results: exactly when nothing can move ----

  /** Work is in progress and no step can move it. */
  ghost predicate Stuck(w: World) {
    !AllIdle(w.sups) && forall step :: Moves(w, step) ==> !Enabled(w, step)
  }

  predicate IsBusy(w: World, i: InstanceId) {
    i in w.sups && w.sups[i].activity.Busy?
  }

  /** The supervisor awaits the reply to a message, accepted or not, whose addressee is
      busy. */
  predicate WaitsOnBusy(w: World, i: InstanceId) {
    && IsBusy(w, i) && w.sups[i].activity.waiting.Some?
    && var c := w.sups[i].activity.waiting.value;
       c in w.calls && w.calls[c].chain != [] && IsBusy(w, Callee(w.calls[c]))
  }

  /** Every busy supervisor waits on a busy one, and every message not yet delivered,
      awaited or left over from a timeout, is addressed to a living, busy supervisor. */
  ghost predicate AllWaitOnBusy(w: World) {
    && (exists i :: IsBusy(w, i))
    && (forall i {:trigger WaitsOnBusy(w, i)} :: IsBusy(w, i) ==> WaitsOnBusy(w, i))
    && (forall c :: Undelivered(w, c) ==> ForBusy(w, w.calls[c]))
  }

  predicate ForBusy(w: World, c: Call)
    requires c.chain != []
  {
    Connected(w, c) && IsBusy(w, Callee(c))
  }

  lemma StuckMeansParked(w: World, i: InstanceId)
    requires Inv(w) && Stuck(w) && IsBusy(w, i)
    ensures w.sups[i].activity.waiting.Some?
  {
    assert !Enabled(w, EndRoot(i));
    if w.sups[i].activity.waiting.None? {
      var c := w.sups[i].activity.handling.value;
      assert Handles(w.sups, i, c);
      assert Enabled(w, Finish(c));
    }
  }

  /** A message for a dead supervisor would be lost, one for an idle supervisor accepted
      or delivered. */
  lemma StuckMessageIsForBusy(w: World, c: CallId)
    requires Stuck(w) && Undelivered(w, c)
    ensures ForBusy(w, w.calls[c])
  {
    assert !Enabled(w, Lose(c)) && !Enabled(w, Deliver(c));
    if w.calls[c].place == Sending {
      assert Enabled(w, Accept(c));
      assert !Moves(w, Accept(c));
    }
  }

  lemma StuckMeansWaiting(w: World, i: InstanceId)
    requires Inv(w) && Stuck(w) && IsBusy(w, i)
    ensures WaitsOnBusy(w, i)
  {
    StuckMeansParked(w, i);
    var c := w.sups[i].activity.waiting.value;
    assert Waits(w.sups, i, c);
    hide WaitersMatch, CountsMatch;
    if w.calls[c].place == Running {
      assert Handles(w.sups, Callee(w.calls[c]), c);
    } else {
      StuckMessageIsForBusy(w, c);
    }
  }

  /** Exactly then, for any number of roots and timeouts and any mailbox capacity: nothing
      moves when every busy supervisor waits on a call to a busy one and no message is
      underway to anybody else. */
  lemma StuckExactlyWhenAllWait(w: World)
    requires Reachable(w)
    ensures Stuck(w) <==> AllWaitOnBusy(w)
  {
    ReachableKeepsInv(w);
    if Stuck(w) {
      StuckMeansAllWait(w);
    }
    if AllWaitOnBusy(w) {
      AllWaitMeansStuck(w);
    }
  }

  lemma StuckMeansAllWait(w: World)
    requires Inv(w) && Stuck(w)
    ensures AllWaitOnBusy(w)
  {
    hide Inv;
    var i :| i in w.sups && !w.sups[i].activity.Idle?;
    assert IsBusy(w, i);
    hide Stuck, ForBusy;
    forall c | Undelivered(w, c)
      ensures ForBusy(w, w.calls[c])
    {
      StuckMessageIsForBusy(w, c);
    }
    forall j | IsBusy(w, j)
      ensures WaitsOnBusy(w, j)
    {
      StuckMeansWaiting(w, j);
    }
  }

  lemma AllWaitMeansStuck(w: World)
    requires AllWaitOnBusy(w)
    ensures Stuck(w)
  {
    forall step | Moves(w, step)
      ensures !Enabled(w, step)
    {
      WaitersDoNotMove(w, step);
    }
  }

  lemma WaitersDoNotMove(w: World, step: Step)
    requires AllWaitOnBusy(w) && Moves(w, step)
    ensures !Enabled(w, step)
  {
    match step
    case EndRoot(i) => assert IsBusy(w, i) ==> WaitsOnBusy(w, i);
    case Accept(c) => assert Undelivered(w, c);
    case Deliver(c) => assert InPlace(w, c, Queued) ==> Undelivered(w, c);
    case Finish(c) =>
      if InPlace(w, c, Running) {
        assert IsBusy(w, Callee(w.calls[c])) ==> WaitsOnBusy(w, Callee(w.calls[c]));
      }
    case Lose(c) => assert Undelivered(w, c) ==> ForBusy(w, w.calls[c]);
  }

  // ---- What a stuck state looks like: a cycle of waits ----

  /** Whom a waiting supervisor waits for. */
  function Awaited(w: World, i: InstanceId): InstanceId {
    if WaitsOnBusy(w, i) then Callee(w.calls[w.sups[i].activity.waiting.value]) else i
  }

  function AwaitedBy(w: World, i: InstanceId, n: nat): InstanceId
    decreases n
  {
    if n == 0 then i else Awaited(w, AwaitedBy(w, i, n - 1))
  }

  /** Following the waits from `i` leads back to `i`, through supervisors that all wait. */
  ghost predicate OnWaitCycle(w: World, i: InstanceId, n: nat) {
    && n > 0 && AwaitedBy(w, i, n) == i
    && forall k {:trigger AwaitedBy(w, i, k)} :: 0 <= k <= n ==> WaitsOnBusy(w, AwaitedBy(w, i, k))
  }

  lemma {:induction false} AwaitedStaysBusy(w: World, i: InstanceId, n: nat)
    requires AllWaitOnBusy(w) && IsBusy(w, i)
    ensures WaitsOnBusy(w, AwaitedBy(w, i, n))
    decreases n
  {
    if n == 0 {
      assert WaitsOnBusy(w, i);
    } else {
      AwaitedStaysBusy(w, i, n - 1);
      var j := AwaitedBy(w, i, n - 1);
      assert WaitsOnBusy(w, j) && IsBusy(w, Awaited(w, j));
      hide Awaited, IsBusy;
      assert WaitsOnBusy(w, Awaited(w, j));
    }
  }

  lemma {:induction false} AwaitedComposes(w: World, i: InstanceId, m: nat, n: nat)
    ensures AwaitedBy(w, AwaitedBy(w, i, m), n) == AwaitedBy(w, i, m + n)
    decreases n
  {
    if n == 0 {
    } else {
      AwaitedComposes(w, i, m, n - 1);
    }
  }

  /** More names than members of a set: some name comes twice. */
  lemma {:induction false} SomeTwice(names: seq<InstanceId>, s: set<InstanceId>) returns (j: nat, k: nat)
    requires |names| > |s| && forall i :: i in names ==> i in s
    ensures j < k < |names| && names[j] == names[k]
    decreases |names|
  {
    var n := |names| - 1;
    if names[n] in names[..n] {
      j :| 0 <= j < n && names[..n][j] == names[n];
      k := n;
    } else {
      assert names[n] in names;
      j, k := SomeTwice(names[..n], s - {names[n]});
    }
  }

  /** A stuck state has a cycle of supervisors, each waiting for the next. */
  lemma StuckHasWaitCycle(w: World)
    requires Reachable(w) && Stuck(w)
    ensures exists i, n: nat :: OnWaitCycle(w, i, n)
  {
    StuckExactlyWhenAllWait(w);
    hide Reachable, Stuck;
    var start :| IsBusy(w, start);
    hide AllWaitOnBusy, AwaitedBy;
    var names := seq(|w.sups| + 1, (n: nat) => AwaitedBy(w, start, n));
    forall n | 0 <= n < |names|
      ensures names[n] in w.sups.Keys
    {
      AwaitedStaysBusy(w, start, n);
    }
    var j, k := SomeTwice(names, w.sups.Keys);
    CycleFrom(w, start, j, k);
  }

  lemma CycleFrom(w: World, start: InstanceId, j: nat, k: nat)
    requires AllWaitOnBusy(w) && IsBusy(w, start)
    requires j < k && AwaitedBy(w, start, j) == AwaitedBy(w, start, k)
    ensures OnWaitCycle(w, AwaitedBy(w, start, j), k - j)
  {
    hide AllWaitOnBusy, AwaitedBy;
    var i := AwaitedBy(w, start, j);
    AwaitedComposes(w, start, j, k - j);
    AwaitedStaysBusy(w, start, j);
    assert IsBusy(w, i);
    hide WaitsOnBusy;
    forall n | 0 <= n <= k - j
      ensures WaitsOnBusy(w, AwaitedBy(w, i, n))
    {
      AwaitedStaysBusy(w, i, n);
    }
  }

  // ---- One root is never stuck ----

  lemma {:induction false} SoloIsLegal(w: World, steps: seq<Step>)
    requires SoloLegal(w, steps)
    ensures Legal(w, steps) && Exec(w, steps) == SoloExec(w, steps)
    decreases |steps|
  {
    hide Apply, Enabled;
    if steps == [] {
    } else {
      SoloIsLegal(Apply(w, steps[0]), steps[1..]);
    }
  }

  lemma SoloReachableIsReachable(w: World)
    requires SoloReachable(w)
    ensures Reachable(w)
  {
    var steps :| SoloLegal(EMPTY_WORLD, steps) && SoloExec(EMPTY_WORLD, steps) == w;
    SoloIsLegal(EMPTY_WORLD, steps);
  }

  /** The target of the deepest call would have to be parked on its own chain. */
  lemma SoloIsNotAllWaiting(w: World)
    requires Inv(w) && Solo(w)
    ensures !AllWaitOnBusy(w)
  {
    if AllWaitOnBusy(w) {
      var i :| IsBusy(w, i);
      assert WaitsOnBusy(w, i);
      var c := SomeDeepest(w.calls);
      hide Inv, Solo, Deepest;
      DeepestTargetIsNotParked(w, c);
      AllWaitParksTargets(w, c);
    }
  }

  lemma AllWaitParksTargets(w: World, c: CallId)
    requires Inv(w) && AllWaitOnBusy(w) && c in w.calls && w.calls[c].chain != []
    ensures Parked(w.sups, Callee(w.calls[c]))
  {
    AllWaitTargetIsBusy(w, c);
    hide Inv;
    assert WaitsOnBusy(w, Callee(w.calls[c]));
  }

  lemma DeepestTargetIsNotParked(w: World, c: CallId)
    requires Inv(w) && Solo(w) && Deepest(w.calls, c)
    ensures c in w.calls && w.calls[c].chain != [] && !Parked(w.sups, Callee(w.calls[c]))
  {
    assert ChainOk(w.calls[c].chain);
    if Parked(w.sups, Callee(w.calls[c])) {
      ParkedIsOnPath(w, c, Callee(w.calls[c]));
    }
  }

  lemma AllWaitTargetIsBusy(w: World, c: CallId)
    requires Inv(w) && AllWaitOnBusy(w) && c in w.calls && w.calls[c].chain != []
    ensures IsBusy(w, Callee(w.calls[c]))
  {
    if w.calls[c].place == Running {
      assert Handles(w.sups, Callee(w.calls[c]), c);
    } else {
      assert Undelivered(w, c);
    }
  }

  /** One root, no timeout: unless every supervisor is idle, some step moves the work
      forward, so the run never deadlocks. */
  lemma OneRootNeverDeadlocks(w: World)
    requires SoloReachable(w) && !AllIdle(w.sups)
    ensures exists step :: Moves(w, step) && Enabled(w, step)
  {
    SoloReachableFacts(w);
    SoloReachableIsReachable(w);
    StuckExactlyWhenAllWait(w);
    hide Inv, Solo, AllWaitOnBusy, Reachable;
    SoloIsNotAllWaiting(w);
  }

  // ---- Moving work runs out ----

  function BusySet(sups: map<InstanceId, Sup>): set<InstanceId> {
    set i | i in sups && sups[i].activity.Busy?
  }

  function UndeliveredSet(calls: map<CallId, Call>): set<CallId> {
    set c | c in calls && calls[c].place != Running
  }

  function SendingSet(calls: map<CallId, Call>): set<CallId> {
    set c | c in calls && calls[c].place == Sending
  }

  /** What is left to do: a busy supervisor and a running call count one each, a queued
      message two more than a running call, one still being sent two more again. */
  function Work(w: World): nat {
    |BusySet(w.sups)| + |w.calls| + 2 * |UndeliveredSet(w.calls)| + 2 * |SendingSet(w.calls)|
  }

  lemma ResumedStaysBusy(sups: map<InstanceId, Sup>, c: CallId, call: Call)
    requires call.chain != []
    ensures BusySet(Resumed(sups, c, call)) == BusySet(sups)
  {
  }

  lemma WithoutCall(calls: map<CallId, Call>, c: CallId)
    requires c in calls
    ensures |calls - {c}| == |calls| - 1
    ensures |UndeliveredSet(calls - {c})| <= |UndeliveredSet(calls)| && |SendingSet(calls - {c})| <= |SendingSet(calls)|
    ensures calls[c].place == Running ==> UndeliveredSet(calls - {c}) == UndeliveredSet(calls)
  {
    assert (calls - {c}).Keys == calls.Keys - {c};
    assert UndeliveredSet(calls - {c}) == UndeliveredSet(calls) - {c};
    assert SendingSet(calls - {c}) == SendingSet(calls) - {c};
  }

  lemma AdvancedCall(calls: map<CallId, Call>, c: CallId, place: Place)
    requires c in calls && calls[c].place != place && place != Sending
    ensures var calls' := calls[c := calls[c].(place := place)];
      && |calls'| == |calls|
      && SendingSet(calls') == SendingSet(calls) - {c}
      && UndeliveredSet(calls') == if place == Running then UndeliveredSet(calls) - {c} else UndeliveredSet(calls) + {c}
  {
    var calls' := calls[c := calls[c].(place := place)];
    assert calls'.Keys == calls.Keys;
  }

  lemma NewActivity(sups: map<InstanceId, Sup>, i: InstanceId, activity: Activity)
    requires i in sups
    ensures BusySet(sups[i := sups[i].(activity := activity)]) ==
            if activity.Busy? then BusySet(sups) + {i} else BusySet(sups) - {i}
  {
  }

  /** Every step that moves work uses some of it up. */
  lemma MovesSpendWork(w: World, step: Step)
    requires Enabled(w, step) && Moves(w, step)
    ensures Work(Apply(w, step)) < Work(w)
  {
    hide BusySet, UndeliveredSet, SendingSet, Resumed;
    match step
    case EndRoot(i) =>
      NewActivity(w.sups, i, Idle);
      BusyIsBusy(w.sups, i);
    case Accept(c) =>
      AdvancedCall(w.calls, c, Queued);
      SentIsSent(w.calls, c);
    case Deliver(c) => DeliverSpendsWork(w, c);
    case Finish(c) => FinishSpendsWork(w, c);
    case Lose(c) =>
      ResumedStaysBusy(w.sups, c, w.calls[c]);
      WithoutCall(w.calls, c);
  }

  lemma DeliverSpendsWork(w: World, c: CallId)
    requires Enabled(w, Deliver(c))
    ensures Work(Apply(w, Deliver(c))) < Work(w)
  {
    hide BusySet, UndeliveredSet, SendingSet;
    NewActivity(w.sups, Callee(w.calls[c]), Busy(Some(c), None));
    AdvancedCall(w.calls, c, Running);
    SentIsSent(w.calls, c);
  }

  lemma FinishSpendsWork(w: World, c: CallId)
    requires Enabled(w, Finish(c))
    ensures Work(Apply(w, Finish(c))) < Work(w)
  {
    hide BusySet, UndeliveredSet, SendingSet, Resumed;
    NewActivity(w.sups, Callee(w.calls[c]), Idle);
    BusyIsBusy(w.sups, Callee(w.calls[c]));
    var idle := WithActivity(w, Callee(w.calls[c]), Idle);
    ResumedStaysBusy(idle.sups, c, w.calls[c]);
    WithoutCall(w.calls, c);
  }

  lemma BusyIsBusy(sups: map<InstanceId, Sup>, i: InstanceId)
    ensures i in BusySet(sups) <==> i in sups && sups[i].activity.Busy?
  {
  }

  lemma SentIsSent(calls: map<CallId, Call>, c: CallId)
    ensures c in UndeliveredSet(calls) <==> c in calls && calls[c].place != Running
    ensures c in SendingSet(calls) <==> c in calls && calls[c].place == Sending
  {
  }

  /** Every step of the run moves work. */
  ghost predicate AllMove(w: World, steps: seq<Step>)
    requires Legal(w, steps)
    decreases |steps|
  {
    steps == [] || (Moves(w, steps[0]) && AllMove(Apply(w, steps[0]), steps[1..]))
  }

  /** So a run in which every step moves work is no longer than the work there was. */
  lemma {:induction false} MovingRunsEnd(w: World, steps: seq<Step>)
    requires Legal(w, steps) && AllMove(w, steps)
    ensures |steps| + Work(Exec(w, steps)) <= Work(w)
    decreases |steps|
  {
    hide Work, Apply, Enabled, Moves;
    if steps == [] {
    } else {
      MovesSpendWork(w, steps[0]);
      MovingRunsEnd(Apply(w, steps[0]), steps[1..]);
    }
  }

  lemma SoloExtends(w: World, step: Step)
    requires SoloReachable(w) && Enabled(w, step) && !step.Timeout? && !step.BeginRoot?
    ensures SoloReachable(Apply(w, step))
  {
    hide Apply, Enabled;
    var steps :| SoloLegal(EMPTY_WORLD, steps) && SoloExec(EMPTY_WORLD, steps) == w;
    SoloSnoc(EMPTY_WORLD, steps, step);
  }

  lemma {:induction false} SoloSnoc(w: World, steps: seq<Step>, step: Step)
    requires SoloLegal(w, steps) && Enabled(SoloExec(w, steps), step) && !step.Timeout? && !step.BeginRoot?
    ensures SoloLegal(w, steps + [step]) && SoloExec(w, steps + [step]) == Apply(SoloExec(w, steps), step)
    decreases |steps|
  {
    hide Apply, Enabled;
    var all := steps + [step];
    if steps == [] {
      assert all[1..] == [];
    } else {
      assert all[1..] == steps[1..] + [step];
      SoloSnoc(Apply(w, steps[0]), steps[1..], step);
    }
  }

  /** With one root and no timeout, the work in progress can always be brought to its
      end by moving it: every supervisor becomes idle. */
  lemma {:induction false} OneRootRunsOut(w: World) returns (steps: seq<Step>)
    requires SoloReachable(w)
    ensures Legal(w, steps) && AllMove(w, steps) && AllIdle(Exec(w, steps).sups)
    decreases Work(w)
  {
    if AllIdle(w.sups) {
      steps := [];
    } else {
      OneRootNeverDeadlocks(w);
      hide SoloReachable, Work, Apply, Enabled, AllIdle;
      var step :| Moves(w, step) && Enabled(w, step);
      MovesSpendWork(w, step);
      SoloExtends(w, step);
      var rest := OneRootRunsOut(Apply(w, step));
      steps := [step] + rest;
      assert steps[1..] == rest;
    }
  }

  // ---- Independent roots can wait on each other ----

  const OPEN_GRANT := ServiceGrant("p", ANY, "s", [ANY], ANY)
  const SERVICE := Info("s", "s", [])

  /** Two plugins, each running an entry point of its own and offering a service. */
  ghost function Pair(waitingA: Option<CallId>, waitingB: Option<CallId>, active: map<ServiceId, nat>,
                      calls: map<CallId, Call>, nextCall: nat): World {
    World(Table(map[0 := Meta("a", "p", SERVICE), 1 := Meta("b", "p", SERVICE)], active, 2),
          map["a" := Sup(0, Busy(None, waitingA)), "b" := Sup(1, Busy(None, waitingB))], calls, nextCall, 2)
  }

  const TO_B := Call([Frame("a", "b", 1)], Queued, true, 1)
  const TO_A := Call([Frame("b", "a", 0)], Queued, true, 0)

  lemma Extend(w: World, step: Step)
    requires Reachable(w) && Enabled(w, step)
    ensures Reachable(Apply(w, step))
  {
    var steps :| Legal(EMPTY_WORLD, steps) && Exec(EMPTY_WORLD, steps) == w;
    ExecSnoc(EMPTY_WORLD, steps, step);
  }

  lemma {:induction false} ExecSnoc(w: World, steps: seq<Step>, step: Step)
    requires Legal(w, steps) && Enabled(Exec(w, steps), step)
    ensures Legal(w, steps + [step]) && Exec(w, steps + [step]) == Apply(Exec(w, steps), step)
    decreases |steps|
  {
    hide Apply, Enabled;
    var all := steps + [step];
    if steps == [] {
      assert all[1..] == [];
    } else {
      assert all[1..] == steps[1..] + [step];
      ExecSnoc(Apply(w, steps[0]), steps[1..], step);
    }
  }

  const TWO_ROOTS := World(
    EMPTY_TABLE, map["a" := Sup(0, Busy(None, None)), "b" := Sup(1, Busy(None, None))], map[], 0, 2)

  lemma TwoRootsAreReachable()
    ensures Reachable(TWO_ROOTS)
  {
    assert Legal(EMPTY_WORLD, []) && Exec(EMPTY_WORLD, []) == EMPTY_WORLD;
    Extend(EMPTY_WORLD, Open("a"));
    var w1 := Apply(EMPTY_WORLD, Open("a"));
    Extend(w1, Open("b"));
    var w2 := Apply(w1, Open("b"));
    Extend(w2, BeginRoot("a"));
    var w3 := Apply(w2, BeginRoot("a"));
    Extend(w3, BeginRoot("b"));
    assert Apply(w3, BeginRoot("b")) == TWO_ROOTS;
  }

  lemma PairIsReachable()
    ensures Reachable(Pair(None, None, map[], map[], 0))
  {
    TwoRootsAreReachable();
    Extend(TWO_ROOTS, AddService("a", "p", SERVICE));
    var w1 := Apply(TWO_ROOTS, AddService("a", "p", SERVICE));
    assert w1.table.metas == map[0 := Meta("a", "p", SERVICE)] && !Taken(w1.table, "b", "s");
    Extend(w1, AddService("b", "p", SERVICE));
    assert Apply(w1, AddService("b", "p", SERVICE)) == Pair(None, None, map[], map[], 0);
  }

  lemma OpenGrantAllows(call: Target)
    requires call.plugin == "p" && call.localId == "s"
    ensures AnyMatches(Materialized([OPEN_GRANT], [OPEN_GRANT]), call)
  {
    assert ANY in OPEN_GRANT.commands;
    assert OPEN_GRANT in [OPEN_GRANT] && OPEN_GRANT.Matches(call);
    TwoListsAreTheIntersection([OPEN_GRANT], [OPEN_GRANT], call);
  }

  lemma FirstCallIsReachable()
    ensures Reachable(Pair(Some(0), None, map[1 := 1], map[0 := TO_B], 1))
  {
    PairIsReachable();
    var w := Pair(None, None, map[], map[], 0);
    var q := Request("a", [OPEN_GRANT], [OPEN_GRANT], 1, "c");
    OpenGrantAllows(TargetOf(q, w.table.metas[1]));
    assert ParentChain(w, "a") == [];
    assert Allowed(w.table, w.sups.Keys, ParentChain(w, "a"), q);
    assert ParentChain(w, "a") + [Frame("a", "b", 1)] == [Frame("a", "b", 1)];
    Extend(w, Invoke(q));
    var w1 := Apply(w, Invoke(q));
    assert w1.calls == map[0 := TO_B.(place := Sending)];
    assert w1 == Pair(Some(0), None, map[1 := 1], map[0 := TO_B.(place := Sending)], 1);
    Extend(w1, Accept(0));
    assert Apply(w1, Accept(0)) == Pair(Some(0), None, map[1 := 1], map[0 := TO_B], 1);
  }

  lemma CrossWaitIsReachable()
    ensures Reachable(Pair(Some(0), Some(1), map[1 := 1, 0 := 1], map[0 := TO_B, 1 := TO_A], 2))
  {
    FirstCallIsReachable();
    var w := Pair(Some(0), None, map[1 := 1], map[0 := TO_B], 1);
    var q := Request("b", [OPEN_GRANT], [OPEN_GRANT], 0, "c");
    OpenGrantAllows(TargetOf(q, w.table.metas[0]));
    assert ParentChain(w, "b") == [];
    assert Allowed(w.table, w.sups.Keys, ParentChain(w, "b"), q);
    assert ParentChain(w, "b") + [Frame("b", "a", 0)] == [Frame("b", "a", 0)];
    Extend(w, Invoke(q));
    var w1 := Apply(w, Invoke(q));
    assert w1 == Pair(Some(0), Some(1), map[1 := 1, 0 := 1], map[0 := TO_B, 1 := TO_A.(place := Sending)], 2);
    Extend(w1, Accept(1));
    assert Apply(w1, Accept(1)) == Pair(Some(0), Some(1), map[1 := 1, 0 := 1], map[0 := TO_B, 1 := TO_A], 2);
  }

  /** The cycle check is per chain: two independent roots can call each other's instance
      and then wait until a timeout, since nothing else can move. */
  lemma IndependentRootsCanCrossWait()
    ensures exists w :: Reachable(w) && Stuck(w)
  {
    CrossWaitIsReachable();
    var w := Pair(Some(0), Some(1), map[1 := 1, 0 := 1], map[0 := TO_B, 1 := TO_A], 2);
    assert w.sups["a"].activity == Busy(None, Some(0));
  }
}
