/**
  Service grants (crates/oxidhome-manifest/src/manifest.rs) and the in-memory service
  registry with its in-flight call counts (crates/oxidhome-core/src/state/services.rs).
 */
module Grants {
  import opened Prelude

  /** Wildcard of instance selectors, caller selectors and command lists. */
  const ANY: string := "*"

  datatype ServiceGrant = ServiceGrant(
    plugin: string, instance: string, service: string, commands: seq<string>, callerInstance: string)
  {
    predicate Matches(call: Target) {
      && plugin == call.plugin
      && service == call.localId
      && SelectorMatches(instance, call.instance)
      && SelectorMatches(callerInstance, call.caller)
      && exists c :: c in commands && (c == ANY || c == call.command)
    }
  }

  /** The tuple a call is authorized on. */
  datatype Target = Target(caller: string, plugin: string, instance: string, localId: string, command: string)

  predicate SelectorMatches(selector: string, value: string) {
    selector == ANY || selector == value
  }

  predicate AnyMatches(grants: seq<ServiceGrant>, call: Target) {
    exists g :: g in grants && g.Matches(call)
  }

  /** What a selector authorizes, field by field: calls of its caller instance to its
      service of its plugin's instance with one of its commands, `*` standing for any. */
  ghost predicate Authorizes(g: ServiceGrant, caller: string, plugin: string, instance: string, localId: string,
      command: string) {
    && g.plugin == plugin && g.service == localId
    && (g.instance == "*" || g.instance == instance)
    && (g.callerInstance == "*" || g.callerInstance == caller)
    && ("*" in g.commands || command in g.commands)
  }

  lemma MatchesOnFields(grants: seq<ServiceGrant>, call: Target)
    ensures forall g: ServiceGrant ::
              g.Matches(call) <==>
              Authorizes(g, call.caller, call.plugin, call.instance, call.localId, call.command)
    ensures AnyMatches(grants, call) <==>
              exists g :: g in grants
                          && Authorizes(g, call.caller, call.plugin, call.instance, call.localId, call.command)
  {
  }

  // ---- The intersection the two-list check stands for ----

  function MeetSelector(a: string, b: string): Option<string> {
    if a == ANY then Some(b) else if b == ANY || a == b then Some(a) else None
  }

  function Common(a: seq<string>, b: seq<string>): seq<string> {
    if a == [] then [] else (if a[0] in b then [a[0]] else []) + Common(a[1..], b)
  }

  function MeetCommands(a: seq<string>, b: seq<string>): seq<string> {
    if ANY in a then b else if ANY in b then a else Common(a, b)
  }

  /** One requested selector narrowed by one granted selector, if they overlap. */
  function Meet(a: ServiceGrant, b: ServiceGrant): Option<ServiceGrant> {
    var instance := MeetSelector(a.instance, b.instance);
    var caller := MeetSelector(a.callerInstance, b.callerInstance);
    if a.plugin == b.plugin && a.service == b.service && instance.Some? && caller.Some? then
      Some(ServiceGrant(a.plugin, instance.value, a.service, MeetCommands(a.commands, b.commands), caller.value))
    else None
  }

  function MeetEach(a: ServiceGrant, granted: seq<ServiceGrant>): seq<ServiceGrant> {
    if granted == [] then []
    else MeetOne(a, granted[0]) + MeetEach(a, granted[1..])
  }

  /** The cross product of narrowed selectors. */
  function Materialized(requested: seq<ServiceGrant>, granted: seq<ServiceGrant>): seq<ServiceGrant> {
    if requested == [] then [] else MeetEach(requested[0], granted) + Materialized(requested[1..], granted)
  }

  lemma {:induction false} CommonMembers(a: seq<string>, b: seq<string>)
    ensures forall c :: c in Common(a, b) <==> c in a && c in b
  {
    if a == [] {
    } else {
      CommonMembers(a[1..], b);
      assert a == [a[0]] + a[1..];
    }
  }

  /** A narrowed selector matches exactly what both of its sources match. */
  lemma MeetMatches(a: ServiceGrant, b: ServiceGrant, call: Target)
    ensures a.Matches(call) && b.Matches(call) <==> Meet(a, b).Some? && Meet(a, b).value.Matches(call)
  {
    CommonMembers(a.commands, b.commands);
    if Meet(a, b).Some? {
      CommandsMeet(a.commands, b.commands, call.command);
    }
  }

  predicate CommandListed(commands: seq<string>, command: string) {
    exists c :: c in commands && (c == ANY || c == command)
  }

  lemma CommandsMeet(a: seq<string>, b: seq<string>, command: string)
    ensures CommandListed(MeetCommands(a, b), command) <==> CommandListed(a, command) && CommandListed(b, command)
  {
    CommonMembers(a, b);
  }

  function MeetOne(a: ServiceGrant, b: ServiceGrant): seq<ServiceGrant> {
    if Meet(a, b).Some? then [Meet(a, b).value] else []
  }

  lemma MeetOneMatches(a: ServiceGrant, b: ServiceGrant, call: Target)
    ensures AnyMatches(MeetOne(a, b), call) <==> a.Matches(call) && b.Matches(call)
  {
    MeetMatches(a, b, call);
    hide ServiceGrant.Matches;
    if Meet(a, b).Some? {
      assert Meet(a, b).value in MeetOne(a, b);
    }
  }

  lemma {:induction false} MeetEachMatches(a: ServiceGrant, granted: seq<ServiceGrant>, call: Target)
    ensures AnyMatches(MeetEach(a, granted), call) <==> a.Matches(call) && AnyMatches(granted, call)
  {
    if granted == [] {
    } else {
      hide ServiceGrant.Matches, MeetOne, AnyMatches;
      MeetOneMatches(a, granted[0], call);
      MeetEachMatches(a, granted[1..], call);
      AnyConcat(MeetOne(a, granted[0]), MeetEach(a, granted[1..]), call);
      AnyConcat([granted[0]], granted[1..], call);
      assert granted == [granted[0]] + granted[1..];
    }
  }

  lemma AnyConcat(a: seq<ServiceGrant>, b: seq<ServiceGrant>, call: Target)
    ensures AnyMatches(a + b, call) <==> AnyMatches(a, call) || AnyMatches(b, call)
    ensures forall g :: AnyMatches([g], call) <==> g.Matches(call)
  {
    hide ServiceGrant.Matches;
    forall g
      ensures AnyMatches([g], call) <==> g.Matches(call)
    {
      assert g in [g];
    }
  }

  /** The two-list check authorizes exactly the calls the materialized pairwise
      intersection would, for every tuple and all wildcards. */
  lemma {:induction false} TwoListsAreTheIntersection(requested: seq<ServiceGrant>, granted: seq<ServiceGrant>,
      call: Target)
    ensures AnyMatches(requested, call) && AnyMatches(granted, call) <==>
              AnyMatches(Materialized(requested, granted), call)
  {
    if requested == [] {
    } else {
      MeetEachMatches(requested[0], granted, call);
      TwoListsAreTheIntersection(requested[1..], granted, call);
      AnyConcat(MeetEach(requested[0], granted), Materialized(requested[1..], granted), call);
      AnyConcat([requested[0]], requested[1..], call);
      assert requested == [requested[0]] + requested[1..];
    }
  }
}

/** The registry of services and of the calls in flight to them. */
module Services {
  import opened Prelude

  type InstanceId = string

  /** `svc-<n>`, minted from a counter. */
  type ServiceId = nat

  datatype Info = Info(localId: string, name: string, commands: seq<string>)

  datatype Meta = Meta(owner: InstanceId, plugin: string, info: Info)

  datatype WitError = NotFound | InvalidArgument | PermissionDenied | Unavailable

  /** The registered services, the in-flight call counts, and the id counter. */
  datatype Table = Table(metas: map<ServiceId, Meta>, active: map<ServiceId, nat>, nextId: nat)

  const EMPTY_TABLE := Table(map[], map[], 0)

  function InFlight(t: Table, id: ServiceId): nat {
    if id in t.active then t.active[id] else 0
  }

  predicate Taken(t: Table, owner: InstanceId, localId: string) {
    exists id :: id in t.metas && t.metas[id].owner == owner && t.metas[id].info.localId == localId
  }

  function Registered(t: Table, meta: Meta): Table {
    t.(metas := t.metas[t.nextId := meta], nextId := t.nextId + 1)
  }

  function Dropped(t: Table, id: ServiceId): Table {
    t.(metas := t.metas - {id}, active := t.active - {id})
  }

  function Acquired(t: Table, id: ServiceId): Table {
    t.(active := t.active[id := InFlight(t, id) + 1])
  }

  /** A guard is dropped: count down, forget a zero, tolerate an unknown id. */
  function Released(t: Table, id: ServiceId): Table {
    if id !in t.active then t
    else if t.active[id] <= 1 then t.(active := t.active - {id})
    else t.(active := t.active[id := t.active[id] - 1])
  }

  function OwnedBy(t: Table, owner: InstanceId): set<ServiceId> {
    set id | id in t.metas && t.metas[id].owner == owner
  }

  function SweptOf(t: Table, owner: InstanceId): Table {
    t.(metas := t.metas - OwnedBy(t, owner), active := t.active - OwnedBy(t, owner))
  }

  predicate SameAddress(a: Meta, b: Meta) {
    a.owner == b.owner && a.info.localId == b.info.localId
  }

  /** Ids are minted once, counts are kept for registered services only, and a logical
      address `(owner, local id)` names at most one service. */
  ghost predicate TableInv(t: Table) {
    && (forall id :: id in t.metas ==> id < t.nextId)
    && (forall id :: id in t.active ==> id in t.metas)
    && (forall i, j :: i in t.metas && j in t.metas && SameAddress(t.metas[i], t.metas[j]) ==> i == j)
  }

  class ServiceRegistry {
    var metas: map<ServiceId, Meta>
    var active: map<ServiceId, nat>
    var nextId: nat

    function View(): Table
      reads this
    {
      Table(metas, active, nextId)
    }

    constructor ()
      ensures View() == EMPTY_TABLE && TableInv(View())
    {
      metas, active, nextId := map[], map[], 0;
    }

    /** Register a service unless its owner already has one under the same local id. */
    method Register(owner: InstanceId, plugin: string, info: Info) returns (r: Result<ServiceId, WitError>)
      requires TableInv(View())
      modifies this
      ensures TableInv(View())
      ensures Taken(old(View()), owner, info.localId) ==> r == Err(InvalidArgument) && View() == old(View())
      ensures !Taken(old(View()), owner, info.localId) ==>
                && r == Ok(old(nextId)) && old(nextId) !in old(metas)
                && View() == Registered(old(View()), Meta(owner, plugin, info))
                && metas == old(metas)[old(nextId) := Meta(owner, plugin, info)] && nextId > old(nextId)
    {
      if Taken(View(), owner, info.localId) {
        return Err(InvalidArgument);
      }
      metas := metas[nextId := Meta(owner, plugin, info)];
      r := Ok(nextId);
      nextId := nextId + 1;
    }

    /** Replace a service's info; its local id is immutable. */
    method Update(owner: InstanceId, id: ServiceId, info: Info) returns (r: Result<(), WitError>)
      requires TableInv(View())
      modifies `metas
      ensures TableInv(View())
      ensures r.Ok? <==>
                id in old(metas) && old(metas)[id].owner == owner && old(metas)[id].info.localId == info.localId
      ensures r.Ok? ==> metas == old(metas)[id := old(metas)[id].(info := info)]
      ensures r.Err? ==> metas == old(metas)
      ensures r == Err(NotFound) <==> id !in old(metas) || old(metas)[id].owner != owner
    {
      if id !in metas || metas[id].owner != owner {
        return Err(NotFound);
      }
      if metas[id].info.localId != info.localId {
        return Err(InvalidArgument);
      }
      metas := metas[id := metas[id].(info := info)];
      r := Ok(());
    }

    /** Remove a service, unless a call to it is in flight. */
    method Remove(owner: InstanceId, id: ServiceId) returns (r: Result<(), WitError>)
      requires TableInv(View())
      modifies `metas, `active
      ensures TableInv(View())
      ensures r == Err(NotFound) <==> id !in old(metas) || old(metas)[id].owner != owner
      ensures r == Err(Unavailable) <==>
                id in old(metas) && old(metas)[id].owner == owner && InFlight(old(View()), id) > 0
      ensures r.Ok? || r == Err(NotFound) || r == Err(Unavailable)
      ensures View() == if r.Ok? then Dropped(old(View()), id) else old(View())
      ensures r.Ok? ==> metas == old(metas) - {id} && id !in active
      ensures forall j :: InFlight(View(), j) == InFlight(old(View()), j)
    {
      if id !in metas || metas[id].owner != owner {
        return Err(NotFound);
      }
      var inFlight := if id in active then active[id] else 0;
      if inFlight > 0 {
        return Err(Unavailable);
      }
      metas := metas - {id};
      active := active - {id};
      r := Ok(());
    }

    /** Count one more call in flight, if the service is registered. */
    method AcquireCall(id: ServiceId) returns (ok: bool)
      requires TableInv(View())
      modifies `active
      ensures TableInv(View())
      ensures ok <==> id in metas
      ensures View() == if ok then Acquired(old(View()), id) else old(View())
      ensures ok ==> active == old(active)[id := InFlight(old(View()), id) + 1]
    {
      if id !in metas {
        return false;
      }
      active := active[id := (if id in active then active[id] else 0) + 1];
      ok := true;
    }

    /** A call guard is dropped. */
    method ReleaseCall(id: ServiceId)
      requires TableInv(View())
      modifies `active
      ensures TableInv(View())
      ensures View() == Released(old(View()), id)
      ensures forall j :: InFlight(View(), j) ==
                          InFlight(old(View()), j) - (if j == id && InFlight(old(View()), j) > 0 then 1 else 0)
      ensures forall j :: j in active ==> j in old(active) && (j == id ==> active[j] > 0)
    {
      if id in active {
        var n := if active[id] > 0 then active[id] - 1 else 0;
        active := active[id := n];
        if n == 0 {
          active := active - {id};
        }
      }
    }

    /** Drop every service of an instance, with its counts. */
    method RemoveByOwner(owner: InstanceId) returns (removed: nat)
      requires TableInv(View())
      modifies `metas, `active
      ensures TableInv(View())
      ensures View() == SweptOf(old(View()), owner) && removed == |OwnedBy(old(View()), owner)|
      ensures forall id :: id in metas <==> id in old(metas) && old(metas)[id].owner != owner
      ensures forall id :: id in metas ==>
                             metas[id] == old(metas)[id] && InFlight(View(), id) == InFlight(old(View()), id)
    {
      var ids := OwnedBy(View(), owner);
      metas := metas - ids;
      active := active - ids;
      removed := |ids|;
    }
  }
}
