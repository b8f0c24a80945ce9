/**
  The per-engine registry of supervised plugin instances, and the tracker of the
  reaper tasks that watch them (crates/oxidhome-core/src/runtime/registry.rs and
  the start path of crates/oxidhome-core/src/runtime.rs).

  `Reg` is the value behind the registry's mutex; `InstanceRegistry` is the object
  whose methods are the critical sections.  Each method is tied to a function on
  `Reg`, and the same functions drive the protocol in module `Supervision`.
 */
module Registry {
  import opened Prelude

  type InstanceId = string
  type PluginId = string

  /** Host-side handle to one supervised instance; `gen` is the generation of the
      reaper spawned together with it. */
  datatype Handle = Handle(instanceId: InstanceId, pluginId: PluginId, gen: nat)

  datatype RegistryError =
    | DuplicateInstanceId(instanceId: InstanceId)
    | SingletonInUse(pluginId: PluginId, existing: InstanceId)
    | ShuttingDown

  datatype Reg = Reg(
    instances: map<InstanceId, Handle>,
    singletons: map<PluginId, InstanceId>,
    shuttingDown: bool)

  const EMPTY_REG := Reg(map[], map[], false)

  ghost predicate HasInstanceOf(r: Reg, p: PluginId) {
    exists i :: i in r.instances && r.instances[i].pluginId == p
  }

  /** A start may register under `id`. */
  ghost predicate Admits(r: Reg, id: InstanceId, p: PluginId, singleton: bool) {
    && !r.shuttingDown
    && id !in r.instances
    && (if singleton then !HasInstanceOf(r, p) else p !in r.singletons)
  }

  /** `e` is a truthful reason for refusing the start, reported in the order the
      checks are made: the gate, then the id, then the singleton slot. */
  ghost predicate Explains(r: Reg, id: InstanceId, p: PluginId, singleton: bool, e: RegistryError) {
    match e
    case ShuttingDown => r.shuttingDown
    case DuplicateInstanceId(i) => !r.shuttingDown && i == id && id in r.instances
    case SingletonInUse(q, existing) =>
      && !r.shuttingDown && id !in r.instances && q == p
      && existing in r.instances && r.instances[existing].pluginId == p
      && (!singleton ==> p in r.singletons && r.singletons[p] == existing)
  }

  function Inserted(r: Reg, h: Handle, singleton: bool): Reg {
    r.(instances := r.instances[h.instanceId := h],
       singletons := if singleton then r.singletons[h.pluginId := h.instanceId] else r.singletons)
  }

  function Removed(r: Reg, id: InstanceId, p: PluginId): Reg {
    r.(instances := r.instances - {id},
       singletons := if p in r.singletons && r.singletons[p] == id then r.singletons - {p}
                     else r.singletons)
  }

  /** Handles are filed under their own id, and a plugin that holds a singleton
      slot has exactly one registered instance: the one the slot names. */
  ghost predicate Consistent(r: Reg) {
    && (forall i :: i in r.instances ==> r.instances[i].instanceId == i)
    && (forall p :: p in r.singletons ==>
          && r.singletons[p] in r.instances
          && r.instances[r.singletons[p]].pluginId == p
          && forall i :: i in r.instances && r.instances[i].pluginId == p ==> i == r.singletons[p])
  }

  /** An admitted insert keeps singleton slots exclusive and disturbs no other entry. */
  lemma InsertKeepsConsistent(r: Reg, h: Handle, singleton: bool)
    requires Consistent(r) && Admits(r, h.instanceId, h.pluginId, singleton)
    ensures Consistent(Inserted(r, h, singleton))
    ensures Inserted(r, h, singleton).instances == r.instances[h.instanceId := h]
    ensures forall i :: i in r.instances ==>
                          && i in Inserted(r, h, singleton).instances
                          && Inserted(r, h, singleton).instances[i] == r.instances[i]
    ensures singleton ==> Inserted(r, h, singleton).singletons[h.pluginId] == h.instanceId
  {
    var r' := Inserted(r, h, singleton);
    forall p | p in r'.singletons
      ensures r'.singletons[p] in r'.instances
      ensures r'.instances[r'.singletons[p]].pluginId == p
      ensures forall i :: i in r'.instances && r'.instances[i].pluginId == p ==> i == r'.singletons[p]
    {
      if singleton && p == h.pluginId {
        assert !HasInstanceOf(r, p);
      }
    }
  }

  /** Removing `id` frees a slot exactly when `id` was the instance holding it. */
  lemma RemoveFreesOnlyOwnSlot(r: Reg, id: InstanceId)
    requires Consistent(r) && id in r.instances
    ensures Consistent(Removed(r, id, r.instances[id].pluginId))
    ensures Removed(r, id, r.instances[id].pluginId).instances == r.instances - {id}
    ensures forall q :: q in r.singletons && r.singletons[q] != id ==>
                          && q in Removed(r, id, r.instances[id].pluginId).singletons
                          && Removed(r, id, r.instances[id].pluginId).singletons[q] == r.singletons[q]
    ensures forall q :: q in Removed(r, id, r.instances[id].pluginId).singletons ==>
                          Removed(r, id, r.instances[id].pluginId).singletons[q] != id
  {
    var r' := Removed(r, id, r.instances[id].pluginId);
    forall q | q in r'.singletons
      ensures r'.singletons[q] in r'.instances
      ensures r'.singletons[q] != id
    {
      assert q in r.singletons && r'.singletons[q] == r.singletons[q];
    }
  }

  /** The tracker of reaper join handles, keyed by instance id and tagged with the
      generation minted when the reaper was spawned. */
  class ReaperTracker {
    var entries: map<InstanceId, nat>
    var nextGen: nat

    constructor ()
      ensures entries == map[] && nextGen == 0
    {
      entries, nextGen := map[], 0;
    }

    /** The factory run by `register` under the registry lock: spawn the supervisor,
        mint a generation, spawn the reaper and file its join handle. */
    method Spawn(instanceId: InstanceId, pluginId: PluginId) returns (h: Handle)
      modifies this
      ensures h == Handle(instanceId, pluginId, old(nextGen))
      ensures nextGen == old(nextGen) + 1
      ensures entries == old(entries)[instanceId := h.gen]
    {
      h := Handle(instanceId, pluginId, nextGen);
      nextGen := nextGen + 1;
      entries := entries[instanceId := h.gen];
    }

    /** A reaper's last act: drop the entry only if it still carries its own generation. */
    method Forget(instanceId: InstanceId, gen: nat)
      modifies `entries
      ensures entries == Forgotten(old(entries), instanceId, gen)
    {
      if instanceId in entries && entries[instanceId] == gen {
        entries := entries - {instanceId};
      }
    }

    /** Drain the map, handing the tracked reapers to the caller. */
    method TakeAll() returns (taken: set<nat>)
      modifies `entries
      ensures entries == map[]
      ensures taken == old(entries).Values
    {
      taken := {};
      while entries != map[]
        invariant taken + entries.Values == old(entries).Values
        decreases |entries|
      {
        var i :| i in entries;
        ghost var before := entries;
        taken := taken + {entries[i]};
        entries := entries - {i};
        TakeOne(before, i);
      }
    }
  }

  function Forgotten(entries: map<InstanceId, nat>, id: InstanceId, gen: nat): map<InstanceId, nat> {
    if id in entries && entries[id] == gen then entries - {id} else entries
  }

  lemma TakeOne<T>(m: map<InstanceId, T>, i: InstanceId)
    requires i in m
    ensures m.Values == {m[i]} + (m - {i}).Values
    ensures |m - {i}| == |m| - 1
  {
    var rest := m - {i};
    forall g | g in m.Values
      ensures g in {m[i]} + rest.Values
    {
      var k :| k in m && m[k] == g;
      if k != i {
        assert k in rest && rest[k] == g;
      }
    }
    forall g | g in rest.Values
      ensures g in m.Values
    {
      var k :| k in rest && rest[k] == g;
      assert k in m && m[k] == g;
    }
    assert rest.Keys == m.Keys - {i};
  }

  class InstanceRegistry {
    var instances: map<InstanceId, Handle>
    var singletons: map<PluginId, InstanceId>
    var shuttingDown: bool

    function View(): Reg
      reads this
    {
      Reg(instances, singletons, shuttingDown)
    }

    constructor ()
      ensures View() == EMPTY_REG
    {
      instances, singletons, shuttingDown := map[], map[], false;
    }

    /** Check, spawn and insert under one lock.  The factory (here `tracker.Spawn`)
        runs only after every check has passed. */
    method Register(instanceId: InstanceId, pluginId: PluginId, singleton: bool, tracker: ReaperTracker)
      returns (r: Result<Handle, RegistryError>)
      requires Consistent(View())
      modifies this, tracker
      ensures r.Ok? <==> Admits(old(View()), instanceId, pluginId, singleton)
      ensures r.Err? ==> Explains(old(View()), instanceId, pluginId, singleton, r.error)
      ensures r.Err? ==> View() == old(View()) && unchanged(tracker)
      ensures r.Ok? ==>
                && r.value == Handle(instanceId, pluginId, old(tracker.nextGen))
                && View() == Inserted(old(View()), r.value, singleton)
                && tracker.entries == old(tracker.entries)[instanceId := r.value.gen]
                && tracker.nextGen == old(tracker.nextGen) + 1
      ensures Consistent(View())
    {
      if shuttingDown {
        return Err(ShuttingDown);
      }
      if instanceId in instances {
        return Err(DuplicateInstanceId(instanceId));
      }
      if singleton {
        if exists i :: i in instances && instances[i].pluginId == pluginId {
          var i :| i in instances && instances[i].pluginId == pluginId;
          return Err(SingletonInUse(pluginId, instances[i].instanceId));
        }
      } else if pluginId in singletons {
        return Err(SingletonInUse(pluginId, singletons[pluginId]));
      }
      assert Admits(old(View()), instanceId, pluginId, singleton);
      var handle := tracker.Spawn(instanceId, pluginId);
      InsertKeepsConsistent(View(), handle, singleton);
      instances := instances[instanceId := handle];
      if singleton {
        singletons := singletons[pluginId := instanceId];
      }
      assert View() == Inserted(old(View()), handle, singleton);
      return Ok(handle);
    }

    /** Remove an entry; free the singleton slot only if this instance owns it. */
    method Unregister(instanceId: InstanceId, pluginId: PluginId)
      modifies this
      ensures View() == Removed(old(View()), instanceId, pluginId)
    {
      instances := instances - {instanceId};
      if pluginId in singletons && singletons[pluginId] == instanceId {
        singletons := singletons - {pluginId};
      }
    }

    method BeginShutdown()
      modifies `shuttingDown
      ensures View() == old(View()).(shuttingDown := true)
    {
      shuttingDown := true;
    }

    /** Snapshot of every registered handle: each one once, none under another's id. */
    method List() returns (handles: seq<Handle>)
      requires Consistent(View())
      ensures |handles| == |instances|
      ensures forall h :: h in handles <==> h.instanceId in instances && instances[h.instanceId] == h
      ensures forall j, k :: 0 <= j < k < |handles| ==> handles[j].instanceId != handles[k].instanceId
    {
      handles := [];
      var rest := instances;
      while rest != map[]
        invariant ListsAllBut(instances, rest, handles)
        decreases |rest|
      {
        var i :| i in rest;
        TakeOne(rest, i);
        ListOneMore(instances, rest, handles, i);
        handles := handles + [rest[i]];
        rest := rest - {i};
      }
    }
  }

  /** `handles` lists the registered handles not in `rest`, each once. */
  ghost predicate ListsAllBut(all: map<InstanceId, Handle>, rest: map<InstanceId, Handle>, handles: seq<Handle>) {
    && (forall i :: i in rest ==> i in all && rest[i] == all[i])
    && |handles| + |rest| == |all|
    && (forall h :: h in handles <==>
          h.instanceId in all && h.instanceId !in rest && all[h.instanceId] == h)
    && (forall j, k :: 0 <= j < k < |handles| ==> handles[j].instanceId != handles[k].instanceId)
  }

  lemma ListOneMore(all: map<InstanceId, Handle>, rest: map<InstanceId, Handle>, handles: seq<Handle>, i: InstanceId)
    requires ListsAllBut(all, rest, handles) && i in rest && all[i].instanceId == i && |rest - {i}| == |rest| - 1
    ensures ListsAllBut(all, rest - {i}, handles + [rest[i]])
  {
    forall k | 0 <= k < |handles|
      ensures handles[k].instanceId != i
    {
      assert handles[k] in handles;
    }
  }
}
