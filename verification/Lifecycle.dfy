/**
  Per-plugin lifecycle locks and purge-before-tombstone uninstall, composed with the
  supervisor / reaper protocol (crates/oxidhome-core/src/runtime.rs, the start and
  uninstall handlers of crates/oxidhome-core/src/api/server.rs and connect_rpc.rs,
  and crates/oxidhome-core/src/state/installed_plugins.rs).
 */
module LifecycleLocks {
  import opened Registry

  type LockId = nat
  type TaskId = nat

  /** One strong reference to a mutex, held by one handler. */
  datatype Ref = Ref(lock: LockId, holder: TaskId)

  /** The lazily filled map of weak references, and the strong ones handed out. */
  datatype LockTable = LockTable(table: map<PluginId, LockId>, refs: set<Ref>, next: nat)

  const EMPTY_LOCKS := LockTable(map[], {}, 0)

  predicate Alive(refs: set<Ref>, lock: LockId) {
    exists r :: r in refs && r.lock == lock
  }

  function RequestedLock(t: LockTable, p: PluginId): LockId {
    if p in t.table && Alive(t.refs, t.table[p]) then t.table[p] else t.next
  }

  function Requested(t: LockTable, p: PluginId, holder: TaskId): LockTable {
    if p in t.table && Alive(t.refs, t.table[p]) then
      t.(refs := t.refs + {Ref(t.table[p], holder)})
    else
      LockTable((map q | q in t.table && Alive(t.refs, t.table[q]) :: t.table[q])[p := t.next],
                t.refs + {Ref(t.next, holder)}, t.next + 1)
  }

  /** Mutexes are never shared between ids, and every mutex somebody still holds a
      strong reference to is the one the map hands out for its id. */
  ghost predicate LocksConsistent(t: LockTable) {
    && (forall p :: p in t.table ==> t.table[p] < t.next)
    && (forall p, q :: p in t.table && q in t.table && t.table[p] == t.table[q] ==> p == q)
    && (forall r :: r in t.refs ==> exists p :: p in t.table && t.table[p] == r.lock)
  }

  lemma RequestKeepsTable(t: LockTable, p: PluginId, holder: TaskId)
    requires LocksConsistent(t)
    ensures p in Requested(t, p, holder).table && Requested(t, p, holder).table[p] == RequestedLock(t, p)
    ensures forall q :: q in t.table && Alive(t.refs, t.table[q]) ==>
                          q in Requested(t, p, holder).table && Requested(t, p, holder).table[q] == t.table[q]
    ensures RequestedLock(t, p) == t.next ==>
              forall q :: q in Requested(t, p, holder).table <==> q == p || (q in t.table && Alive(t.refs, t.table[q]))
    ensures forall q :: q in Requested(t, p, holder).table && q != p ==>
                          q in t.table && Requested(t, p, holder).table[q] == t.table[q]
  {
  }

  /** Asking for a lock never drops or replaces one that is still referenced, and
      leaves the map holding exactly the live ids when it had to insert. */
  lemma RequestKeepsLocks(t: LockTable, p: PluginId, holder: TaskId)
    requires LocksConsistent(t)
    ensures LocksConsistent(Requested(t, p, holder))
    ensures forall q :: q in t.table && Alive(t.refs, t.table[q]) ==>
                          q in Requested(t, p, holder).table && Requested(t, p, holder).table[q] == t.table[q]
    ensures RequestedLock(t, p) == t.next ==>
              forall q :: q in Requested(t, p, holder).table <==> q == p || (q in t.table && Alive(t.refs, t.table[q]))
  {
    RequestKeepsTable(t, p, holder);
    var t' := Requested(t, p, holder);
    forall r | r in t'.refs
      ensures exists q :: q in t'.table && t'.table[q] == r.lock
    {
      if r in t.refs {
        var q :| q in t.table && t.table[q] == r.lock;
        assert Alive(t.refs, t.table[q]);
        assert t'.table[q] == r.lock;
      } else {
        assert t'.table[p] == r.lock;
      }
    }
    assert forall q :: q in t'.table ==> t'.table[q] < t'.next;
    assert forall q :: q in t.table && t.table[q] == RequestedLock(t, p) ==> q == p;
  }

  class LockMap {
    var table: map<PluginId, LockId>
    var refs: set<Ref>
    var next: nat

    function View(): LockTable
      reads this
    {
      LockTable(table, refs, next)
    }

    constructor ()
      ensures View() == EMPTY_LOCKS
    {
      table, refs, next := map[], {}, 0;
    }

    /** Hand out the mutex of `p`: the one still referenced, or a fresh one after
        sweeping every dead entry. */
    method PluginLifecycleLock(p: PluginId, holder: TaskId) returns (lock: LockId)
      requires LocksConsistent(View())
      modifies this
      ensures lock == RequestedLock(old(View()), p)
      ensures View() == Requested(old(View()), p, holder)
      ensures LocksConsistent(View())
    {
      RequestKeepsLocks(View(), p, holder);
      if p in table && Alive(refs, table[p]) {
        lock := table[p];
        refs := refs + {Ref(lock, holder)};
        return;
      }
      lock := next;
      table := map q | q in table && Alive(refs, table[q]) :: table[q];
      table := table[p := lock];
      next := next + 1;
      refs := refs + {Ref(lock, holder)};
    }

    /** The handler drops its strong reference; the map entry goes stale by itself. */
    method Release(lock: LockId, holder: TaskId)
      requires LocksConsistent(View())
      modifies `refs
      ensures View() == old(View()).(refs := old(refs) - {Ref(lock, holder)})
      ensures LocksConsistent(View())
    {
      refs := refs - {Ref(lock, holder)};
    }
  }
}

/** Handlers, installs, crashes and the supervision protocol as one step system. */
module Lifecycle {
  import opened Prelude
  import opened Registry
  import opened LifecycleLocks
  import Sup = Supervision

  type Uuid = string

  /** Where a handler is.  A start handler: waiting for the mutex, holding it, having
      looked up the installation, and having registered the instance.  An uninstall
      handler: waiting, holding, and then (its guard moved into a detached blocking
      task) looking up the uuid, purging key-value rows, blob index rows and blob
      files, and finally tombstoning. */
  datatype Pc =
    | StartWaiting | StartHolding | StartObserved(uuid: Uuid) | StartRegistered
    | UninstallWaiting | UninstallHolding | NoneRunning
    | LookedUp(uuid: Uuid) | KvPurged(uuid: Uuid) | IndexPurged(uuid: Uuid) | ReadyToTombstone

  predicate Holds(pc: Pc) {
    pc != StartWaiting && pc != UninstallWaiting
  }

  datatype Task = Task(plugin: PluginId, lock: LockId, pc: Pc)

  type Tasks = map<TaskId, Task>

  datatype Locking = Locking(locks: LockTable, held: map<LockId, TaskId>, tasks: Tasks, nextTask: nat)

  /** The installed-plugin registry: indexed and quarantined packages, live rows,
      package directories, half-done installs, every uuid ever minted (and for which
      plugin), and the tombstoned ones. */
  datatype Catalog = Catalog(
    entries: map<PluginId, Uuid>, quarantined: map<PluginId, Uuid>,
    rows: map<PluginId, Uuid>, dirs: set<PluginId>, installing: map<PluginId, Uuid>,
    minted: map<Uuid, PluginId>, tombstoned: set<Uuid>)
  {
    /** The uuid an uninstall acts on, live or quarantined. */
    function UuidFor(p: PluginId): Option<Uuid> {
      if p in entries then Some(entries[p]) else if p in quarantined then Some(quarantined[p]) else None
    }
  }

  /** Which uuids own key-value rows, blob index rows and blob files. */
  datatype Storage = Storage(kv: set<Uuid>, blobIndex: set<Uuid>, blobFiles: set<Uuid>) {
    ghost predicate Owns(u: Uuid) {
      u in kv || u in blobIndex || u in blobFiles
    }
  }

  datatype World = World(sup: Sup.Sys, lk: Locking, cat: Catalog, st: Storage)

  const IDLE := Locking(EMPTY_LOCKS, map[], map[], 0)
  const EMPTY_WORLD := World(Sup.INIT, IDLE, Catalog(map[], map[], map[], {}, map[], map[], {}), Storage({}, {}, {}))

  datatype Store = Kv | BlobIndex | BlobFiles

  datatype Step =
    | Begin(plugin: PluginId, uninstall: bool)
    | LockAcquired(task: TaskId)
    | Inside(task: TaskId)
    | Register(task: TaskId, instanceId: InstanceId, singleton: bool)
    | RemoveDirOnly(task: TaskId)
    | Tombstone(task: TaskId)
    | End(task: TaskId)
    | InstallRow(plugin: PluginId, uuid: Uuid)
    | InstallActivate(plugin: PluginId)
    | InstallAbort(plugin: PluginId, rollback: bool)
    | Protocol(step: Sup.Step)
    | Write(gen: nat, store: Store)
    | Reboot(scan: Scan)

  // ---- Steps ----

  ghost function Begun(lk: Locking, p: PluginId, pc: Pc): Locking {
    Locking(Requested(lk.locks, p, lk.nextTask), lk.held,
            lk.tasks[lk.nextTask := Task(p, RequestedLock(lk.locks, p), pc)], lk.nextTask + 1)
  }

  ghost function Moved(lk: Locking, t: TaskId, pc: Pc): Locking
    requires t in lk.tasks
  {
    lk.(tasks := lk.tasks[t := lk.tasks[t].(pc := pc)])
  }

  ghost function Acquired(lk: Locking, t: TaskId): Locking
    requires t in lk.tasks
  {
    Moved(lk, t, if lk.tasks[t].pc == StartWaiting then StartHolding else UninstallHolding)
      .(held := lk.held[lk.tasks[t].lock := t])
  }

  /** Success, an error return, a refusal or a cancelled handler: wherever a task stops,
      its guard and its strong reference are dropped with it. */
  ghost function Ended(lk: Locking, t: TaskId): Locking
    requires t in lk.tasks
  {
    Locking(lk.locks.(refs := lk.locks.refs - {Ref(lk.tasks[t].lock, t)}),
            if Holds(lk.tasks[t].pc) then lk.held - {lk.tasks[t].lock} else lk.held,
            lk.tasks - {t}, lk.nextTask)
  }

  /** No instance of the plugin is in the registry (the running-instances check). */
  ghost predicate NoneRegistered(sup: Sup.Sys, p: PluginId) {
    forall i :: i in sup.reg.instances ==> sup.reg.instances[i].pluginId != p
  }

  /** A handler holding the lock takes its next action, if the action succeeds. */
  ghost predicate CanAdvance(w: World, task: Task) {
    match task.pc
    case StartHolding => task.plugin in w.cat.entries
    case UninstallHolding => NoneRegistered(w.sup, task.plugin)
    case NoneRunning => true
    case LookedUp(_) => true
    case KvPurged(_) => true
    case IndexPurged(_) => true
    case _ => false
  }

  ghost function NextPc(w: World, task: Task): Pc
    requires CanAdvance(w, task)
  {
    match task.pc
    case StartHolding => StartObserved(w.cat.entries[task.plugin])
    case UninstallHolding => NoneRunning
    case NoneRunning =>
      var uuid := w.cat.UuidFor(task.plugin);
      if uuid.Some? then LookedUp(uuid.value) else ReadyToTombstone
    case LookedUp(u) => KvPurged(u)
    case KvPurged(u) => IndexPurged(u)
    case IndexPurged(_) => ReadyToTombstone
  }

  ghost function Purged(st: Storage, pc: Pc): Storage {
    match pc
    case LookedUp(u) => st.(kv := st.kv - {u})
    case KvPurged(u) => st.(blobIndex := st.blobIndex - {u})
    case IndexPurged(u) => st.(blobFiles := st.blobFiles - {u})
    case _ => st
  }

  ghost function Tombstoned(cat: Catalog, p: PluginId): Catalog
    requires cat.UuidFor(p).Some?
  {
    cat.(dirs := cat.dirs - {p}, rows := cat.rows - {p}, entries := cat.entries - {p},
         quarantined := cat.quarantined - {p}, tombstoned := cat.tombstoned + {cat.UuidFor(p).value})
  }

  ghost function Activated(cat: Catalog, p: PluginId): Catalog
    requires p in cat.installing
  {
    cat.(dirs := cat.dirs + {p}, entries := cat.entries[p := cat.installing[p]], installing := cat.installing - {p})
  }

  ghost function Written(st: Storage, u: Uuid, store: Store): Storage {
    match store
    case Kv => st.(kv := st.kv + {u})
    case BlobIndex => st.(blobIndex := st.blobIndex + {u})
    case BlobFiles => st.(blobFiles := st.blobFiles + {u})
  }

  /** What a boot scan finds: the rows it can index, with a readable package directory;
      those it has to quarantine, because the row or the package is not as it should be;
      and those it tombstones, which have no directory. */
  datatype Scan = Scan(healthy: set<PluginId>, bad: set<PluginId>, swept: set<PluginId>)

  ghost predicate CanFind(cat: Catalog, scan: Scan) {
    && scan.healthy <= cat.rows.Keys * cat.dirs && scan.bad <= cat.rows.Keys - scan.healthy
    && scan.swept <= cat.rows.Keys - cat.dirs - scan.bad
  }

  /** The boot scan: live rows without a package directory are tombstoned (all of them,
      some, or, when the sweep is deferred, none), healthy packages indexed and bad ones
      quarantined; the rest, whose directory cannot be read, stay as rows alone. */
  ghost function Scanned(cat: Catalog, scan: Scan): Catalog {
    Catalog(map p | p in cat.rows && p in scan.healthy :: cat.rows[p],
            map p | p in cat.rows && p in scan.bad :: cat.rows[p],
            cat.rows - scan.swept, cat.dirs, map[], cat.minted,
            cat.tombstoned + (set p | p in scan.swept && p in cat.rows :: cat.rows[p]))
  }

  ghost predicate Enabled(w: World, step: Step) {
    match step
    case Begin(_, _) => true
    case LockAcquired(t) =>
      t in w.lk.tasks && !Holds(w.lk.tasks[t].pc) && w.lk.tasks[t].lock !in w.lk.held
    case Inside(t) => t in w.lk.tasks && CanAdvance(w, w.lk.tasks[t])
    // The manifest is read from the package directory, so a missing one fails the start.
    case Register(t, i, singleton) =>
      && t in w.lk.tasks && w.lk.tasks[t].pc.StartObserved? && w.lk.tasks[t].plugin in w.cat.dirs
      && Admits(w.sup.reg, i, w.lk.tasks[t].plugin, singleton)
    case RemoveDirOnly(t) =>
      t in w.lk.tasks && w.lk.tasks[t].pc == ReadyToTombstone && w.cat.UuidFor(w.lk.tasks[t].plugin).Some?
    case Tombstone(t) =>
      t in w.lk.tasks && w.lk.tasks[t].pc == ReadyToTombstone && w.cat.UuidFor(w.lk.tasks[t].plugin).Some?
    case End(t) => t in w.lk.tasks
    case InstallRow(p, u) => p !in w.cat.rows && p !in w.cat.dirs && u !in w.cat.minted
    case InstallActivate(p) => p in w.cat.installing
    case InstallAbort(p, _) => p in w.cat.installing
    case Protocol(step) => !step.Start? && Sup.Enabled(w.sup, step)
    case Write(g, _) => g in w.sup.sups && w.sup.sups[g].phase == Sup.Live
    case Reboot(scan) => CanFind(w.cat, scan)
  }

  ghost function Apply(w: World, step: Step): World
    requires Enabled(w, step)
  {
    match step
    case Begin(p, uninstall) => w.(lk := Begun(w.lk, p, if uninstall then UninstallWaiting else StartWaiting))
    case LockAcquired(t) => w.(lk := Acquired(w.lk, t))
    case Inside(t) =>
      w.(lk := Moved(w.lk, t, NextPc(w, w.lk.tasks[t])), st := Purged(w.st, w.lk.tasks[t].pc))
    case Register(t, i, singleton) =>
      w.(lk := Moved(w.lk, t, StartRegistered),
         sup := Sup.Apply(w.sup, Sup.Start(i, w.lk.tasks[t].plugin, singleton, w.lk.tasks[t].pc.uuid)))
    // The directory went, the tombstone write failed: the row and the entry stay.
    case RemoveDirOnly(t) => w.(cat := w.cat.(dirs := w.cat.dirs - {w.lk.tasks[t].plugin}))
    case Tombstone(t) => w.(cat := Tombstoned(w.cat, w.lk.tasks[t].plugin))
    case End(t) => w.(lk := Ended(w.lk, t))
    case InstallRow(p, u) =>
      w.(cat := w.cat.(rows := w.cat.rows[p := u], minted := w.cat.minted[u := p],
          installing := w.cat.installing[p := u]))
    case InstallActivate(p) => w.(cat := Activated(w.cat, p))
    case InstallAbort(p, rollback) =>
      w.(cat := w.cat.(rows := if rollback then w.cat.rows - {p} else w.cat.rows, installing := w.cat.installing - {p}))
    case Protocol(step) => w.(sup := Sup.Apply(w.sup, step))
    case Write(g, store) => w.(st := Written(w.st, w.sup.sups[g].installation, store))
    // The process dies and boots again: everything in memory is gone.
    case Reboot(scan) => World(Sup.INIT, IDLE, Scanned(w.cat, scan), w.st)
  }

  ghost predicate Legal(w: World, steps: seq<Step>)
    decreases |steps|
  {
    steps == [] || (Enabled(w, steps[0]) && Legal(Apply(w, steps[0]), steps[1..]))
  }

  ghost function Exec(w: World, steps: seq<Step>): World
    requires Legal(w, steps)
    decreases |steps|
  {
    if steps == [] then w else Exec(Apply(w, steps[0]), steps[1..])
  }

  ghost predicate Reachable(w: World) {
    exists steps :: Legal(EMPTY_WORLD, steps) && Exec(EMPTY_WORLD, steps) == w
  }

  // ---- Invariants ----

  /** The strong references are exactly those of the running handlers, and all of them
      for one plugin name the mutex the map hands out for it. */
  ghost predicate LocksMatch(lk: Locking) {
    && LocksConsistent(lk.locks)
    && (forall r :: r in lk.locks.refs ==> r.holder in lk.tasks && lk.tasks[r.holder].lock == r.lock)
    && (forall t :: t in lk.tasks ==>
          && t < lk.nextTask && Ref(lk.tasks[t].lock, t) in lk.locks.refs
          && lk.tasks[t].plugin in lk.locks.table && lk.locks.table[lk.tasks[t].plugin] == lk.tasks[t].lock)
  }

  ghost predicate Mutex(lk: Locking) {
    && (forall l :: l in lk.held ==>
          lk.held[l] in lk.tasks && lk.tasks[lk.held[l]].lock == l && Holds(lk.tasks[lk.held[l]].pc))
    && (forall t :: t in lk.tasks && Holds(lk.tasks[t].pc) ==>
          lk.tasks[t].lock in lk.held && lk.held[lk.tasks[t].lock] == t)
  }

  ghost predicate CatalogConsistent(cat: Catalog) {
    && (forall p :: p in cat.rows ==>
          cat.rows[p] in cat.minted && cat.minted[cat.rows[p]] == p && cat.rows[p] !in cat.tombstoned)
    && (forall u :: u in cat.tombstoned ==> u in cat.minted)
    && (forall p :: p in cat.entries ==> p in cat.rows && cat.rows[p] == cat.entries[p] && p !in cat.quarantined)
    && (forall p :: p in cat.quarantined ==> p in cat.rows && cat.rows[p] == cat.quarantined[p])
    && (forall p :: p in cat.installing ==>
          && p in cat.rows && cat.rows[p] == cat.installing[p]
          && p !in cat.entries && p !in cat.quarantined && p !in cat.dirs)
    && (forall p :: p in cat.dirs ==> p in cat.rows)
  }

  /** A generation of this plugin has not yet unregistered. */
  ghost predicate Runs(sup: Sup.Sys, p: PluginId) {
    exists g :: Sup.Pending(sup.reapers, g) && g in sup.sups && sup.sups[g].pluginId == p
  }

  /** A generation that has not unregistered runs an installation that is still indexed
      and still on disk. */
  ghost predicate SupsInstalled(sup: Sup.Sys, cat: Catalog) {
    forall g :: Sup.Pending(sup.reapers, g) && g in sup.sups ==>
      && sup.sups[g].pluginId in cat.entries && sup.sups[g].pluginId in cat.dirs
      && cat.entries[sup.sups[g].pluginId] == sup.sups[g].installation
  }

  /** State belongs to an installation whose row is live and whose directory exists. */
  ghost predicate StateHoused(st: Storage, cat: Catalog) {
    forall u :: st.Owns(u) ==>
      u in cat.minted && cat.minted[u] in cat.rows && cat.rows[cat.minted[u]] == u && cat.minted[u] in cat.dirs
  }

  /** What a handler may rely on at its program counter, because it holds the lock. */
  ghost predicate TaskFacts(sup: Sup.Sys, cat: Catalog, st: Storage, task: Task) {
    var p := task.plugin;
    match task.pc
    case StartObserved(u) => p in cat.entries && cat.entries[p] == u
    case NoneRunning => !Runs(sup, p)
    case LookedUp(u) => !Runs(sup, p) && cat.UuidFor(p) == Some(u)
    case KvPurged(u) => !Runs(sup, p) && cat.UuidFor(p) == Some(u) && u !in st.kv
    case IndexPurged(u) => !Runs(sup, p) && cat.UuidFor(p) == Some(u) && u !in st.kv && u !in st.blobIndex
    case ReadyToTombstone => !Runs(sup, p) && (cat.UuidFor(p).Some? ==> !st.Owns(cat.UuidFor(p).value))
    case _ => true
  }

  ghost predicate AllFacts(sup: Sup.Sys, cat: Catalog, st: Storage, tasks: Tasks) {
    forall t :: t in tasks ==> TaskFacts(sup, cat, st, tasks[t])
  }

  ghost predicate Inv(w: World) {
    && Sup.Inv(w.sup)
    && LocksMatch(w.lk) && Mutex(w.lk)
    && CatalogConsistent(w.cat) && SupsInstalled(w.sup, w.cat) && StateHoused(w.st, w.cat)
    && AllFacts(w.sup, w.cat, w.st, w.lk.tasks)
  }

  // ---- Preservation: the locks ----

  /** The lock a running handler waits for or holds keeps its name in the map. */
  lemma RequestKeepsNames(lk: Locking, p: PluginId)
    requires LocksMatch(lk)
    ensures var table' := Requested(lk.locks, p, lk.nextTask).table;
      forall t :: t in lk.tasks ==> lk.tasks[t].plugin in table' && table'[lk.tasks[t].plugin] == lk.tasks[t].lock
  {
    hide LocksConsistent;
    RequestKeepsLocks(lk.locks, p, lk.nextTask);
    hide Requested, RequestedLock;
    forall t | t in lk.tasks
      ensures Alive(lk.locks.refs, lk.tasks[t].lock)
    {
      assert Ref(lk.tasks[t].lock, t) in lk.locks.refs;
    }
  }

  lemma NewTaskKeepsMatch(lk: Locking, locks': LockTable, task: Task)
    requires LocksMatch(lk) && LocksConsistent(locks')
    requires locks'.refs == lk.locks.refs + {Ref(task.lock, lk.nextTask)}
    requires task.plugin in locks'.table && locks'.table[task.plugin] == task.lock
    requires forall t :: t in lk.tasks ==>
                           lk.tasks[t].plugin in locks'.table && locks'.table[lk.tasks[t].plugin] == lk.tasks[t].lock
    ensures LocksMatch(Locking(locks', lk.held, lk.tasks[lk.nextTask := task], lk.nextTask + 1))
  {
    hide LocksConsistent;
  }

  lemma NewTaskKeepsMutex(lk: Locking, lk': Locking, task: Task)
    requires LocksMatch(lk) && Mutex(lk) && !Holds(task.pc)
    requires lk'.held == lk.held && lk'.tasks == lk.tasks[lk.nextTask := task]
    ensures Mutex(lk')
  {
    hide LocksConsistent;
    assert lk.nextTask !in lk.tasks;
  }

  lemma BeginKeepsLocks(lk: Locking, p: PluginId, pc: Pc)
    requires LocksMatch(lk) && Mutex(lk) && !Holds(pc)
    ensures LocksMatch(Begun(lk, p, pc)) && Mutex(Begun(lk, p, pc))
  {
    hide LocksConsistent, Alive, Mutex;
    var task := Task(p, RequestedLock(lk.locks, p), pc);
    RequestKeepsLocks(lk.locks, p, lk.nextTask);
    RequestKeepsTable(lk.locks, p, lk.nextTask);
    RequestKeepsNames(lk, p);
    NewTaskKeepsMatch(lk, Requested(lk.locks, p, lk.nextTask), task);
    NewTaskKeepsMutex(lk, Begun(lk, p, pc), task);
  }

  lemma MoveKeepsLocks(lk: Locking, t: TaskId, pc: Pc)
    requires LocksMatch(lk) && Mutex(lk) && t in lk.tasks && (Holds(pc) <==> Holds(lk.tasks[t].pc))
    ensures LocksMatch(Moved(lk, t, pc)) && Mutex(Moved(lk, t, pc))
  {
    hide LocksConsistent;
  }

  lemma AcquireKeepsLocks(lk: Locking, t: TaskId)
    requires LocksMatch(lk) && Mutex(lk) && t in lk.tasks
    requires !Holds(lk.tasks[t].pc) && lk.tasks[t].lock !in lk.held
    ensures LocksMatch(Acquired(lk, t)) && Mutex(Acquired(lk, t))
  {
    hide LocksConsistent;
  }

  lemma EndKeepsMatch(lk: Locking, t: TaskId)
    requires LocksMatch(lk) && t in lk.tasks
    ensures LocksMatch(Ended(lk, t))
  {
    var refs' := lk.locks.refs - {Ref(lk.tasks[t].lock, t)};
    assert LocksConsistent(lk.locks.(refs := refs')) by {
      assert forall r :: r in refs' ==> r in lk.locks.refs;
    }
    hide LocksConsistent;
  }

  lemma EndKeepsMutex(lk: Locking, t: TaskId)
    requires Mutex(lk) && t in lk.tasks
    ensures Mutex(Ended(lk, t))
  {
  }

  lemma EndKeepsLocks(lk: Locking, t: TaskId)
    requires LocksMatch(lk) && Mutex(lk) && t in lk.tasks
    ensures LocksMatch(Ended(lk, t)) && Mutex(Ended(lk, t))
  {
    hide LocksMatch, Mutex, Ended;
    EndKeepsMatch(lk, t);
    EndKeepsMutex(lk, t);
  }

  /** At most one handler is inside its section per plugin. */
  lemma SectionsExclude(lk: Locking, t: TaskId, u: TaskId)
    requires LocksMatch(lk) && Mutex(lk) && t in lk.tasks && u in lk.tasks
    requires lk.tasks[t].plugin == lk.tasks[u].plugin && Holds(lk.tasks[t].pc) && Holds(lk.tasks[u].pc)
    ensures t == u
  {
  }

  // ---- Preservation: the catalog, the running generations and the state ----

  /** Nothing a handler of plugin `p` relies on gets worse: the installation it found is
      still there, no new generation of `p` runs, no new state appears for it. */
  ghost predicate Harmless(sup: Sup.Sys, cat: Catalog, st: Storage, sup': Sup.Sys, cat': Catalog, st': Storage,
      p: PluginId) {
    && cat'.UuidFor(p) == cat.UuidFor(p)
    && (p in cat.entries <==> p in cat'.entries)
    && (Runs(sup', p) ==> Runs(sup, p))
    && (cat.UuidFor(p).Some? ==>
          var u := cat.UuidFor(p).value;
          && (u in st'.kv ==> u in st.kv)
          && (u in st'.blobIndex ==> u in st.blobIndex)
          && (u in st'.blobFiles ==> u in st.blobFiles))
  }

  lemma HarmlessKeepsFacts(sup: Sup.Sys, cat: Catalog, st: Storage, sup': Sup.Sys, cat': Catalog, st': Storage,
      task: Task)
    requires TaskFacts(sup, cat, st, task)
    requires Harmless(sup, cat, st, sup', cat', st', task.plugin)
    ensures TaskFacts(sup', cat', st', task)
  {
    hide Runs;
  }

  /** A plugin with no registered instance has no generation that could still act. */
  lemma NoneRegisteredMeansNoneRuns(sup: Sup.Sys, p: PluginId)
    requires Sup.Matched(sup.reg.instances, sup.sups, sup.reapers)
    requires NoneRegistered(sup, p)
    ensures !Runs(sup, p)
  {
  }

  lemma NewTaskKeepsFacts(w: World, tasks': Tasks, t: TaskId, task: Task)
    requires AllFacts(w.sup, w.cat, w.st, w.lk.tasks) && tasks' == w.lk.tasks[t := task]
    requires TaskFacts(w.sup, w.cat, w.st, task)
    ensures AllFacts(w.sup, w.cat, w.st, tasks')
  {
    hide TaskFacts;
  }

  lemma LockStepKeepsInv(w: World, step: Step)
    requires Inv(w) && Enabled(w, step) && (step.Begin? || step.LockAcquired? || step.End?)
    ensures Inv(Apply(w, step))
  {
    hide LocksMatch, Mutex, CatalogConsistent, SupsInstalled, StateHoused, Sup.Inv;
    match step
    case Begin(p, uninstall) =>
      var pc := if uninstall then UninstallWaiting else StartWaiting;
      BeginKeepsLocks(w.lk, p, pc);
      NewTaskKeepsFacts(w, Begun(w.lk, p, pc).tasks, w.lk.nextTask, Task(p, RequestedLock(w.lk.locks, p), pc));
    case LockAcquired(t) =>
      AcquireKeepsLocks(w.lk, t);
      var tasks' := Acquired(w.lk, t).tasks;
      NewTaskKeepsFacts(w, tasks', t, tasks'[t]);
    case End(t) =>
      EndKeepsLocks(w.lk, t);
      assert AllFacts(w.sup, w.cat, w.st, w.lk.tasks - {t});
  }

  /** Two handlers past their lock acquisition work on different plugins. */
  lemma InsideDiffer(lk: Locking, t: TaskId)
    requires LocksMatch(lk) && Mutex(lk) && t in lk.tasks && Holds(lk.tasks[t].pc)
    ensures forall u :: u in lk.tasks && u != t && Holds(lk.tasks[u].pc) ==> lk.tasks[u].plugin != lk.tasks[t].plugin
  {
    forall u | u in lk.tasks && u != t && Holds(lk.tasks[u].pc)
      ensures lk.tasks[u].plugin != lk.tasks[t].plugin
    {
      if lk.tasks[u].plugin == lk.tasks[t].plugin {
        SectionsExclude(lk, t, u);
      }
    }
  }

  /** A handler inside its section may change anything of its own plugin: the facts of
      the others persist if the change is harmless to every other plugin. */
  lemma OthersKeepFacts(w: World, t: TaskId, sup': Sup.Sys, cat': Catalog, st': Storage, task': Task)
    requires LocksMatch(w.lk) && Mutex(w.lk) && AllFacts(w.sup, w.cat, w.st, w.lk.tasks)
    requires t in w.lk.tasks && Holds(w.lk.tasks[t].pc)
    requires forall p :: p != w.lk.tasks[t].plugin ==> Harmless(w.sup, w.cat, w.st, sup', cat', st', p)
    requires TaskFacts(sup', cat', st', task')
    ensures AllFacts(sup', cat', st', w.lk.tasks[t := task'])
  {
    InsideDiffer(w.lk, t);
    hide LocksMatch, Mutex, Harmless;
    forall u | u in w.lk.tasks && u != t
      ensures TaskFacts(sup', cat', st', w.lk.tasks[u])
    {
      if Holds(w.lk.tasks[u].pc) {
        HarmlessKeepsFacts(w.sup, w.cat, w.st, sup', cat', st', w.lk.tasks[u]);
      }
    }
  }

  lemma PurgeKeepsHoused(st: Storage, cat: Catalog, pc: Pc)
    requires StateHoused(st, cat)
    ensures StateHoused(Purged(st, pc), cat)
    ensures forall u :: u in Purged(st, pc).kv ==> u in st.kv
    ensures forall u :: u in Purged(st, pc).blobIndex ==> u in st.blobIndex
    ensures forall u :: u in Purged(st, pc).blobFiles ==> u in st.blobFiles
  {
    assert forall u :: Purged(st, pc).Owns(u) ==> st.Owns(u);
  }

  /** Each action of an uninstall section establishes what its next state relies on. */
  lemma AdvanceEstablishesFacts(w: World, task: Task)
    requires TaskFacts(w.sup, w.cat, w.st, task) && CanAdvance(w, task)
    requires Sup.Matched(w.sup.reg.instances, w.sup.sups, w.sup.reapers)
    ensures TaskFacts(w.sup, w.cat, Purged(w.st, task.pc), task.(pc := NextPc(w, task)))
  {
    if task.pc == UninstallHolding {
      NoneRegisteredMeansNoneRuns(w.sup, task.plugin);
    }
    hide Runs, NoneRegistered;
  }

  lemma InsideKeepsFacts(w: World, t: TaskId)
    requires Inv(w) && Enabled(w, Inside(t))
    ensures AllFacts(w.sup, w.cat, Purged(w.st, w.lk.tasks[t].pc), Moved(w.lk, t, NextPc(w, w.lk.tasks[t])).tasks)
  {
    var task := w.lk.tasks[t];
    hide LocksMatch, Mutex, CatalogConsistent, SupsInstalled;
    PurgeKeepsHoused(w.st, w.cat, task.pc);
    AdvanceEstablishesFacts(w, task);
    hide Sup.Inv, StateHoused, TaskFacts, NextPc, Purged;
    OthersKeepFacts(w, t, w.sup, w.cat, Purged(w.st, task.pc), task.(pc := NextPc(w, task)));
  }

  lemma InsideKeepsInv(w: World, t: TaskId)
    requires Inv(w) && Enabled(w, Inside(t))
    ensures Inv(Apply(w, Inside(t)))
  {
    hide LocksMatch, Mutex, CatalogConsistent, SupsInstalled, StateHoused, AllFacts, Sup.Inv;
    MoveKeepsLocks(w.lk, t, NextPc(w, w.lk.tasks[t]));
    PurgeKeepsHoused(w.st, w.cat, w.lk.tasks[t].pc);
    InsideKeepsFacts(w, t);
  }

  /** A start adds one generation, of the plugin whose lock the handler holds. */
  lemma StartedRuns(sup: Sup.Sys, step: Sup.Step, q: PluginId)
    requires Sup.Inv(sup) && step.Start? && Sup.Enabled(sup, step)
    requires Runs(Sup.Apply(sup, step), q)
    ensures q == step.pluginId || Runs(sup, q)
  {
    var sup' := Sup.Apply(sup, step);
    var g :| Sup.Pending(sup'.reapers, g) && g in sup'.sups && sup'.sups[g].pluginId == q;
    if g != sup.nextGen {
      assert Sup.Pending(sup.reapers, g);
    }
  }

  lemma StartKeepsInstalled(sup: Sup.Sys, cat: Catalog, step: Sup.Step)
    requires Sup.Inv(sup) && step.Start? && Sup.Enabled(sup, step) && SupsInstalled(sup, cat)
    requires step.pluginId in cat.entries && step.pluginId in cat.dirs
    requires cat.entries[step.pluginId] == step.installation
    ensures SupsInstalled(Sup.Apply(sup, step), cat)
  {
    var sup' := Sup.Apply(sup, step);
    assert forall g :: Sup.Pending(sup'.reapers, g) && g != sup.nextGen ==> Sup.Pending(sup.reapers, g);
  }

  lemma RegisterKeepsFacts(w: World, t: TaskId, start: Sup.Step)
    requires Inv(w) && t in w.lk.tasks && Holds(w.lk.tasks[t].pc)
    requires start.Start? && Sup.Enabled(w.sup, start) && start.pluginId == w.lk.tasks[t].plugin
    ensures AllFacts(Sup.Apply(w.sup, start), w.cat, w.st, Moved(w.lk, t, StartRegistered).tasks)
  {
    hide LocksMatch, Mutex, StateHoused, SupsInstalled, Sup.Inv, Sup.Apply, Runs, CatalogConsistent;
    var sup' := Sup.Apply(w.sup, start);
    forall q | q != start.pluginId
      ensures Harmless(w.sup, w.cat, w.st, sup', w.cat, w.st, q)
    {
      if Runs(sup', q) {
        StartedRuns(w.sup, start, q);
      }
    }
    hide Harmless;
    OthersKeepFacts(w, t, sup', w.cat, w.st, w.lk.tasks[t].(pc := StartRegistered));
  }

  lemma StarterIsInstalled(w: World, t: TaskId)
    requires AllFacts(w.sup, w.cat, w.st, w.lk.tasks) && t in w.lk.tasks && w.lk.tasks[t].pc.StartObserved?
    ensures w.lk.tasks[t].plugin in w.cat.entries && w.cat.entries[w.lk.tasks[t].plugin] == w.lk.tasks[t].pc.uuid
  {
    assert TaskFacts(w.sup, w.cat, w.st, w.lk.tasks[t]);
  }

  lemma RegisterKeepsInv(w: World, step: Step)
    requires Inv(w) && step.Register? && Enabled(w, step)
    ensures Inv(Apply(w, step))
  {
    hide LocksMatch, Mutex, CatalogConsistent, SupsInstalled, StateHoused, AllFacts, Sup.Inv, Sup.Apply, Moved;
    var task := w.lk.tasks[step.task];
    StarterIsInstalled(w, step.task);
    var start := Sup.Start(step.instanceId, task.plugin, step.singleton, task.pc.uuid);
    Sup.StartKeepsInv(w.sup, start);
    StartKeepsInstalled(w.sup, w.cat, start);
    MoveKeepsLocks(w.lk, step.task, StartRegistered);
    RegisterKeepsFacts(w, step.task, start);
  }

  /** Deleting the package of a plugin that owns no state and runs nowhere, with or
      without the tombstone, strands nothing. */
  lemma TombstoneKeepsCatalog(w: World, p: PluginId)
    requires CatalogConsistent(w.cat) && SupsInstalled(w.sup, w.cat) && StateHoused(w.st, w.cat)
    requires !Runs(w.sup, p) && w.cat.UuidFor(p).Some? && !w.st.Owns(w.cat.UuidFor(p).value)
    ensures CatalogConsistent(Tombstoned(w.cat, p))
    ensures SupsInstalled(w.sup, Tombstoned(w.cat, p))
    ensures StateHoused(w.st, Tombstoned(w.cat, p))
  {
    assert p in w.cat.rows && w.cat.rows[p] == w.cat.UuidFor(p).value;
  }

  lemma RemoveDirKeepsCatalog(w: World, p: PluginId)
    requires CatalogConsistent(w.cat) && SupsInstalled(w.sup, w.cat) && StateHoused(w.st, w.cat)
    requires !Runs(w.sup, p) && w.cat.UuidFor(p).Some? && !w.st.Owns(w.cat.UuidFor(p).value)
    ensures CatalogConsistent(w.cat.(dirs := w.cat.dirs - {p}))
    ensures SupsInstalled(w.sup, w.cat.(dirs := w.cat.dirs - {p}))
    ensures StateHoused(w.st, w.cat.(dirs := w.cat.dirs - {p}))
  {
    assert p in w.cat.rows && w.cat.rows[p] == w.cat.UuidFor(p).value;
  }

  lemma RemovalKeepsFacts(w: World, t: TaskId, cat': Catalog)
    requires Inv(w) && t in w.lk.tasks && w.lk.tasks[t].pc == ReadyToTombstone
    requires w.cat.UuidFor(w.lk.tasks[t].plugin).Some?
    requires || cat' == Tombstoned(w.cat, w.lk.tasks[t].plugin)
             || cat' == w.cat.(dirs := w.cat.dirs - {w.lk.tasks[t].plugin})
    ensures AllFacts(w.sup, cat', w.st, w.lk.tasks)
  {
    hide LocksMatch, Mutex, CatalogConsistent, StateHoused, SupsInstalled, Sup.Inv, Runs;
    var task := w.lk.tasks[t];
    assert TaskFacts(w.sup, w.cat, w.st, task);
    assert TaskFacts(w.sup, cat', w.st, task);
    hide TaskFacts;
    OthersKeepFacts(w, t, w.sup, cat', w.st, task);
    assert w.lk.tasks == w.lk.tasks[t := task];
  }

  lemma RemoverIsAlone(w: World, t: TaskId)
    requires AllFacts(w.sup, w.cat, w.st, w.lk.tasks) && t in w.lk.tasks && w.lk.tasks[t].pc == ReadyToTombstone
    ensures var p := w.lk.tasks[t].plugin;
      !Runs(w.sup, p) && (w.cat.UuidFor(p).Some? ==> !w.st.Owns(w.cat.UuidFor(p).value))
  {
    assert TaskFacts(w.sup, w.cat, w.st, w.lk.tasks[t]);
  }

  lemma RemovalKeepsInv(w: World, step: Step)
    requires Inv(w) && Enabled(w, step) && (step.Tombstone? || step.RemoveDirOnly?)
    ensures Inv(Apply(w, step))
  {
    hide LocksMatch, Mutex, CatalogConsistent, SupsInstalled, StateHoused, AllFacts, Sup.Inv, Runs, Tombstoned;
    var p := w.lk.tasks[step.task].plugin;
    RemoverIsAlone(w, step.task);
    TombstoneKeepsCatalog(w, p);
    RemoveDirKeepsCatalog(w, p);
    var cat' := Apply(w, step).cat;
    assert cat' == Tombstoned(w.cat, p) || cat' == w.cat.(dirs := w.cat.dirs - {p});
    RemovalKeepsFacts(w, step.task, cat');
  }

  /** All facts persist under a change that is harmless to every plugin. */
  lemma HarmlessKeepsAllFacts(w: World, sup': Sup.Sys, cat': Catalog, st': Storage)
    requires AllFacts(w.sup, w.cat, w.st, w.lk.tasks)
    requires forall p :: Harmless(w.sup, w.cat, w.st, sup', cat', st', p)
    ensures AllFacts(sup', cat', st', w.lk.tasks)
  {
    hide Harmless, TaskFacts;
    forall t | t in w.lk.tasks
      ensures TaskFacts(sup', cat', st', w.lk.tasks[t])
    {
      HarmlessKeepsFacts(w.sup, w.cat, w.st, sup', cat', st', w.lk.tasks[t]);
    }
  }

  /** An installation that is only half done has no directory yet, so its uuid owns
      nothing: activating it cannot hand state to anybody. */
  lemma ActivateKeepsCatalog(w: World, p: PluginId)
    requires CatalogConsistent(w.cat) && SupsInstalled(w.sup, w.cat) && StateHoused(w.st, w.cat)
    requires p in w.cat.installing
    ensures CatalogConsistent(Activated(w.cat, p)) && SupsInstalled(w.sup, Activated(w.cat, p))
    ensures StateHoused(w.st, Activated(w.cat, p)) && !w.st.Owns(w.cat.installing[p])
    ensures w.cat.UuidFor(p) == None
  {
  }

  lemma ActivateKeepsInv(w: World, p: PluginId)
    requires Inv(w) && Enabled(w, InstallActivate(p))
    ensures Inv(Apply(w, InstallActivate(p)))
  {
    hide LocksMatch, Mutex, Sup.Inv, Runs, SupsInstalled, StateHoused, CatalogConsistent;
    ActivateKeepsCatalog(w, p);
    var cat' := Activated(w.cat, p);
    forall t | t in w.lk.tasks
      ensures TaskFacts(w.sup, cat', w.st, w.lk.tasks[t])
    {
      assert TaskFacts(w.sup, w.cat, w.st, w.lk.tasks[t]);
    }
  }

  lemma InstallRowKeepsCatalog(w: World, p: PluginId, u: Uuid)
    requires CatalogConsistent(w.cat) && SupsInstalled(w.sup, w.cat) && StateHoused(w.st, w.cat)
    requires Enabled(w, InstallRow(p, u))
    ensures CatalogConsistent(Apply(w, InstallRow(p, u)).cat) && SupsInstalled(w.sup, Apply(w, InstallRow(p, u)).cat)
    ensures StateHoused(w.st, Apply(w, InstallRow(p, u)).cat)
  {
  }

  lemma InstallAbortKeepsCatalog(w: World, p: PluginId, rollback: bool)
    requires CatalogConsistent(w.cat) && SupsInstalled(w.sup, w.cat) && StateHoused(w.st, w.cat)
    requires Enabled(w, InstallAbort(p, rollback))
    ensures CatalogConsistent(Apply(w, InstallAbort(p, rollback)).cat)
    ensures SupsInstalled(w.sup, Apply(w, InstallAbort(p, rollback)).cat)
    ensures StateHoused(w.st, Apply(w, InstallAbort(p, rollback)).cat)
  {
  }

  lemma InstallKeepsInv(w: World, step: Step)
    requires Inv(w) && Enabled(w, step) && (step.InstallRow? || step.InstallAbort?)
    ensures Inv(Apply(w, step))
  {
    hide LocksMatch, Mutex, CatalogConsistent, StateHoused, SupsInstalled, Sup.Inv, Runs, AllFacts;
    match step {
      case InstallRow(p, u) => InstallRowKeepsCatalog(w, p, u);
      case InstallAbort(p, rollback) => InstallAbortKeepsCatalog(w, p, rollback);
    }
    HarmlessKeepsAllFacts(w, w.sup, Apply(w, step).cat, w.st);
  }

  /** No step of the protocol but a start revives a generation or gives one a new
      identity. */
  lemma ProtocolAges(sup: Sup.Sys, step: Sup.Step, g: nat)
    requires Sup.Enabled(sup, step) && !step.Start?
    ensures var sup' := Sup.Apply(sup, step);
      && (Sup.Pending(sup'.reapers, g) ==> Sup.Pending(sup.reapers, g))
      && (g in sup'.sups ==>
            && g in sup.sups && sup'.sups[g].pluginId == sup.sups[g].pluginId
            && sup'.sups[g].installation == sup.sups[g].installation)
  {
  }

  lemma ProtocolIsHarmless(w: World, sup': Sup.Sys)
    requires forall g :: Sup.Pending(sup'.reapers, g) ==> Sup.Pending(w.sup.reapers, g)
    requires forall g :: g in sup'.sups ==>
                           && g in w.sup.sups && sup'.sups[g].pluginId == w.sup.sups[g].pluginId
                           && sup'.sups[g].installation == w.sup.sups[g].installation
    ensures forall p :: Harmless(w.sup, w.cat, w.st, sup', w.cat, w.st, p)
    ensures SupsInstalled(w.sup, w.cat) ==> SupsInstalled(sup', w.cat)
  {
    hide Sup.Pending;
  }

  lemma ProtocolKeepsInv(w: World, step: Sup.Step)
    requires Inv(w) && Enabled(w, Protocol(step))
    ensures Inv(Apply(w, Protocol(step)))
  {
    hide LocksMatch, Mutex, CatalogConsistent, SupsInstalled, StateHoused, AllFacts, Sup.Inv;
    hide Sup.Apply, Sup.Enabled, Sup.Pending, Harmless;
    var sup' := Sup.Apply(w.sup, step);
    Sup.StepKeepsInv(w.sup, step);
    forall g
      ensures Sup.Pending(sup'.reapers, g) ==> Sup.Pending(w.sup.reapers, g)
      ensures g in sup'.sups ==> g in w.sup.sups
      ensures g in sup'.sups ==> sup'.sups[g].pluginId == w.sup.sups[g].pluginId
      ensures g in sup'.sups ==> sup'.sups[g].installation == w.sup.sups[g].installation
    {
      ProtocolAges(w.sup, step, g);
    }
    ProtocolIsHarmless(w, sup');
    HarmlessKeepsAllFacts(w, sup', w.cat, w.st);
  }

  /** A live supervisor writes to its own installation, which is not one that any
      uninstaller has got past the running check for. */
  lemma WriterIsHoused(w: World, g: nat)
    requires Sup.Generations(w.sup.sups, w.sup.reapers, w.sup.nextGen)
    requires CatalogConsistent(w.cat) && SupsInstalled(w.sup, w.cat)
    requires g in w.sup.sups && w.sup.sups[g].phase == Sup.Live
    ensures var u, p := w.sup.sups[g].installation, w.sup.sups[g].pluginId;
      && Runs(w.sup, p) && u in w.cat.minted && w.cat.minted[u] == p
      && p in w.cat.rows && w.cat.rows[p] == u && p in w.cat.dirs
      && forall q :: w.cat.UuidFor(q) == Some(u) ==> q == p
  {
    assert Sup.Pending(w.sup.reapers, g);
    assert Runs(w.sup, w.sup.sups[g].pluginId);
  }

  lemma WriteKeepsHoused(st: Storage, cat: Catalog, u: Uuid, store: Store)
    requires StateHoused(st, cat)
    requires u in cat.minted && cat.minted[u] in cat.rows && cat.rows[cat.minted[u]] == u && cat.minted[u] in cat.dirs
    ensures StateHoused(Written(st, u, store), cat)
  {
    assert forall v :: Written(st, u, store).Owns(v) ==> st.Owns(v) || v == u;
  }

  lemma WriteKeepsInv(w: World, g: nat, store: Store)
    requires Inv(w) && Enabled(w, Write(g, store))
    ensures Inv(Apply(w, Write(g, store)))
  {
    hide LocksMatch, Mutex, StateHoused, SupsInstalled, CatalogConsistent, Runs, Sup.Generations, Sup.Matched;
    WriterIsHoused(w, g);
    hide Sup.Inv;
    var u := w.sup.sups[g].installation;
    var st' := Written(w.st, u, store);
    WriteKeepsHoused(w.st, w.cat, u, store);
    forall t | t in w.lk.tasks
      ensures TaskFacts(w.sup, w.cat, st', w.lk.tasks[t])
    {
      assert TaskFacts(w.sup, w.cat, w.st, w.lk.tasks[t]);
      assert Runs(w.sup, w.lk.tasks[t].plugin) || w.cat.UuidFor(w.lk.tasks[t].plugin) != Some(u);
    }
  }

  /** Crash and boot: nothing runs and no handler is inside, and what the boot sweep
      tombstones has no directory, so it owns nothing. */
  lemma ScanKeepsCatalog(cat: Catalog, st: Storage, scan: Scan)
    requires CatalogConsistent(cat) && StateHoused(st, cat)
    requires CanFind(cat, scan)
    ensures CatalogConsistent(Scanned(cat, scan))
    ensures StateHoused(st, Scanned(cat, scan))
  {
    assert forall p :: p in scan.healthy ==> p in cat.rows && p in cat.dirs;
    assert forall p :: p in scan.bad ==> p in cat.rows && p !in scan.healthy && p !in scan.swept;
    assert forall p :: p in scan.swept ==> p in cat.rows && p !in cat.dirs;
    hide Storage.Owns;
  }

  lemma FreshStartIsIdle(cat: Catalog, st: Storage)
    ensures Sup.Inv(Sup.INIT) && LocksMatch(IDLE) && Mutex(IDLE)
    ensures SupsInstalled(Sup.INIT, cat) && AllFacts(Sup.INIT, cat, st, IDLE.tasks)
  {
  }

  lemma RebootKeepsInv(w: World, scan: Scan)
    requires Inv(w) && Enabled(w, Reboot(scan))
    ensures Inv(Apply(w, Reboot(scan)))
  {
    hide LocksMatch, Mutex, CatalogConsistent, SupsInstalled, StateHoused, AllFacts, Sup.Inv;
    FreshStartIsIdle(Scanned(w.cat, scan), w.st);
    ScanKeepsCatalog(w.cat, w.st, scan);
  }

  lemma StepKeepsInv(w: World, step: Step)
    requires Inv(w) && Enabled(w, step)
    ensures Inv(Apply(w, step))
  {
    hide Inv, Apply;
    match step
    case Begin(_, _) => LockStepKeepsInv(w, step);
    case LockAcquired(_) => LockStepKeepsInv(w, step);
    case End(_) => LockStepKeepsInv(w, step);
    case Inside(t) => InsideKeepsInv(w, t);
    case Register(_, _, _) => RegisterKeepsInv(w, step);
    case RemoveDirOnly(_) => RemovalKeepsInv(w, step);
    case Tombstone(_) => RemovalKeepsInv(w, step);
    case InstallRow(_, _) => InstallKeepsInv(w, step);
    case InstallAbort(_, _) => InstallKeepsInv(w, step);
    case InstallActivate(p) => ActivateKeepsInv(w, p);
    case Protocol(s) => ProtocolKeepsInv(w, s);
    case Write(g, store) => WriteKeepsInv(w, g, store);
    case Reboot(scan) => RebootKeepsInv(w, scan);
  }

  lemma {:induction false} RunKeepsInv(w: World, steps: seq<Step>)
    requires Inv(w) && Legal(w, steps)
    ensures Inv(Exec(w, steps))
    decreases |steps|
  {
    hide Inv;
    if steps == [] {
    } else {
      StepKeepsInv(w, steps[0]);
      RunKeepsInv(Apply(w, steps[0]), steps[1..]);
    }
  }

  lemma ReachableKeepsInv(w: World)
    requires Reachable(w)
    ensures Inv(w)
  {
    assert Inv(EMPTY_WORLD) by {
      hide LocksMatch, Mutex, SupsInstalled, AllFacts, Sup.Inv;
      FreshStartIsIdle(EMPTY_WORLD.cat, EMPTY_WORLD.st);
    }
    hide Inv;
    var steps :| Legal(EMPTY_WORLD, steps) && Exec(EMPTY_WORLD, steps) == w;
    RunKeepsInv(EMPTY_WORLD, steps);
  }

  // ---- Main results ----

  /** End to end: in every reachable state of starts, stops, crashes, cancelled
      handlers, failed purges and retried uninstalls, a tombstoned installation owns no
      key-value rows, no blob index rows and no blob files. */
  lemma TombstonedOwnsNothing(w: World, u: Uuid)
    requires Reachable(w) && u in w.cat.tombstoned
    ensures !w.st.Owns(u)
  {
    ReachableKeepsInv(w);
    assert forall p :: p in w.cat.rows ==> w.cat.rows[p] != u;
  }

  /** The installation of a plugin, live or quarantined, by its own maps. */
  ghost predicate InstalledAs(cat: Catalog, p: PluginId, u: Uuid) {
    (p in cat.entries && cat.entries[p] == u) || (p in cat.quarantined && cat.quarantined[p] == u)
  }

  /** `cat'` is `cat` without plugin `p`, its installation `u` tombstoned. */
  ghost predicate UninstalledFrom(cat: Catalog, p: PluginId, u: Uuid, cat': Catalog) {
    && p !in cat'.rows && p !in cat'.dirs && p !in cat'.entries && p !in cat'.quarantined
    && cat'.tombstoned == cat.tombstoned + {u}
    && cat'.minted == cat.minted && cat'.installing == cat.installing
    && forall q :: q != p ==>
         && (q in cat'.dirs <==> q in cat.dirs)
         && (q in cat'.rows <==> q in cat.rows) && (q in cat.rows ==> cat'.rows[q] == cat.rows[q])
         && (q in cat'.entries <==> q in cat.entries) && (q in cat.entries ==> cat'.entries[q] == cat.entries[q])
         && (q in cat'.quarantined <==> q in cat.quarantined)
         && (q in cat.quarantined ==> cat'.quarantined[q] == cat.quarantined[q])
  }

  lemma TombstonedUninstalls(cat: Catalog, p: PluginId, u: Uuid)
    requires CatalogConsistent(cat) && InstalledAs(cat, p, u)
    ensures cat.UuidFor(p) == Some(u) && p in cat.rows && cat.rows[p] == u && u !in cat.tombstoned
    ensures UninstalledFrom(cat, p, u, Tombstoned(cat, p))
  {
  }

  lemma TombstoneApplies(w: World, t: TaskId)
    requires Enabled(w, Tombstone(t))
    ensures t in w.lk.tasks && w.cat.UuidFor(w.lk.tasks[t].plugin).Some?
    ensures Apply(w, Tombstone(t)) == w.(cat := Tombstoned(w.cat, w.lk.tasks[t].plugin))
  {
  }

  /** The last act of an uninstall takes the plugin out of every map, tombstones its
      installation and touches no other plugin, no state and no supervisor. */
  lemma TombstoneUninstalls(w: World, t: TaskId)
    requires Reachable(w) && Enabled(w, Tombstone(t))
    ensures var p, w' := w.lk.tasks[t].plugin, Apply(w, Tombstone(t));
      && w'.sup == w.sup && w'.lk == w.lk && w'.st == w.st
      && exists u :: InstalledAs(w.cat, p, u) && u !in w.cat.tombstoned && UninstalledFrom(w.cat, p, u, w'.cat)
  {
    TombstoneApplies(w, t);
    ReachableKeepsInv(w);
    hide Reachable, Enabled, Apply, Tombstoned;
    var p := w.lk.tasks[t].plugin;
    var u := if p in w.cat.entries then w.cat.entries[p] else w.cat.quarantined[p];
    assert CatalogConsistent(w.cat) && InstalledAs(w.cat, p, u);
    hide Inv, CatalogConsistent, InstalledAs, UninstalledFrom;
    TombstonedUninstalls(w.cat, p, u);
  }

  /** Only once its directory is in place is an installed package indexed, under the
      uuid minted for it. */
  lemma InstallIndexes(w: World, p: PluginId, u: Uuid)
    requires Enabled(w, InstallRow(p, u))
    ensures var w1 := Apply(w, InstallRow(p, u));
      && w1.cat.entries == w.cat.entries && w1.cat.dirs == w.cat.dirs && w1.cat.rows == w.cat.rows[p := u]
      && Enabled(w1, InstallActivate(p))
      && var w2 := Apply(w1, InstallActivate(p));
         w2.cat.entries == w.cat.entries[p := u] && w2.cat.dirs == w.cat.dirs + {p}
         && w2.cat.rows == w.cat.rows[p := u] && w2.cat.minted == w.cat.minted[u := p]
         && w2.cat.tombstoned == w.cat.tombstoned && w2.cat.quarantined == w.cat.quarantined
         && p !in w2.cat.installing
  {
  }

  /** An install that gives up leaves nothing behind but the used uuid, or its row as well
      if the rollback failed too. */
  lemma AbortUndoes(w: World, p: PluginId, u: Uuid, rollback: bool)
    requires CatalogConsistent(w.cat) && Enabled(w, InstallRow(p, u))
    ensures var w1 := Apply(w, InstallRow(p, u));
      && Enabled(w1, InstallAbort(p, rollback))
      && Apply(w1, InstallAbort(p, rollback)).cat ==
         w.cat.(minted := w.cat.minted[u := p], rows := if rollback then w.cat.rows else w.cat.rows[p := u])
  {
    assert p !in w.cat.rows && p !in w.cat.installing;
    assert w.cat.rows[p := u] - {p} == w.cat.rows && w.cat.installing[p := u] - {p} == w.cat.installing;
  }

  /** If the tombstone write fails after the directory is gone, row and index stay: the
      uninstall can be tried again. */
  lemma HalfRemoved(w: World, t: TaskId)
    requires Enabled(w, RemoveDirOnly(t))
    ensures var w' := Apply(w, RemoveDirOnly(t));
      && w'.cat.rows == w.cat.rows && w'.cat.entries == w.cat.entries && w'.cat.quarantined == w.cat.quarantined
      && w'.cat.tombstoned == w.cat.tombstoned && w'.cat.dirs == w.cat.dirs - {w.lk.tasks[t].plugin}
      && Enabled(w', Tombstone(t))
  {
  }

  /** What a boot scan makes of one live row: indexed if healthy, quarantined if bad,
      always under its own uuid; tombstoned if swept, and otherwise left as a row alone. */
  ghost predicate Reconciled(cat: Catalog, scan: Scan, p: PluginId, cat': Catalog)
    requires p in cat.rows
  {
    var u := cat.rows[p];
    && (p in cat'.entries <==> p in scan.healthy) && (p in scan.healthy ==> cat'.entries[p] == u)
    && (p in cat'.quarantined <==> p in scan.bad) && (p in scan.bad ==> cat'.quarantined[p] == u)
    && (p in cat'.rows <==> p !in scan.swept) && (p in cat'.rows ==> cat'.rows[p] == u)
    && (u in cat'.tombstoned <==> p in scan.swept)
  }

  lemma ScanReconciles(cat: Catalog, scan: Scan, p: PluginId)
    requires CatalogConsistent(cat) && p in cat.rows
    requires CanFind(cat, scan)
    ensures Reconciled(cat, scan, p, Scanned(cat, scan))
  {
    assert p in scan.healthy ==> p in cat.rows.Keys * cat.dirs;
    assert p in scan.bad ==> p in cat.rows.Keys - scan.healthy;
  }

  /** A boot reconciles every live row with the directories, tombstones nothing else,
      and leaves directories and state alone. */
  lemma BootReconciles(w: World, scan: Scan)
    requires Reachable(w) && Enabled(w, Reboot(scan))
    ensures var w' := Apply(w, Reboot(scan));
      && w'.st == w.st && w'.cat.dirs == w.cat.dirs
      && (forall p :: p in w.cat.rows ==> Reconciled(w.cat, scan, p, w'.cat))
      && w'.cat.tombstoned == w.cat.tombstoned + set p | p in scan.swept && p in w.cat.rows :: w.cat.rows[p]
  {
    hide Reachable;
    var w' := Apply(w, Reboot(scan));
    assert w'.cat == Scanned(w.cat, scan) && w'.st == w.st;
    ReachableKeepsInv(w);
    assert CatalogConsistent(w.cat);
    hide Inv, CatalogConsistent, Reconciled, Apply;
    forall p | p in w.cat.rows
      ensures Reconciled(w.cat, scan, p, w'.cat)
    {
      ScanReconciles(w.cat, scan, p);
    }
  }

  /** What a running generation writes belongs to its own installation. */
  lemma WriteIsOwned(w: World, g: nat, store: Store)
    requires Enabled(w, Write(g, store))
    ensures var u, st' := w.sup.sups[g].installation, Apply(w, Write(g, store)).st;
      && SameStateBut(w.st, st', u)
      && (u in st'.kv <==> u in w.st.kv || store == Kv)
      && (u in st'.blobIndex <==> u in w.st.blobIndex || store == BlobIndex)
      && (u in st'.blobFiles <==> u in w.st.blobFiles || store == BlobFiles)
  {
  }

  // ---- An uninstall can always be carried through ----

  /** How many actions an uninstall section is away from the tombstone. */
  function ActionsLeft(pc: Pc): nat {
    match pc
    case UninstallHolding => 5
    case NoneRunning => 4
    case LookedUp(_) => 3
    case KvPurged(_) => 2
    case IndexPurged(_) => 1
    case _ => 0
  }

  predicate InUninstall(pc: Pc) {
    pc == ReadyToTombstone || ActionsLeft(pc) > 0
  }

  function Carrying(t: TaskId, n: nat): seq<Step> {
    if n == 0 then [Tombstone(t)] else [Inside(t)] + Carrying(t, n - 1)
  }

  /** Nothing but the state of `u` differs. */
  ghost predicate SameStateBut(st: Storage, st': Storage, u: Uuid) {
    forall v {:trigger v in st'.kv} {:trigger v in st'.blobIndex} {:trigger v in st'.blobFiles} :: v != u ==>
      && (v in st'.kv <==> v in st.kv)
      && (v in st'.blobIndex <==> v in st.blobIndex)
      && (v in st'.blobFiles <==> v in st.blobFiles)
  }

  /** Handler `t` holds the mutex of an installed plugin, live or quarantined, for an
      uninstall, and no instance is registered if that has yet to be checked. */
  ghost predicate Uninstalls(w: World, t: TaskId, u: Uuid) {
    && t in w.lk.tasks && InUninstall(w.lk.tasks[t].pc) && InstalledAs(w.cat, w.lk.tasks[t].plugin, u)
    && (w.lk.tasks[t].pc == UninstallHolding ==> NoneRegistered(w.sup, w.lk.tasks[t].plugin))
  }

  /** The plugin is gone, its installation tombstoned and stateless; nothing else differs. */
  ghost predicate Uninstalled(w: World, p: PluginId, u: Uuid, w': World) {
    && UninstalledFrom(w.cat, p, u, w'.cat) && !w'.st.Owns(u) && w'.sup == w.sup && SameStateBut(w.st, w'.st, u)
  }

  lemma SectionFacts(w: World, t: TaskId, u: Uuid)
    requires Inv(w) && Uninstalls(w, t, u)
    ensures TaskFacts(w.sup, w.cat, w.st, w.lk.tasks[t]) && w.cat.UuidFor(w.lk.tasks[t].plugin) == Some(u)
    ensures UninstalledFrom(w.cat, w.lk.tasks[t].plugin, u, Tombstoned(w.cat, w.lk.tasks[t].plugin))
  {
    hide LocksMatch, Mutex, SupsInstalled, StateHoused, Sup.Inv;
    TombstonedUninstalls(w.cat, w.lk.tasks[t].plugin, u);
    hide CatalogConsistent, TaskFacts, UninstalledFrom, Tombstoned, InstalledAs;
  }

  lemma LastAction(w: World, t: TaskId, u: Uuid)
    requires Inv(w) && Uninstalls(w, t, u) && w.lk.tasks[t].pc == ReadyToTombstone
    ensures Enabled(w, Tombstone(t)) && Uninstalled(w, w.lk.tasks[t].plugin, u, Apply(w, Tombstone(t)))
  {
    SectionFacts(w, t, u);
    assert Enabled(w, Tombstone(t));
    TombstoneApplies(w, t);
    hide Inv, InstalledAs, UninstalledFrom, Tombstoned, Runs, NoneRegistered, Apply, Enabled;
  }

  /** The section's next action is possible and touches no state but its installation's. */
  lemma ActionIsOwn(w: World, t: TaskId, u: Uuid)
    requires Uninstalls(w, t, u) && w.lk.tasks[t].pc != ReadyToTombstone
    requires TaskFacts(w.sup, w.cat, w.st, w.lk.tasks[t]) && w.cat.UuidFor(w.lk.tasks[t].plugin) == Some(u)
    ensures Enabled(w, Inside(t))
    ensures var w1 := Apply(w, Inside(t));
      && Uninstalls(w1, t, u) && w1.lk.tasks[t].plugin == w.lk.tasks[t].plugin
      && w1.cat == w.cat && w1.sup == w.sup && SameStateBut(w.st, w1.st, u)
      && ActionsLeft(w1.lk.tasks[t].pc) == ActionsLeft(w.lk.tasks[t].pc) - 1
  {
    hide Runs, NoneRegistered, InstalledAs;
  }

  lemma OneAction(w: World, t: TaskId, u: Uuid)
    requires Inv(w) && Uninstalls(w, t, u) && w.lk.tasks[t].pc != ReadyToTombstone
    ensures Enabled(w, Inside(t))
    ensures var w1 := Apply(w, Inside(t));
      && Inv(w1) && Uninstalls(w1, t, u) && w1.lk.tasks[t].plugin == w.lk.tasks[t].plugin
      && w1.cat == w.cat && w1.sup == w.sup && SameStateBut(w.st, w1.st, u)
      && ActionsLeft(w1.lk.tasks[t].pc) == ActionsLeft(w.lk.tasks[t].pc) - 1
  {
    SectionFacts(w, t, u);
    hide Inv, TaskFacts, Apply, Enabled, SameStateBut, UninstalledFrom, Tombstoned;
    ActionIsOwn(w, t, u);
    StepKeepsInv(w, Inside(t));
  }

  lemma MoreActions(w: World, t: TaskId, u: Uuid, w1: World, w': World)
    requires t in w.lk.tasks && w1.cat == w.cat && w1.sup == w.sup && SameStateBut(w.st, w1.st, u)
    requires Uninstalled(w1, w.lk.tasks[t].plugin, u, w')
    ensures Uninstalled(w, w.lk.tasks[t].plugin, u, w')
  {
    hide UninstalledFrom;
  }

  /** Such a section gets through by its own actions alone: the installation ends
      tombstoned, with nothing left of the plugin. */
  lemma {:induction false} UninstallGoesThrough(w: World, t: TaskId, u: Uuid) returns (steps: seq<Step>)
    requires Inv(w) && Uninstalls(w, t, u)
    ensures steps == Carrying(t, ActionsLeft(w.lk.tasks[t].pc)) && Legal(w, steps)
    ensures Uninstalled(w, w.lk.tasks[t].plugin, u, Exec(w, steps))
    decreases ActionsLeft(w.lk.tasks[t].pc)
  {
    hide Inv, Uninstalled, SameStateBut, Legal, Exec, Enabled, Apply, InstalledAs, NoneRegistered;
    if w.lk.tasks[t].pc == ReadyToTombstone {
      LastAction(w, t, u);
      RunOfOne(w, Tombstone(t));
      steps := [Tombstone(t)];
    } else {
      OneAction(w, t, u);
      var w1 := Apply(w, Inside(t));
      var rest := UninstallGoesThrough(w1, t, u);
      RunOfMore(w, Inside(t), rest);
      MoreActions(w, t, u, w1, Exec(w1, rest));
      steps := [Inside(t)] + rest;
    }
  }

  lemma RunOfOne(w: World, step: Step)
    requires Enabled(w, step)
    ensures Legal(w, [step]) && Exec(w, [step]) == Apply(w, step)
  {
    hide Apply, Enabled;
    assert Legal(Apply(w, step), []) && Exec(Apply(w, step), []) == Apply(w, step);
  }

  lemma RunOfMore(w: World, step: Step, rest: seq<Step>)
    requires Enabled(w, step) && Legal(Apply(w, step), rest)
    ensures Legal(w, [step] + rest) && Exec(w, [step] + rest) == Exec(Apply(w, step), rest)
  {
    hide Apply, Enabled;
    assert ([step] + rest)[1..] == rest;
  }

  /** And it stays that way: nothing that still runs, or will be started, belongs to a
      tombstoned installation. */
  lemma TombstonedNeverRuns(w: World, g: nat)
    requires Reachable(w) && Sup.Pending(w.sup.reapers, g) && g in w.sup.sups
    ensures w.sup.sups[g].installation !in w.cat.tombstoned
  {
    ReachableKeepsInv(w);
  }

  /** Over all runs, per plugin id: every strong reference alive names the same mutex,
      different ids never share one, and at most one start or uninstall section is held. */
  lemma LifecycleLocksExclude(w: World, t: TaskId, u: TaskId)
    requires Reachable(w) && t in w.lk.tasks && u in w.lk.tasks
    ensures w.lk.tasks[t].plugin == w.lk.tasks[u].plugin <==> w.lk.tasks[t].lock == w.lk.tasks[u].lock
    ensures Alive(w.lk.locks.refs, w.lk.tasks[t].lock)
    ensures w.lk.tasks[t].plugin == w.lk.tasks[u].plugin && Holds(w.lk.tasks[t].pc) && Holds(w.lk.tasks[u].pc) ==>
              t == u
  {
    ReachableKeepsInv(w);
    assert Ref(w.lk.tasks[t].lock, t) in w.lk.locks.refs;
    assert w.lk.tasks[t].lock == w.lk.locks.table[w.lk.tasks[t].plugin];
    assert w.lk.tasks[u].lock == w.lk.locks.table[w.lk.tasks[u].plugin];
  }

  /** A package directory deleted behind the engine's back while it is down: the boot
      sweep then tombstones rows without purging, so the result above survives exactly
      when none of the swept installations owns state. */
  lemma HandRemovedDirectories(w: World, gone: set<PluginId>, scan: Scan)
    requires Reachable(w)
    requires Enabled(w.(cat := w.cat.(dirs := w.cat.dirs - gone)), Reboot(scan))
    ensures var w' := Apply(w.(cat := w.cat.(dirs := w.cat.dirs - gone)), Reboot(scan));
      (forall u :: u in w'.cat.tombstoned ==> !w'.st.Owns(u))
      <==> (forall p :: p in scan.swept ==> !w.st.Owns(w.cat.rows[p]))
  {
    ReachableKeepsInv(w);
    var w' := Apply(w.(cat := w.cat.(dirs := w.cat.dirs - gone)), Reboot(scan));
    assert forall p :: p in scan.swept ==> w.cat.rows[p] in w'.cat.tombstoned;
    forall u | u in w.cat.tombstoned
      ensures !w.st.Owns(u)
    {
      TombstonedOwnsNothing(w, u);
    }
  }

  // ---- A directory removed by hand can strand state ----

  lemma Extend(w: World, step: Step)
    requires Reachable(w) && Enabled(w, step)
    ensures Reachable(Apply(w, step))
  {
    var steps :| Legal(EMPTY_WORLD, steps) && Exec(EMPTY_WORLD, steps) == w;
    ExecSnoc(EMPTY_WORLD, steps, step);
  }

  lemma {:induction false} ExecSnoc(w: World, steps: seq<Step>, step: Step)
    requires Legal(w, steps) && Enabled(Exec(w, steps), step)
    ensures Legal(w, steps + [step]) && Exec(w, steps + [step]) == Apply(Exec(w, steps), step)
    decreases |steps|
  {
    hide Apply, Enabled;
    var all := steps + [step];
    if steps == [] {
      assert all[1..] == [];
    } else {
      assert all[1..] == steps[1..] + [step];
      ExecSnoc(Apply(w, steps[0]), steps[1..], step);
    }
  }

  /** One package "p", installed as "u". */
  const ONE_PACKAGE := Catalog(map["p" := "u"], map[], map["p" := "u"], {"p"}, map[], map["u" := "p"], {})

  const NO_STATE := Storage({}, {}, {})

  lemma InstalledIsReachable() returns (w: World)
    ensures Reachable(w) && w == World(Sup.INIT, IDLE, ONE_PACKAGE, NO_STATE)
  {
    assert Legal(EMPTY_WORLD, []) && Exec(EMPTY_WORLD, []) == EMPTY_WORLD;
    Extend(EMPTY_WORLD, InstallRow("p", "u"));
    w := Apply(EMPTY_WORLD, InstallRow("p", "u"));
    Extend(w, InstallActivate("p"));
    w := Apply(w, InstallActivate("p"));
    assert w.cat == ONE_PACKAGE;
  }

  lemma UninstallerIsReachable() returns (w: World)
    ensures Reachable(w) && w.cat == ONE_PACKAGE && Uninstalls(w, 0, "u") && w.lk.tasks[0].plugin == "p"
  {
    w := InstalledIsReachable();
    hide Reachable;
    Extend(w, Begin("p", true));
    w := Apply(w, Begin("p", true));
    assert w.lk.tasks == map[0 := Task("p", 0, UninstallWaiting)] && w.lk.held == map[];
    Extend(w, LockAcquired(0));
    w := Apply(w, LockAcquired(0));
    assert InstalledAs(w.cat, "p", "u");
  }

  /** Install, then uninstall: the installation is tombstoned and nothing of the plugin
      is left. */
  lemma UninstallIsReachable()
    ensures exists w :: Reachable(w) && w.cat.tombstoned == {"u"} && w.cat.rows == map[] && w.cat.dirs == {}
                        && w.cat.entries == map[] && w.cat.quarantined == map[]
  {
    var w := UninstallerIsReachable();
    ReachableKeepsInv(w);
    hide Inv, Apply, Uninstalls, Reachable;
    var steps := UninstallGoesThrough(w, 0, "u");
    ExtendRun(w, steps);
    var w' := Exec(w, steps);
    EmptyWithout(w.cat, w'.cat);
  }

  lemma EmptyWithout(cat: Catalog, cat': Catalog)
    requires cat == ONE_PACKAGE && UninstalledFrom(cat, "p", "u", cat')
    ensures cat'.tombstoned == {"u"} && cat'.rows == map[] && cat'.dirs == {}
    ensures cat'.entries == map[] && cat'.quarantined == map[]
  {
    assert forall q :: q !in cat'.rows && q !in cat'.entries && q !in cat'.quarantined && q !in cat'.dirs;
  }

  lemma {:induction false} ExtendRun(w: World, steps: seq<Step>)
    requires Reachable(w) && Legal(w, steps)
    ensures Reachable(Exec(w, steps))
    decreases |steps|
  {
    hide Reachable, Apply, Enabled;
    if steps == [] {
    } else {
      Extend(w, steps[0]);
      ExtendRun(Apply(w, steps[0]), steps[1..]);
    }
  }

  lemma WaiterIsReachable() returns (w: World)
    ensures Reachable(w) && w.sup == Sup.INIT && w.cat == ONE_PACKAGE && w.st == NO_STATE
    ensures w.lk.tasks == map[0 := Task("p", 0, StartWaiting)] && w.lk.held == map[]
  {
    w := InstalledIsReachable();
    hide Reachable;
    Extend(w, Begin("p", false));
    w := Apply(w, Begin("p", false));
  }

  lemma StarterIsReachable() returns (w: World)
    ensures Reachable(w) && w.sup == Sup.INIT && w.cat == ONE_PACKAGE && w.st == NO_STATE
    ensures w.lk.tasks == map[0 := Task("p", 0, StartObserved("u"))]
  {
    w := WaiterIsReachable();
    hide Reachable;
    Extend(w, LockAcquired(0));
    w := Apply(w, LockAcquired(0));
    Extend(w, Inside(0));
    w := Apply(w, Inside(0));
  }

  lemma WriterIsReachable() returns (w: World)
    ensures Reachable(w) && w.cat == ONE_PACKAGE && w.st.Owns("u")
  {
    w := StarterIsReachable();
    assert Admits(w.sup.reg, "a", "p", false);
    Extend(w, Register(0, "a", false));
    w := Apply(w, Register(0, "a", false));
    assert w.sup.sups[0] == Sup.Sup("a", "p", "u", Sup.Live);
    Extend(w, Write(0, Kv));
    w := Apply(w, Write(0, Kv));
  }

  /** A run in which it fails: install, start, write, delete the directory by hand, boot. */
  lemma HandRemovalCanStrandState()
    ensures exists w, gone, scan ::
              && Reachable(w)
              && Enabled(w.(cat := w.cat.(dirs := w.cat.dirs - gone)), Reboot(scan))
              && var w' := Apply(w.(cat := w.cat.(dirs := w.cat.dirs - gone)), Reboot(scan));
                 "u" in w'.cat.tombstoned && w'.st.Owns("u")
  {
    var w := WriterIsReachable();
    var bare := w.(cat := w.cat.(dirs := w.cat.dirs - {"p"}));
    var scan := Scan({}, {}, {"p"});
    assert Enabled(bare, Reboot(scan));
    var w' := Apply(bare, Reboot(scan));
    assert w.cat.rows["p"] in w'.cat.tombstoned;
  }
}
