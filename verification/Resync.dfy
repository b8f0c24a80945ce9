/**
  The resync protocol between a client and the device-state endpoints
  (crates/oxidhome-core/src/api/server.rs, get_all_device_state and
  query_device_state_changes): page through the whole store under a pinned revision,
  then follow the changes from that revision, while writers keep going.
 */
module Resync {
  import opened Prelude
  import opened Capabilities
  import opened Ordering
  import opened DeviceState
  import opened Paging
  import opened DeviceStore

  type Cache = map<Slot, Entry>

  /** `pin` is the revision every page of one resync echoes; `after` is the cursor's
      device; `since` the revision up to which changes have been followed. */
  datatype Client =
    | Idle
    | Walking(epoch: string, pin: nat, after: string, cache: Cache)
    | Following(epoch: string, since: nat, cache: Cache)

  datatype World = World(store: Store, epochs: set<string>, client: Client)

  /** An initial state given at registration, for one of the stateful capabilities. */
  datatype InitialState = InitialState(kind: StateKind, payload: string, bytes: nat)

  /** A publish, or a command result with state, names its capability in text and is
      checked against what the device declares. */
  datatype Mutation =
    | Publish(device: string, declared: seq<CapabilitySpec>, capability: string, payload: string, bytes: nat,
        owner: string)
    | Stale(pick: Row -> bool)
    | Restart(owner: string)
    | Register(device: string, owner: string, initial: seq<InitialState>)

  datatype Step =
    | Mutate(mutation: Mutation)
    | NewLife(epoch: string)
    | FirstPage(limit: Option<nat>)
    | NextPage(limit: Option<nat>)
    | Poll(limit: Option<nat>)
    | GiveUp

  const DEFAULT_CHANGES: nat := 256
  const MAX_CHANGES: nat := 1024

  function ChangesLimit(limit: Option<nat>): (n: nat)
    ensures 1 <= n <= MAX_CHANGES
    ensures limit.Some? && 1 <= limit.value <= MAX_CHANGES ==> n == limit.value
    ensures limit.Some? && limit.value > MAX_CHANGES ==> n == 1024
    ensures limit.None? || limit.value == 0 ==> n == 256
  {
    var wanted := if limit.None? || limit.value == 0 then DEFAULT_CHANGES else limit.value;
    if wanted < MAX_CHANGES then wanted else MAX_CHANGES
  }

  function Learned(cache: Cache, rows: seq<Row>): Cache {
    if rows == [] then cache else Learned(cache, rows[..|rows| - 1])[rows[|rows| - 1].slot := rows[|rows| - 1].entry]
  }

  function Seeds(initial: seq<InitialState>): (seeds: seq<Seed>)
    ensures |seeds| == |initial|
    ensures forall k :: 0 <= k < |seeds| ==>
                          seeds[k] == Seed(StateName(initial[k].kind), initial[k].payload, initial[k].bytes)
  {
    if initial == [] then []
    else [Seed(StateName(initial[0].kind), initial[0].payload, initial[0].bytes)] + Seeds(initial[1..])
  }

  ghost function Mutated(s: Store, m: Mutation): Store {
    match m
    case Publish(device, declared, capability, payload, bytes, owner) =>
      if DeclaredBy(declared, capability) then Written(s, Slot(device, capability), payload, bytes, owner) else s
    case Stale(pick) => Swept(s, pick)
    case Restart(owner) => Restarted(s, owner)
    case Register(device, owner, initial) => Seeded(s, device, owner, Seeds(initial))
  }

  /** The client takes a page of a walk pinned at `pin`. */
  ghost function PageTaken(s: Store, after: Option<string>, pin: nat, cache: Cache, limit: Option<nat>): Client {
    var page := PageOf(s.rows, after, EffectiveLimit(limit));
    var cache' := Learned(cache, Flatten(page.devices));
    if page.next.Some? then Walking(s.epoch, pin, page.next.value, cache') else Following(s.epoch, pin, cache')
  }

  /** The client takes the answer to a change query: start over if told to or if the
      epoch is not the one it knows; otherwise apply the changes and advance to the
      highest revision among them. */
  ghost function PollTaken(s: Store, client: Client, limit: Option<nat>): Client
    requires client.Following?
  {
    var page := Deltas(s, client.since, ChangesLimit(limit));
    if page.epoch != client.epoch || page.resetRequired then Idle
    else if page.entries == [] then client
    else Following(client.epoch, page.entries[|page.entries| - 1].entry.revision, Learned(client.cache, page.entries))
  }

  ghost predicate Enabled(w: World, step: Step) {
    match step
    case Mutate(_) => true
    // The store's epoch is a fresh 128-bit nonce for every life of the process.
    case NewLife(epoch) => epoch !in w.epochs
    case FirstPage(_) => w.client.Idle?
    case NextPage(_) => w.client.Walking?
    case Poll(_) => w.client.Following?
    case GiveUp => true
  }

  ghost function Apply(w: World, step: Step): World
    requires Enabled(w, step)
  {
    match step
    case Mutate(m) => w.(store := Mutated(w.store, m))
    case NewLife(epoch) => World(Store([], 0, 0, map[], epoch), w.epochs + {epoch}, w.client)
    case FirstPage(limit) => w.(client := PageTaken(w.store, None, w.store.revision, map[], limit))
    // A cursor of another life of the process is refused and the walk restarts.
    case NextPage(limit) =>
      if w.client.epoch != w.store.epoch then w.(client := Idle)
      else w.(client := PageTaken(w.store, Some(w.client.after), w.client.pin, w.client.cache, limit))
    case Poll(limit) => w.(client := PollTaken(w.store, w.client, limit))
    case GiveUp => w.(client := Idle)
  }

  ghost function Initial(epoch: string): World {
    World(Store([], 0, 0, map[], epoch), {epoch}, Idle)
  }

  ghost predicate Legal(w: World, steps: seq<Step>)
    decreases |steps|
  {
    steps == [] || (Enabled(w, steps[0]) && Legal(Apply(w, steps[0]), steps[1..]))
  }

  ghost function Exec(w: World, steps: seq<Step>): World
    requires Legal(w, steps)
    decreases |steps|
  {
    if steps == [] then w else Exec(Apply(w, steps[0]), steps[1..])
  }

  ghost predicate Reachable(w: World) {
    exists epoch, steps :: Legal(Initial(epoch), steps) && Exec(Initial(epoch), steps) == w
  }

  // ---- Invariant ----

  /** The devices a walk has already been given. */
  predicate Covered(client: Client, slot: Slot) {
    client.Following? || (client.Walking? && !Beyond(Some(client.after), slot))
  }

  ghost predicate Holds(cache: Cache, r: Row) {
    r.slot in cache && cache[r.slot] == r.entry
  }

  /** Relative to the anchor revision: slots covered or cached, and not changed since, are
      cached as they are; a cached slot the store has dropped was stale, or the watermark has passed the
      anchor, so that the next change query demands a reset. */
  ghost predicate Faithful(s: Store, client: Client, anchor: nat, cache: Cache) {
    && anchor <= s.revision
    && (forall r :: r in s.rows && r.entry.revision <= anchor && (Covered(client, r.slot) || r.slot in cache) ==>
          Holds(cache, r))
    && (forall slot :: slot in cache && !HasSlot(s.rows, slot) && s.evictedThrough <= anchor ==>
          cache[slot].quality == DeviceState.Stale)
  }

  ghost predicate ClientInv(s: Store, client: Client) {
    match client
    case Idle => true
    case Walking(epoch, pin, _, cache) => epoch == s.epoch ==> Faithful(s, client, pin, cache)
    case Following(epoch, since, cache) => epoch == s.epoch ==> Faithful(s, client, since, cache)
  }

  ghost predicate Inv(w: World) {
    && StoreInv(w.store) && RealNames(w.store.rows) && ClientInv(w.store, w.client)
    && w.store.epoch in w.epochs && (!w.client.Idle? ==> w.client.epoch in w.epochs)
  }

  lemma MutatedKeeps(s: Store, m: Mutation)
    requires StoreInv(s)
    ensures StoreInv(Mutated(s, m)) && Evolves(s, Mutated(s, m))
  {
    hide StoreInv, Evolves, Written, Swept;
    match m
    case Publish(device, _, capability, payload, bytes, owner) =>
      WrittenKeepsInv(s, Slot(device, capability), payload, bytes, owner);
      WrittenEvolves(s, Slot(device, capability), payload, bytes, owner);
      NothingEvolves(s);
    case Stale(pick) =>
      SweptKeepsInv(s, pick);
      SweptEvolves(s, pick);
    case Restart(owner) => RestartedKeeps(s, owner);
    case Register(device, owner, initial) => SeededKeeps(s, device, owner, Seeds(initial));
  }

  lemma NothingEvolves(s: Store)
    ensures Evolves(s, s)
  {
  }

  /** The gates keep every slot of the store under a real capability name. */
  lemma MutatedKeepsNames(s: Store, m: Mutation)
    requires StoreInv(s) && RealNames(s.rows)
    ensures RealNames(Mutated(s, m).rows)
  {
    hide StoreInv, RealNames, Written, Swept, Seeded;
    match m
    case Publish(device, declared, capability, payload, bytes, owner) =>
      if DeclaredBy(declared, capability) {
        assert IsCapabilityName(capability);
        WrittenKeepsNames(s, Slot(device, capability), payload, bytes, owner);
      }
    case Stale(pick) => SweptKeepsNames(s, pick);
    case Restart(owner) => SweptKeepsNames(s, OwnedBy(owner));
    case Register(device, owner, initial) =>
      forall seed | seed in Seeds(initial)
        ensures IsCapabilityName(seed.capability)
      {
        var k :| 0 <= k < |initial| && Seeds(initial)[k] == seed;
        StateNameIsCapabilityName(initial[k].kind);
      }
      SeededKeepsNames(s, device, owner, Seeds(initial));
  }

  /** Writers never invalidate what a client has been told up to its anchor. */
  lemma EvolvingKeepsFaithful(s: Store, s': Store, client: Client, anchor: nat, cache: Cache)
    requires StoreInv(s) && Evolves(s, s') && Faithful(s, client, anchor, cache)
    ensures Faithful(s', client, anchor, cache)
  {
    forall slot | slot in cache && !HasSlot(s'.rows, slot) && s'.evictedThrough <= anchor
      ensures cache[slot].quality == DeviceState.Stale
    {
      if HasSlot(s.rows, slot) {
        var x :| x in s.rows && x.slot == slot;
        assert Holds(cache, x);
      }
    }
  }

  lemma {:induction false} LearnedFacts(cache: Cache, rows: seq<Row>)
    requires forall x, y :: x in rows && y in rows && x.slot == y.slot ==> x == y
    ensures forall r :: r in rows ==> Holds(Learned(cache, rows), r)
    ensures forall slot :: slot in Learned(cache, rows) <==> slot in cache || HasSlot(rows, slot)
    ensures forall slot :: slot in cache && !HasSlot(rows, slot) ==>
                             Learned(cache, rows)[slot] == cache[slot]
  {
    if rows == [] {
    } else {
      var n := |rows| - 1;
      LearnedFacts(cache, rows[..n]);
      assert rows == rows[..n] + [rows[n]];
      forall slot
        ensures HasSlot(rows, slot) <==> HasSlot(rows[..n], slot) || slot == rows[n].slot
      {
        assert rows[n] in rows;
      }
    }
  }

  /** What one page hands over: rows of the store, and all of its rows between the old
      cursor and the new one (or the end). */
  lemma PageCovers(rows: seq<Row>, after: Option<string>, limit: nat)
    requires Sorted(rows) && limit > 0
    ensures var p := PageOf(rows, after, limit);
      && (forall r :: r in Flatten(p.devices) ==> r in rows && Beyond(after, r.slot))
      && (forall r :: r in rows && Beyond(after, r.slot) && (p.next.None? || !Beyond(p.next, r.slot)) ==>
            r in Flatten(p.devices))
  {
    var p, range := PageOf(rows, after, limit), Range(rows, after);
    RangeFacts(rows, after);
    if p.next.None? {
      LastPageHasAll(rows, after, limit);
      GroupsFlatten(range);
    } else {
      PageCut(rows, after, limit);
      hide PageOf, Groups, Flatten, Range, Sorted;
      var m := |Flatten(p.devices)|;
      assert p.next == Some(p.next.value);
      forall r | r in range && !Beyond(p.next, r.slot)
        ensures r in range[..m]
      {
        BeforeTheCut(range, p.next.value, m, r);
      }
    }
  }

  lemma BeforeTheCut(range: seq<Row>, d: string, m: nat, r: Row)
    requires Sorted(range) && m < |range| && Less(d, range[m].slot.device)
    requires r in range && !Beyond(Some(d), r.slot)
    ensures r in range[..m]
  {
    var i :| 0 <= i < |range| && range[i] == r;
    if i >= m {
      AheadOfCursor(d, range[m], r);
    }
    assert range[..m][i] == r;
  }

  /** A page advances what the client knows, under the same anchor: a page is taken from
      one state of the store, later than the anchor. */
  lemma PageKeepsFaithful(s: Store, client: Client, after: Option<string>, pin: nat, cache: Cache, limit: Option<nat>)
    requires StoreInv(s) && pin <= s.revision
    requires forall r :: r in s.rows && r.entry.revision <= pin && (!Beyond(after, r.slot) || r.slot in cache) ==>
              Holds(cache, r)
    requires forall slot :: slot in cache && !HasSlot(s.rows, slot) && s.evictedThrough <= pin ==>
                              cache[slot].quality == DeviceState.Stale
    ensures var client' := PageTaken(s, after, pin, cache, limit);
      Faithful(s, client', pin, client'.cache)
  {
    var n := EffectiveLimit(limit);
    var page := PageOf(s.rows, after, n);
    var client' := PageTaken(s, after, pin, cache, limit);
    PageCovers(s.rows, after, n);
    SlotNamesRow(s.rows);
    var rows := Flatten(page.devices);
    LearnedFacts(cache, rows);
    hide PageOf, Learned, Beyond, Sorted, DistinctRevisions, Flatten;
    forall r | r in s.rows && r.entry.revision <= pin && (Covered(client', r.slot) || r.slot in client'.cache)
      ensures Holds(client'.cache, r)
    {
      if r !in rows {
        assert !HasSlot(rows, r.slot);
      }
    }
    forall slot | slot in client'.cache && !HasSlot(s.rows, slot)
      ensures !HasSlot(rows, slot)
    {
    }
  }

  /** The changes sent are rows of the store, and every row between the old and the new
      anchor is among them. */
  lemma DeltasCover(s: Store, since: nat, limit: nat)
    requires StoreInv(s) && since <= s.revision && s.evictedThrough <= since && limit > 0
    ensures var entries := Deltas(s, since, limit).entries;
      && (forall r :: r in entries ==> r in s.rows && r.entry.revision > since)
      && (entries == [] ==> forall r :: r in s.rows ==> r.entry.revision <= since)
      && (entries != [] ==>
            var last := entries[|entries| - 1].entry.revision;
            && since < last <= s.revision
            && forall r :: r in s.rows && since < r.entry.revision <= last ==> r in entries)
  {
    var newer := Newer(s.rows, since);
    var sorted := SortByRevision(newer);
    SelectMembers(s.rows, NewerThan(since));
    SelectKeepsDistinct(s.rows, NewerThan(since));
    SortByRevisionSorts(newer);
    hide SortByRevision, Newer, Select, Sorted, DistinctRevisions, Ascending;
    TruncatedCovers(sorted, limit);
  }

  /** A truncated ascending list has everything up to its own last revision. */
  lemma TruncatedCovers(sorted: seq<Row>, limit: nat)
    requires Ascending(sorted) && limit > 0
    ensures var entries := Truncated(sorted, limit);
      && (forall r :: r in entries ==> r in sorted)
      && (entries == [] ==> sorted == [])
      && (entries != [] ==>
            entries[|entries| - 1] in entries
            && forall r :: r in sorted && r.entry.revision <= entries[|entries| - 1].entry.revision ==> r in entries)
  {
    var entries := Truncated(sorted, limit);
    if entries != [] {
      var n := |entries| - 1;
      forall r | r in sorted && r.entry.revision <= entries[n].entry.revision
        ensures r in entries
      {
        var i :| 0 <= i < |sorted| && sorted[i] == r;
        assert entries[n] == sorted[n] && i <= n;
        assert entries[i] == r;
      }
    }
  }

  lemma PollKeepsFaithful(s: Store, client: Client, limit: Option<nat>)
    requires StoreInv(s) && client.Following? && client.epoch == s.epoch
    requires Faithful(s, client, client.since, client.cache)
    ensures var client' := PollTaken(s, client, limit);
      client'.Following? ==> client'.epoch == s.epoch && Faithful(s, client', client'.since, client'.cache)
  {
    var page := Deltas(s, client.since, ChangesLimit(limit));
    var client' := PollTaken(s, client, limit);
    if !page.resetRequired && page.entries != [] {
      DeltasCover(s, client.since, ChangesLimit(limit));
      SlotNamesRow(s.rows);
      hide Deltas, Sorted, DistinctRevisions;
      LearnedFacts(client.cache, page.entries);
      hide Learned;
      forall r | r in s.rows && r.entry.revision <= client'.since
        ensures Holds(client'.cache, r)
      {
        if r !in page.entries {
          assert !HasSlot(page.entries, r.slot);
          assert r.entry.revision <= client.since;
        }
      }
    }
  }

  lemma StepKeepsInv(w: World, step: Step)
    requires Inv(w) && Enabled(w, step)
    ensures Inv(Apply(w, step))
  {
    match step
    case Mutate(m) =>
      MutatedKeeps(w.store, m);
      MutatedKeepsNames(w.store, m);
      hide StoreInv, Mutated, RealNames;
      MutateKeepsClient(w.store, Mutated(w.store, m), w.client);
    case NewLife(_) =>
    case FirstPage(limit) =>
      hide PageTaken, Sorted, DistinctRevisions;
      FirstPageKeepsClient(w.store, limit);
    case NextPage(limit) =>
      hide Sorted, DistinctRevisions, Learned, PageOf;
      if w.client.epoch == w.store.epoch {
        PageKeepsFaithful(w.store, w.client, Some(w.client.after), w.client.pin, w.client.cache, limit);
      }
    case Poll(limit) =>
      hide Sorted, DistinctRevisions, Learned, Deltas;
      if w.client.epoch == w.store.epoch {
        PollKeepsFaithful(w.store, w.client, limit);
      }
    case GiveUp =>
  }

  lemma FirstPageKeepsClient(s: Store, limit: Option<nat>)
    requires StoreInv(s)
    ensures var client' := PageTaken(s, None, s.revision, map[], limit);
      ClientInv(s, client') && !client'.Idle? && client'.epoch == s.epoch
  {
    PageKeepsFaithful(s, Idle, None, s.revision, map[], limit);
  }

  lemma MutateKeepsClient(s: Store, s': Store, client: Client)
    requires StoreInv(s) && Evolves(s, s') && ClientInv(s, client)
    ensures ClientInv(s', client)
  {
    match client
    case Idle =>
    case Walking(epoch, pin, _, cache) =>
      if epoch == s.epoch { EvolvingKeepsFaithful(s, s', client, pin, cache); }
    case Following(epoch, since, cache) =>
      if epoch == s.epoch { EvolvingKeepsFaithful(s, s', client, since, cache); }
  }

  lemma {:induction false} RunKeepsInv(w: World, steps: seq<Step>)
    requires Inv(w) && Legal(w, steps)
    ensures Inv(Exec(w, steps))
    decreases |steps|
  {
    hide Inv, Apply;
    if steps == [] {
    } else {
      StepKeepsInv(w, steps[0]);
      RunKeepsInv(Apply(w, steps[0]), steps[1..]);
    }
  }

  // ---- Main results ----

  /** The client's cache is the store: exactly its value for every slot in the store,
      and nothing fresh beside it. */
  ghost predicate Converged(s: Store, cache: Cache) {
    && (forall r :: r in s.rows ==> Holds(cache, r))
    && (forall slot :: slot in cache && !HasSlot(s.rows, slot) ==> cache[slot].quality == DeviceState.Stale)
  }

  /** The client followed the changes to an empty answer of its own epoch. */
  ghost predicate PolledDry(w: World, limit: nat) {
    && w.client.Following? && limit > 0
    && var page := Deltas(w.store, w.client.since, limit);
       page.epoch == w.client.epoch && !page.resetRequired && page.entries == []
  }

  lemma DryMeansConverged(w: World, limit: nat)
    requires Inv(w) && PolledDry(w, limit)
    ensures Converged(w.store, w.client.cache)
  {
    DeltasCover(w.store, w.client.since, limit);
    hide Deltas, Sorted, DistinctRevisions;
  }

  /** In every run, however the pages and polls interleave with writers, sweeps,
      evictions and restarts of the daemon: a client that followed the changes to an
      empty, non-reset answer of its own epoch holds exactly the store's state. */
  lemma EmptyPollMeansConverged(w: World, limit: nat)
    requires Reachable(w) && PolledDry(w, limit)
    ensures Converged(w.store, w.client.cache)
  {
    ReachableKeepsInv(w);
    DryMeansConverged(w, limit);
  }

  lemma ReachableKeepsInv(w: World)
    requires Reachable(w)
    ensures Inv(w)
  {
    var epoch, steps :| Legal(Initial(epoch), steps) && Exec(Initial(epoch), steps) == w;
    RunKeepsInv(Initial(epoch), steps);
  }

  // ---- What writers did is what a converged client sees ----

  /** The client acts and nobody writes. */
  ghost predicate Quiet(steps: seq<Step>) {
    forall k :: 0 <= k < |steps| ==> !steps[k].Mutate? && !steps[k].NewLife?
  }

  lemma {:induction false} QuietKeepsStore(w: World, steps: seq<Step>)
    requires Legal(w, steps) && Quiet(steps)
    ensures Exec(w, steps).store == w.store
    decreases |steps|
  {
    if steps == [] {
    } else {
      assert !steps[0].Mutate? && !steps[0].NewLife?;
      QuietKeepsStore(Apply(w, steps[0]), steps[1..]);
    }
  }

  /** `w'` is a state after the mutation in which the client, by whatever steps of its
      own, has caught up. */
  ghost predicate CaughtUpAfter(w: World, m: Mutation, w': World) {
    && Reachable(w)
    && (exists steps :: Legal(Apply(w, Mutate(m)), steps) && Quiet(steps) && Exec(Apply(w, Mutate(m)), steps) == w')
    && exists limit :: PolledDry(w', limit)
  }

  lemma SeesMutation(w: World, m: Mutation, w': World)
    requires CaughtUpAfter(w, m, w')
    ensures StoreInv(w.store) && Converged(Mutated(w.store, m), w'.client.cache)
  {
    var w1 := Apply(w, Mutate(m));
    var steps :| Legal(w1, steps) && Quiet(steps) && Exec(w1, steps) == w';
    var limit :| PolledDry(w', limit);
    ReachableKeepsInv(w);
    StepKeepsInv(w, Mutate(m));
    RunKeepsInv(w1, steps);
    QuietKeepsStore(w1, steps);
    hide Mutated, StoreInv, Reachable, Legal, Exec, Quiet;
    DryMeansConverged(w', limit);
  }

  /** After a publish of a declared capability, a client that has caught up holds exactly
      what was published, fresh, under the next revision; an undeclared one stores nothing. */
  lemma PublishIsSeen(w: World, m: Mutation, w': World)
    requires CaughtUpAfter(w, m, w') && m.Publish?
    ensures (exists spec :: spec in m.declared && CapabilityName(spec) == m.capability) ==>
              var slot, generations := Slot(m.device, m.capability), w.store.generations;
              && slot in w'.client.cache
              && w'.client.cache[slot] ==
                 Entry(m.payload, m.bytes, w.store.revision + 1, Fresh,
                       if m.owner in generations then generations[m.owner] else 0, m.owner)
    ensures !(exists spec :: spec in m.declared && CapabilityName(spec) == m.capability) ==>
              w'.store == w.store
  {
    SeesMutation(w, m, w');
    WrittenStores(w.store, Slot(m.device, m.capability), m.payload, m.bytes, m.owner);
    if !DeclaredBy(m.declared, m.capability) {
      var steps :| Legal(Apply(w, Mutate(m)), steps) && Quiet(steps) && Exec(Apply(w, Mutate(m)), steps) == w';
      QuietKeepsStore(Apply(w, Mutate(m)), steps);
    }
    hide StoreInv, Written, CaughtUpAfter;
  }

  /** After the end of a supervisor's life, such a client holds nothing of it fresh. */
  lemma RestartIsSeen(w: World, m: Mutation, w': World)
    requires CaughtUpAfter(w, m, w') && m.Restart?
    ensures forall slot :: slot in w'.client.cache && w'.client.cache[slot].owner == m.owner ==>
                             w'.client.cache[slot].quality == DeviceState.Stale
  {
    SeesMutation(w, m, w');
    RestartedStores(w.store, m.owner);
    hide StoreInv, Restarted, CaughtUpAfter, SweptTo;
    assert forall slot :: HasSlot(Restarted(w.store, m.owner).rows, slot) ==>
        exists r :: r in Restarted(w.store, m.owner).rows && r.slot == slot && Holds(w'.client.cache, r);
  }

  /** No later initial state is for the same capability. */
  predicate IsLastState(initial: seq<InitialState>, k: nat) {
    k < |initial| && forall j :: k < j < |initial| ==> initial[j].kind != initial[k].kind
  }

  predicate HasState(initial: seq<InitialState>, capability: string) {
    exists k :: 0 <= k < |initial| && StateName(initial[k].kind) == capability
  }

  /** After a registration, such a client holds the last initial state given for each
      capability, fresh and owned by the registering instance, and nothing else of the
      device fresh. */
  lemma RegisterIsSeen(w: World, m: Mutation, w': World)
    requires CaughtUpAfter(w, m, w') && m.Register?
    ensures forall k {:trigger m.initial[k]} :: 0 <= k < |m.initial| && IsLastState(m.initial, k) ==>
              var slot := Slot(m.device, StateName(m.initial[k].kind));
              && slot in w'.client.cache
              && var e := w'.client.cache[slot];
                 e.payload == m.initial[k].payload && e.fieldBytes == m.initial[k].bytes
                 && e.quality == Fresh && e.owner == m.owner
    ensures forall slot ::
              slot in w'.client.cache && slot.device == m.device && !HasState(m.initial, slot.capability) ==>
                w'.client.cache[slot].quality == DeviceState.Stale
  {
    SeesMutation(w, m, w');
    var seeds := Seeds(m.initial);
    SeededStores(w.store, m.device, m.owner, seeds);
    var rows := Seeded(w.store, m.device, m.owner, seeds).rows;
    assert Mutated(w.store, m).rows == rows;
    hide StoreInv, Seeded, CaughtUpAfter, SeededWith, Mutated, Seeds;
    forall k | 0 <= k < |m.initial| && IsLastState(m.initial, k)
      ensures var slot := Slot(m.device, StateName(m.initial[k].kind));
        && slot in w'.client.cache
        && var e := w'.client.cache[slot];
           e.payload == m.initial[k].payload && e.fieldBytes == m.initial[k].bytes
           && e.quality == Fresh && e.owner == m.owner
    {
      SeedIsHeld(w.store, m, rows, w'.client.cache, k);
    }
    UnseededIsStale(w.store, m, rows, w'.client.cache);
  }

  lemma SeedIsHeld(s: Store, m: Mutation, rows: seq<Row>, cache: Cache, k: nat)
    requires m.Register? && SeededWith(s, m.device, m.owner, Seeds(m.initial), rows) && IsLastState(m.initial, k)
    requires forall r :: r in rows ==> Holds(cache, r)
    ensures var slot := Slot(m.device, StateName(m.initial[k].kind));
      && slot in cache && cache[slot].payload == m.initial[k].payload && cache[slot].fieldBytes == m.initial[k].bytes
      && cache[slot].quality == Fresh && cache[slot].owner == m.owner
  {
    LastStateIsLastSeed(m.initial, k);
    var seed := Seeds(m.initial)[k];
    var r :| r in rows && HoldsSeed(s, m.device, m.owner, seed, r);
    assert Holds(cache, r);
  }

  lemma UnseededIsStale(s: Store, m: Mutation, rows: seq<Row>, cache: Cache)
    requires m.Register? && SeededWith(s, m.device, m.owner, Seeds(m.initial), rows)
    requires forall r :: r in rows ==> Holds(cache, r)
    requires forall slot :: slot in cache && !HasSlot(rows, slot) ==> cache[slot].quality == DeviceState.Stale
    ensures forall slot :: slot in cache && slot.device == m.device && !HasState(m.initial, slot.capability) ==>
                             cache[slot].quality == DeviceState.Stale
  {
    forall slot | slot in cache && slot.device == m.device && !HasState(m.initial, slot.capability)
      ensures cache[slot].quality == DeviceState.Stale
    {
      assert !Names(Seeds(m.initial), slot.capability);
      if HasSlot(rows, slot) {
        var r :| r in rows && r.slot == slot;
        assert Holds(cache, r);
      }
    }
  }

  lemma LastStateIsLastSeed(initial: seq<InitialState>, k: nat)
    requires IsLastState(initial, k)
    ensures IsLastOf(Seeds(initial), k)
  {
  }

  /** Polling makes progress: each non-empty answer leaves fewer changes outstanding, so
      without further writes the empty answer comes after finitely many polls. */
  lemma PollShrinks(s: Store, client: Client, limit: Option<nat>)
    requires StoreInv(s) && client.Following? && PollTaken(s, client, limit).Following?
    requires Deltas(s, client.since, ChangesLimit(limit)).entries != []
    ensures |Newer(s.rows, PollTaken(s, client, limit).since)| < |Newer(s.rows, client.since)|
  {
    DeltasCover(s, client.since, ChangesLimit(limit));
    var since' := PollTaken(s, client, limit).since;
    var entries := Deltas(s, client.since, ChangesLimit(limit)).entries;
    var last := entries[|entries| - 1];
    SelectMembers(s.rows, NewerThan(client.since));
    SelectMembers(s.rows, NewerThan(since'));
    SelectKeepsDistinct(s.rows, NewerThan(since'));
    hide Select, SortByRevision, Sorted, Deltas;
    FewerNewer(s, client.since, since', last);
  }

  lemma FewerNewer(s: Store, since: nat, since': nat, last: Row)
    requires DistinctRevisions(s.rows) && last in s.rows && last.entry.revision == since' > since
    ensures |Newer(s.rows, since')| < |Newer(s.rows, since)|
  {
    SelectMembers(s.rows, NewerThan(since));
    SelectMembers(s.rows, NewerThan(since'));
    SelectKeepsDistinct(s.rows, NewerThan(since'));
    var a := [last] + Newer(s.rows, since');
    hide Select;
    assert DistinctRevisions(a) by {
      forall i | 0 <= i < |Newer(s.rows, since')|
        ensures Newer(s.rows, since')[i].entry.revision != last.entry.revision
      {
        assert Newer(s.rows, since')[i] in Newer(s.rows, since');
      }
    }
    NoLongerThan(a, Newer(s.rows, since));
  }

  // ---- A resync with nobody writing ----

  /** The client keeps fetching pages until the walk is over, at most `n` of them. */
  ghost function WalkOn(w: World, limit: Option<nat>, n: nat): World
    decreases n
  {
    if n == 0 || !w.client.Walking? then w else WalkOn(Apply(w, NextPage(limit)), limit, n - 1)
  }

  /** One more page of a quiet walk leaves fewer rows ahead, or ends it at the pin. */
  lemma QuietPage(s: Store, after: Option<string>, pin: nat, cache: Cache, limit: Option<nat>)
    requires StoreInv(s) && RealNames(s.rows)
    ensures var client' := PageTaken(s, after, pin, cache, limit);
      && client'.epoch == s.epoch
      && (client'.Walking? ==> client'.pin == pin && |Range(s.rows, Some(client'.after))| < |Range(s.rows, after)|)
      && (client'.Following? ==> client'.since == pin)
  {
    var n := EffectiveLimit(limit);
    if PageOf(s.rows, after, n).next.Some? {
      RealNamesAreSafe(s.rows);
      CursorResumes(s.rows, after, n);
    }
  }

  lemma {:induction false} QuietWalkEnds(w: World, limit: Option<nat>) returns (n: nat)
    requires Inv(w) && w.client.Walking? && w.client.epoch == w.store.epoch
    ensures var w' := WalkOn(w, limit, n);
      Inv(w') && w'.store == w.store && w'.client.Following? && w'.client.epoch == w.store.epoch
      && w'.client.since == w.client.pin
    decreases |Range(w.store.rows, Some(w.client.after))|
  {
    var w1 := QuietStep(w, limit);
    hide Inv, Range, Apply;
    if w1.client.Walking? {
      var m := QuietWalkEnds(w1, limit);
      n := m + 1;
      assert WalkOn(w, limit, n) == WalkOn(w1, limit, m);
    } else {
      n := 1;
      assert WalkOn(w1, limit, 0) == w1;
      assert WalkOn(w, limit, n) == WalkOn(w1, limit, 0);
    }
  }

  lemma QuietStep(w: World, limit: Option<nat>) returns (w1: World)
    requires Inv(w) && w.client.Walking? && w.client.epoch == w.store.epoch
    ensures w1 == Apply(w, NextPage(limit)) && Inv(w1) && w1.store == w.store && w1.client.epoch == w.store.epoch
    ensures w1.client.Walking? ==>
              w1.client.pin == w.client.pin
              && |Range(w.store.rows, Some(w1.client.after))| < |Range(w.store.rows, Some(w.client.after))|
    ensures !w1.client.Walking? ==> w1.client.Following? && w1.client.since == w.client.pin
  {
    w1 := Apply(w, NextPage(limit));
    StepKeepsInv(w, NextPage(limit));
    QuietPage(w.store, Some(w.client.after), w.client.pin, w.client.cache, limit);
    assert w1 == w.(client := PageTaken(w.store, Some(w.client.after), w.client.pin, w.client.cache, limit));
    PageTakenWalksOrFollows(w.store, Some(w.client.after), w.client.pin, w.client.cache, limit);
  }

  lemma PageTakenWalksOrFollows(s: Store, after: Option<string>, pin: nat, cache: Cache, limit: Option<nat>)
    ensures !PageTaken(s, after, pin, cache, limit).Idle?
  {
  }

  /** From any reachable state with nobody writing, a resync by any page size ends after
      finitely many pages, needs no change query to be repeated, and leaves the client
      with the store's state. */
  lemma QuietResyncConverges(w: World, limit: Option<nat>) returns (n: nat)
    requires Reachable(w) && w.client.Idle?
    ensures var w' := WalkOn(Apply(w, FirstPage(limit)), limit, n);
      && w'.store == w.store && w'.client.Following?
      && Deltas(w.store, w'.client.since, 1) == DeltaPage(w'.client.epoch, w.store.revision, [], false)
      && Converged(w.store, w'.client.cache)
  {
    ReachableKeepsInv(w);
    var w1 := Apply(w, FirstPage(limit));
    StepKeepsInv(w, FirstPage(limit));
    QuietPage(w.store, None, w.store.revision, map[], limit);
    if w1.client.Walking? {
      n := QuietWalkEnds(w1, limit);
    } else {
      n := 0;
    }
    var w' := WalkOn(w1, limit, n);
    CaughtUp(w'.store, w'.client);
  }

  lemma CaughtUp(s: Store, client: Client)
    requires StoreInv(s) && client.Following? && client.epoch == s.epoch && client.since == s.revision
    requires ClientInv(s, client)
    ensures Deltas(s, client.since, 1) == DeltaPage(s.epoch, s.revision, [], false)
    ensures Converged(s, client.cache)
  {
    var newer := Newer(s.rows, client.since);
    assert |newer| > 0 ==> newer[0] in newer;
    SelectMembers(s.rows, NewerThan(client.since));
    assert newer == [];
  }

  // ---- Walks over a reachable store ----

  lemma ReachableStore(w: World)
    requires Reachable(w)
    ensures StoreInv(w.store) && RealNames(w.store.rows) && CursorSafe(w.store.rows)
  {
    ReachableKeepsInv(w);
    RealNamesAreSafe(w.store.rows);
  }

  /** In every reachable state, a cursor resumes exactly after the page that issued it. */
  lemma ReachableCursorResumes(w: World, after: Option<string>, limit: nat)
    requires Reachable(w) && limit > 0 && PageOf(w.store.rows, after, limit).next.Some?
    ensures var p := PageOf(w.store.rows, after, limit);
      && 0 < |Flatten(p.devices)| <= |Range(w.store.rows, after)|
      && Range(w.store.rows, p.next) == Range(w.store.rows, after)[|Flatten(p.devices)|..]
      && Groups(Range(w.store.rows, p.next)) == Groups(Range(w.store.rows, after))[|p.devices|..]
  {
    ReachableStore(w);
    CursorResumes(w.store.rows, after, limit);
  }

  /** And with nobody writing, the pages concatenate to the store's whole listing, every
      device on one page, at most one page per device. */
  lemma ReachablePagesListEverything(w: World, limit: nat)
    requires Reachable(w) && limit > 0
    ensures Sorted(w.store.rows) && CursorSafe(w.store.rows)
    ensures Flatten(Pages(w.store.rows, None, limit)) == Groups(w.store.rows)
    ensures |Pages(w.store.rows, None, limit)| <= Max(1, |Groups(w.store.rows)|)
    ensures Flatten(Flatten(Pages(w.store.rows, None, limit))) == w.store.rows
  {
    ReachableStore(w);
    PagesListEverything(w.store.rows, None, limit);
    SelectAll(w.store.rows, PastCursor(None));
    GroupsFlatten(w.store.rows);
  }
}
