/**
  The device-state store as an object: every method is one critical section of the
  store's lock, tied to the functions of `DeviceState` and `Paging`.
 */
module DeviceStore {
  import opened Prelude
  import opened Capabilities
  import opened DeviceState
  import opened Paging

  /** One capability of a device's initial state. */
  datatype Seed = Seed(capability: string, payload: string, bytes: nat)

  function OfDevice(device: string): Row -> bool {
    (r: Row) => r.slot.device == device
  }

  function OwnedBy(owner: string): Row -> bool {
    (r: Row) => r.entry.owner == owner
  }

  function NewerThan(since: nat): Row -> bool {
    (r: Row) => r.entry.revision > since
  }

  function NotAt(slot: Slot): Row -> bool {
    (r: Row) => r.slot != slot
  }

  /** Re-registration: sweep the device, then write each seed back. */
  function Seeded(s: Store, device: string, owner: string, seeds: seq<Seed>): Store {
    if seeds == [] then Swept(s, OfDevice(device))
    else
      var last := seeds[|seeds| - 1];
      Written(Seeded(s, device, owner, seeds[..|seeds| - 1]), Slot(device, last.capability), last.payload, last.bytes,
          owner)
  }

  /** A supervisor life ends: sweep the owner and advance its generation. */
  function Restarted(s: Store, owner: string): Store {
    var swept := Swept(s, OwnedBy(owner));
    swept.(generations := swept.generations[owner := GenerationOf(swept, owner) + 1])
  }

  /** The rows a change query sends: those newer than `since`, oldest first, up to `limit`. */
  function Newer(rows: seq<Row>, since: nat): seq<Row> {
    Select(rows, NewerThan(since))
  }

  function Truncated(rows: seq<Row>, limit: nat): seq<Row> {
    if |rows| <= limit then rows else rows[..limit]
  }

  datatype DeltaPage = DeltaPage(epoch: string, current: nat, entries: seq<Row>, resetRequired: bool)

  function Deltas(s: Store, since: nat, limit: nat): DeltaPage {
    if since > s.revision || since < s.evictedThrough then DeltaPage(s.epoch, s.revision, [], true)
    else DeltaPage(s.epoch, s.revision, Truncated(SortByRevision(Newer(s.rows, since)), limit), false)
  }

  lemma SeededKeeps(s: Store, device: string, owner: string, seeds: seq<Seed>)
    requires StoreInv(s)
    ensures StoreInv(Seeded(s, device, owner, seeds)) && Evolves(s, Seeded(s, device, owner, seeds))
  {
    hide StoreInv, Evolves, Swept, Written;
    if seeds == [] {
      SweptKeepsInv(s, OfDevice(device));
      SweptEvolves(s, OfDevice(device));
    } else {
      var last := seeds[|seeds| - 1];
      var t := Seeded(s, device, owner, seeds[..|seeds| - 1]);
      SeededKeeps(s, device, owner, seeds[..|seeds| - 1]);
      WrittenKeepsInv(t, Slot(device, last.capability), last.payload, last.bytes, owner);
      WrittenEvolves(t, Slot(device, last.capability), last.payload, last.bytes, owner);
      EvolvesTransitive(s, t, Seeded(s, device, owner, seeds));
    }
  }

  /** The row a seed asks for. */
  ghost predicate HoldsSeed(s: Store, device: string, owner: string, seed: Seed, r: Row) {
    && r.slot == Slot(device, seed.capability)
    && r.entry.payload == seed.payload && r.entry.fieldBytes == seed.bytes && r.entry.quality == Fresh
    && r.entry.owner == owner && r.entry.generation == GenerationOf(s, owner) && r.entry.revision > s.revision
  }

  predicate Names(seeds: seq<Seed>, capability: string) {
    exists k :: 0 <= k < |seeds| && seeds[k].capability == capability
  }

  predicate IsLastOf(seeds: seq<Seed>, k: nat) {
    k < |seeds| && forall j :: k < j < |seeds| ==> seeds[j].capability != seeds[k].capability
  }

  /** The last seed of every capability is stored, the device's other slots are stale,
      and nothing fresh of another device is touched. */
  ghost predicate SeededWith(s: Store, device: string, owner: string, seeds: seq<Seed>, rows: seq<Row>) {
    && (forall k {:trigger seeds[k]} :: 0 <= k < |seeds| && IsLastOf(seeds, k) ==>
          exists r :: r in rows && HoldsSeed(s, device, owner, seeds[k], r))
    && (forall r :: r in rows && r.slot.device == device && !Names(seeds, r.slot.capability) ==> IsStale(r))
    && (forall r: Row :: r.entry.quality == Fresh && r.slot.device != device ==> (r in rows <==> r in s.rows))
  }

  lemma {:induction false} SeededStores(s: Store, device: string, owner: string, seeds: seq<Seed>)
    requires StoreInv(s)
    ensures SeededWith(s, device, owner, seeds, Seeded(s, device, owner, seeds).rows)
    ensures Seeded(s, device, owner, seeds).generations == s.generations
  {
    if seeds == [] {
      hide StoreInv, Swept, SweptTo, StaleRows;
      SweptGoesStale(s, OfDevice(device));
      SweptStores(s, OfDevice(device));
    } else {
      hide StoreInv, Written, SeededWith;
      var n := |seeds| - 1;
      var t := Seeded(s, device, owner, seeds[..n]);
      SeededKeeps(s, device, owner, seeds[..n]);
      assert s.revision <= t.revision;
      SeededStores(s, device, owner, seeds[..n]);
      WrittenStores(t, Slot(device, seeds[n].capability), seeds[n].payload, seeds[n].bytes, owner);
      assert Seeded(s, device, owner, seeds) ==
             Written(t, Slot(device, seeds[n].capability), seeds[n].payload, seeds[n].bytes, owner);
      hide Evolves, Seeded;
      SeedStep(s, t, device, owner, seeds, Seeded(s, device, owner, seeds).rows);
    }
  }

  lemma SeedStep(s: Store, t: Store, device: string, owner: string, seeds: seq<Seed>, rows: seq<Row>)
    requires seeds != [] && SeededWith(s, device, owner, seeds[..|seeds| - 1], t.rows)
    requires s.revision <= t.revision && s.generations == t.generations
    requires var seed := seeds[|seeds| - 1];
      forall r :: r in rows <==>
        || r == Row(Slot(device, seed.capability), Entry(seed.payload, seed.bytes, t.revision + 1, Fresh,
                                    if owner in t.generations then t.generations[owner] else 0, owner))
        || (r in t.rows && r.slot != Slot(device, seed.capability))
    ensures SeededWith(s, device, owner, seeds, rows)
  {
    var n := |seeds| - 1;
    var seed := seeds[n];
    var row := Row(Slot(device, seed.capability), Entry(seed.payload, seed.bytes, t.revision + 1, Fresh,
                                    if owner in t.generations then t.generations[owner] else 0, owner));
    assert row in rows && HoldsSeed(s, device, owner, seed, row);
    forall k | 0 <= k < |seeds| && IsLastOf(seeds, k)
      ensures exists r :: r in rows && HoldsSeed(s, device, owner, seeds[k], r)
    {
      if k < n {
        assert IsLastOf(seeds[..n], k) && seeds[..n][k] == seeds[k];
        var r :| r in t.rows && HoldsSeed(s, device, owner, seeds[k], r);
        assert r in rows;
      }
    }
    forall capability
      ensures Names(seeds, capability) <==> Names(seeds[..n], capability) || capability == seed.capability
    {
      NamesSnoc(seeds, capability);
    }
  }

  lemma NamesSnoc(seeds: seq<Seed>, capability: string)
    requires seeds != []
    ensures var n := |seeds| - 1;
      Names(seeds, capability) <==> Names(seeds[..n], capability) || capability == seeds[n].capability
  {
    assert forall k :: 0 <= k < |seeds| - 1 ==> seeds[..|seeds| - 1][k] == seeds[k];
  }

  /** The end of a life stores nothing new: the owner's fresh entries go stale, nobody
      else's do, and the owner's generation advances by one. */
  lemma RestartedStores(s: Store, owner: string)
    requires StoreInv(s)
    ensures var s' := Restarted(s, owner);
      && SweptTo(s, OwnedBy(owner), s'.rows)
      && s'.generations == s.generations[owner := (if owner in s.generations then s.generations[owner] else 0) + 1]
      && (forall r :: r in s'.rows && r.entry.owner == owner ==> IsStale(r))
      && forall r: Row :: r.entry.quality == Fresh && r.entry.owner != owner ==> (r in s'.rows <==> r in s.rows)
  {
    hide StoreInv, Swept, SweptTo, StaleRows;
    SweptStores(s, OwnedBy(owner));
    SweptGoesStale(s, OwnedBy(owner));
  }

  /** An answer is a reset demand exactly when the anchor lies outside what the store can
      still account for; otherwise it lists changes only, oldest first, and whatever it
      leaves out is newer and left out because the answer is full. */
  lemma DeltasExactly(s: Store, since: nat, limit: nat)
    requires StoreInv(s)
    ensures var page := Deltas(s, since, limit);
      && page.epoch == s.epoch && page.current == s.revision
      && (page.resetRequired <==> !(s.evictedThrough <= since <= s.revision))
      && (page.resetRequired ==> page.entries == [])
      && Ascending(page.entries) && |page.entries| <= limit
      && (forall r :: r in page.entries ==> r in s.rows && r.entry.revision > since)
      && (!page.resetRequired ==>
            forall r :: r in s.rows && r.entry.revision > since && r !in page.entries ==>
              |page.entries| == limit && forall e :: e in page.entries ==> e.entry.revision < r.entry.revision)
  {
    var newer := Newer(s.rows, since);
    var sorted := SortByRevision(newer);
    SelectMembers(s.rows, NewerThan(since));
    SelectKeepsDistinct(s.rows, NewerThan(since));
    SortByRevisionSorts(newer);
    hide SortByRevision, Newer, Select, Sorted, DistinctRevisions;
    forall r | r in sorted && r !in Truncated(sorted, limit)
      ensures |sorted| > limit && forall e :: e in sorted[..limit] ==> e.entry.revision < r.entry.revision
    {
      SplitOrders(sorted, limit, r);
      LaterIsNewer(sorted, limit, r);
    }
  }

  lemma LaterIsNewer(sorted: seq<Row>, n: nat, r: Row)
    requires Ascending(sorted) && n <= |sorted| && r in sorted && r !in sorted[..n]
    ensures forall e :: e in sorted[..n] ==> e.entry.revision < r.entry.revision
  {
    SplitOrders(sorted, n, r);
    forall e | e in sorted[..n]
      ensures e.entry.revision < r.entry.revision
    {
      SplitOrders(sorted, n, e);
    }
  }

  lemma SeededKeepsNames(s: Store, device: string, owner: string, seeds: seq<Seed>)
    requires StoreInv(s) && RealNames(s.rows)
    requires forall seed :: seed in seeds ==> IsCapabilityName(seed.capability)
    ensures RealNames(Seeded(s, device, owner, seeds).rows)
  {
    hide StoreInv, RealNames, Swept, Written, IsCapabilityName;
    if seeds == [] {
      SweptKeepsNames(s, OfDevice(device));
    } else {
      var last := seeds[|seeds| - 1];
      var front := seeds[..|seeds| - 1];
      SeededKeepsNames(s, device, owner, front);
      SeededKeeps(s, device, owner, front);
      WrittenKeepsNames(Seeded(s, device, owner, front), Slot(device, last.capability), last.payload, last.bytes,
          owner);
    }
  }

  lemma RestartedKeeps(s: Store, owner: string)
    requires StoreInv(s)
    ensures StoreInv(Restarted(s, owner)) && Evolves(s, Restarted(s, owner))
  {
    var pick := OwnedBy(owner);
    SweptKeepsInv(s, pick);
    SweptEvolves(s, pick);
    hide Swept;
  }

  lemma {:induction false} SelectAll(rows: seq<Row>, keep: Row -> bool)
    requires forall r :: r in rows ==> keep(r)
    ensures Select(rows, keep) == rows
  {
    if rows == [] {
    } else {
      SelectAll(rows[..|rows| - 1], keep);
    }
  }

  lemma {:induction false} SelectBoth(rows: seq<Row>, p: Row -> bool, q: Row -> bool, both: Row -> bool)
    requires forall r :: r in rows ==> (both(r) <==> p(r) && q(r))
    ensures Select(Select(rows, p), q) == Select(rows, both)
  {
    if rows == [] {
    } else {
      var n := |rows| - 1;
      SelectBoth(rows[..n], p, q, both);
      var front := Select(rows[..n], p);
      assert (front + [rows[n]])[..|front|] == front;
    }
  }

  lemma EvictNothing(rows: seq<Row>)
    ensures Without(rows, []) == rows
  {
    SelectAll(rows, NotIn([]));
  }

  lemma VictimsAre(s: Store)
    requires StoreInv(s)
    ensures var stale := StaleRows(s.rows);
      if |stale| <= MAX_STALE_ENTRIES then Victims(s.rows) == []
      else Victims(s.rows) == SortByRevision(stale)[..|stale| - MAX_STALE_ENTRIES]
    ensures forall v :: v in Victims(s.rows) ==> v in s.rows
    ensures Sorted(s.rows)
  {
    VictimsAreStale(s.rows);
  }

  /** Removing one more victim by its key. */
  lemma RemoveVictim(rows: seq<Row>, victims: seq<Row>, victim: Row)
    requires Sorted(rows) && victim in rows
    ensures Select(Without(rows, victims), NotAt(victim.slot)) == Without(rows, victims + [victim])
  {
    SlotNamesRow(rows);
    SelectBoth(rows, NotIn(victims), NotAt(victim.slot), NotIn(victims + [victim]));
  }

  /** `keys` lists the picked positions below `n`, each at its rank. */
  ghost predicate ListsPicked(rows: seq<Row>, pick: Row -> bool, n: nat, keys: seq<nat>)
    requires n <= |rows|
  {
    && (forall k :: 0 <= k < |keys| ==>
        keys[k] < n && Picked(pick, rows[keys[k]]) && Rank(rows, pick, keys[k]) == k + 1)
    && (forall j :: 0 <= j < n && Picked(pick, rows[j]) ==>
          1 <= Rank(rows, pick, j) <= |keys| && keys[Rank(rows, pick, j) - 1] == j)
  }

  lemma NothingPicked(rows: seq<Row>, pick: Row -> bool)
    ensures CountPicked(rows[..0], pick) == 0 && ListsPicked(rows, pick, 0, [])
  {
  }

  lemma RankIs(rows: seq<Row>, pick: Row -> bool, i: nat)
    requires i < |rows|
    ensures Rank(rows, pick, i) == CountPicked(rows[..i + 1], pick)
    ensures Rank(rows, pick, i) == CountPicked(rows[..i], pick) + if Picked(pick, rows[i]) then 1 else 0
  {
    assert rows[..i + 1][..i] == rows[..i];
  }

  lemma PickStep(rows: seq<Row>, pick: Row -> bool, i: nat, keys: seq<nat>)
    requires i < |rows| && |keys| == CountPicked(rows[..i], pick) && ListsPicked(rows, pick, i, keys)
    ensures var keys' := if Picked(pick, rows[i]) then keys + [i] else keys;
      |keys'| == CountPicked(rows[..i + 1], pick) && ListsPicked(rows, pick, i + 1, keys')
  {
    hide Rank, CountPicked, Picked;
    RankIs(rows, pick, i);
    var keys' := if Picked(pick, rows[i]) then keys + [i] else keys;
    forall j | 0 <= j < i + 1 && Picked(pick, rows[j])
      ensures 1 <= Rank(rows, pick, j) <= |keys'| && keys'[Rank(rows, pick, j) - 1] == j
    {
    }
  }

  /** A row opens a new group exactly when its device differs from the previous row's. */
  lemma GroupCountStep(rows: seq<Row>, i: nat)
    requires i < |rows|
    ensures |Groups(rows[..i + 1])| ==
            |Groups(rows[..i])| + if i > 0 && rows[i - 1].slot.device == rows[i].slot.device then 0 else 1
  {
    assert rows[..i + 1][..i] == rows[..i];
    if i > 0 {
      assert rows[..i][..i - 1] == rows[..i - 1];
      var groups := Groups(rows[..i]);
      GroupsUniform(rows[..i]);
      assert Uniform(groups[|groups| - 1]);
      LastGroupEndsWithLastRow(rows[..i]);
    }
  }

  lemma LastGroupEndsWithLastRow(rows: seq<Row>)
    requires rows != []
    ensures var groups := Groups(rows);
      groups != [] && groups[|groups| - 1] != [] && groups[|groups| - 1][|groups[|groups| - 1]| - 1] == rows[|rows| - 1]
  {
    GroupsUnfold(rows);
    hide Groups;
  }

  lemma {:induction false} TakeDevicesIs(rows: seq<Row>, n: nat, i: nat)
    requires i < |rows| && |Groups(rows[..i])| <= n < |Groups(rows[..i + 1])|
    ensures TakeDevices(rows, n) == rows[..i]
  {
    hide Groups;
    var m := |rows| - 1;
    if i < m {
      assert rows[..m][..i] == rows[..i] && rows[..m][..i + 1] == rows[..i + 1];
      TakeDevicesIs(rows[..m], n, i);
      GroupCountMonotone(rows, i + 1);
    } else {
      assert rows[..i + 1] == rows;
    }
  }

  lemma {:induction false} GroupCountMonotone(rows: seq<Row>, i: nat)
    requires i <= |rows|
    ensures |Groups(rows[..i])| <= |Groups(rows)|
  {
    if i < |rows| {
      var m := |rows| - 1;
      GroupCountMonotone(rows[..m], i);
      assert rows[..m][..i] == rows[..i];
    } else {
      assert rows[..i] == rows;
    }
  }

  class DeviceStateStore {
    var rows: seq<Row>
    var revision: nat
    var evictedThrough: nat
    var generations: map<string, nat>
    const epoch: string

    function View(): Store
      reads this
    {
      Store(rows, revision, evictedThrough, generations, epoch)
    }

    constructor (epoch: string)
      ensures View() == Store([], 0, 0, map[], epoch)
      ensures StoreInv(View())
    {
      rows, revision, evictedThrough, generations := [], 0, 0, map[];
      this.epoch := epoch;
    }

    method WriteEntry(slot: Slot, payload: string, bytes: nat, owner: string)
      requires StoreInv(View())
      modifies this
      ensures View() == Written(old(View()), slot, payload, bytes, owner)
      ensures StoreInv(View()) && Evolves(old(View()), View())
      ensures revision == old(revision) + 1 && generations == old(generations)
      ensures evictedThrough == old(evictedThrough)
      ensures forall r :: r in rows <==>
                || r == Row(slot, Entry(payload, bytes, old(revision) + 1, Fresh,
                                        if owner in old(generations) then old(generations)[owner] else 0, owner))
                || (r in old(rows) && r.slot != slot)
    {
      WrittenStores(View(), slot, payload, bytes, owner);
      WrittenKeepsInv(View(), slot, payload, bytes, owner);
      WrittenEvolves(View(), slot, payload, bytes, owner);
      var generation := if owner in generations then generations[owner] else 0;
      revision := revision + 1;
      rows := Put(rows, Row(slot, Entry(payload, bytes, revision, Fresh, generation, owner)));
    }

    /** The positions of the entries to flip, in key order. */
    method Collect(pick: Row -> bool) returns (keys: seq<nat>)
      ensures |keys| == CountPicked(rows, pick)
      ensures ListsPicked(rows, pick, |rows|, keys)
    {
      hide ListsPicked, CountPicked;
      NothingPicked(rows, pick);
      keys := [];
      for i := 0 to |rows|
        invariant |keys| == CountPicked(rows[..i], pick)
        invariant ListsPicked(rows, pick, i, keys)
      {
        PickStep(rows, pick, i, keys);
        if pick(rows[i]) && rows[i].entry.quality == Fresh {
          keys := keys + [i];
        }
      }
      assert rows[..|rows|] == rows;
    }

    /** Collect the positions to flip, then flip each under the next revision. */
    method FlipAll(pick: Row -> bool)
      modifies `rows, `revision
      ensures View() == AllFlipped(old(View()), pick)
    {
      ghost var before := rows;
      ghost var base := revision;
      var keys := Collect(pick);
      hide Rank, CountPicked;
      for k := 0 to |keys|
        invariant |rows| == |before| && revision == base + k
        invariant forall j :: 0 <= j < |rows| ==>
                                rows[j] == if Picked(pick, before[j]) && Rank(before, pick, j) <= k
                                           then Flip(before[j], base + Rank(before, pick, j)) else before[j]
      {
        revision := revision + 1;
        var key := keys[k];
        rows := rows[key := Flip(rows[key], revision)];
      }
      assert rows == Flipped(before, pick, base);
    }

    /** Evict the oldest stale entries beyond the cap and raise the watermark. */
    method EnforceStaleCap()
      requires StoreInv(View())
      modifies `rows, `evictedThrough
      ensures View() == CapEnforced(old(View()))
    {
      hide StoreInv, StaleRows, SortByRevision, Victims, Without;
      EvictNothing(rows);
      VictimsAre(View());
      var stale := StaleRows(rows);
      if |stale| <= MAX_STALE_ENTRIES {
        return;
      }
      var excess := |stale| - MAX_STALE_ENTRIES;
      var byAge := SortByRevision(stale);
      ghost var victims := byAge[..excess];
      ghost var before := rows;
      for i := 0 to excess
        invariant rows == Without(before, victims[..i])
        invariant evictedThrough == Watermark(old(evictedThrough), victims[..i])
      {
        var victim := byAge[i];
        assert victims[i] == victim && victims[..i + 1] == victims[..i] + [victim];
        RemoveVictim(before, victims[..i], victim);
        rows := Select(rows, NotAt(victim.slot));
        if victim.entry.revision > evictedThrough {
          evictedThrough := victim.entry.revision;
        }
      }
      assert victims[..excess] == victims;
    }

    /** Flip every picked fresh entry to stale under its own new revision, then enforce the cap. */
    method StaleWhere(pick: Row -> bool)
      requires StoreInv(View())
      modifies `rows, `revision, `evictedThrough
      ensures View() == Swept(old(View()), pick)
      ensures StoreInv(View()) && Evolves(old(View()), View())
      ensures SweptTo(old(View()), pick, rows) && |StaleRows(rows)| <= MAX_STALE_ENTRIES
    {
      SweptStores(View(), pick);
      hide StoreInv, AllFlipped, CapEnforced, Evolves;
      FlippedKeepsInv(View(), pick);
      SweptKeepsInv(View(), pick);
      SweptEvolves(View(), pick);
      FlipAll(pick);
      EnforceStaleCap();
    }

    method RestartGeneration(owner: string)
      requires StoreInv(View())
      modifies this
      ensures View() == Restarted(old(View()), owner)
      ensures StoreInv(View()) && Evolves(old(View()), View())
      ensures SweptTo(old(View()), OwnedBy(owner), rows)
      ensures forall r :: r in rows && r.entry.owner == owner ==> IsStale(r)
      ensures forall r: Row :: r.entry.quality == Fresh && r.entry.owner != owner ==> (r in rows <==> r in old(rows))
      ensures generations ==
              old(generations)[owner := (if owner in old(generations) then old(generations)[owner] else 0) + 1]
    {
      hide StoreInv, Swept, Evolves, SweptTo, StaleRows;
      RestartedStores(View(), owner);
      RestartedKeeps(View(), owner);
      StaleWhere(OwnedBy(owner));
      generations := generations[owner := (if owner in generations then generations[owner] else 0) + 1];
    }

    method ResetAndSeedDevice(device: string, owner: string, seeds: seq<Seed>)
      requires StoreInv(View())
      modifies this
      ensures View() == Seeded(old(View()), device, owner, seeds)
      ensures StoreInv(View()) && Evolves(old(View()), View())
      ensures SeededWith(old(View()), device, owner, seeds, rows)
    {
      hide StoreInv, Swept, Written, Evolves, SeededWith, SweptTo, StaleRows;
      SeededStores(View(), device, owner, seeds);
      SeededKeeps(View(), device, owner, seeds);
      ghost var before := View();
      StaleWhere(OfDevice(device));
      for i := 0 to |seeds|
        invariant View() == Seeded(before, device, owner, seeds[..i]) && StoreInv(View())
      {
        assert seeds[..i + 1][..i] == seeds[..i];
        WriteEntry(Slot(device, seeds[i].capability), seeds[i].payload, seeds[i].bytes, owner);
      }
      assert seeds[..|seeds|] == seeds;
    }

    /** Entries after the cursor, for at most `limit` distinct devices. */
    method SnapshotPage(after: Option<string>, limit: nat) returns (entries: seq<Row>)
      ensures entries == TakeDevices(Range(rows, after), limit)
    {
      var range := Range(rows, after);
      var distinct := 0;
      var current: Option<string> := None;
      hide Range, Continues;
      entries := [];
      for i := 0 to |range|
        invariant entries == range[..i] && distinct == |Groups(range[..i])| <= limit
        invariant current == if i == 0 then None else Some(range[i - 1].slot.device)
      {
        var device := range[i].slot.device;
        GroupCountStep(range, i);
        if current != Some(device) {
          if distinct >= limit {
            TakeDevicesIs(range, limit, i);
            return;
          }
          distinct := distinct + 1;
          current := Some(device);
        }
        entries := entries + [range[i]];
      }
      assert range[..|range|] == range;
    }

    /** The changes newer than `since`, or the demand to start over. */
    method DeltasSince(since: nat, limit: nat) returns (page: DeltaPage)
      ensures page == Deltas(View(), since, limit)
      ensures page.epoch == epoch && page.current == revision
      ensures page.resetRequired <==> !(evictedThrough <= since <= revision)
    {
      if since > revision || since < evictedThrough {
        return DeltaPage(epoch, revision, [], true);
      }
      var entries := SortByRevision(Newer(rows, since));
      page := DeltaPage(epoch, revision, if |entries| <= limit then entries else entries[..limit], false);
    }

    /** The endpoint: fetch one device more than asked for, build the page, pin the
        first page's revision in every cursor. */
    method AllDeviceState(cursor: Option<(nat, string)>, limit: Option<nat>)
      returns (pinned: nat, devices: seq<seq<Row>>, next: Option<(nat, string)>)
      ensures var after := if cursor.Some? then Some(cursor.value.1) else None;
        var page := PageOf(rows, after, EffectiveLimit(limit));
        && pinned == (if cursor.Some? then cursor.value.0 else revision)
        && devices == page.devices
        && next == (if page.next.Some? then Some((pinned, page.next.value)) else None)
    {
      hide PageOf, Range, Groups, TakeDevices, LongestFit;
      var n := EffectiveLimit(limit);
      var after := if cursor.Some? then Some(cursor.value.1) else None;
      var entries := SnapshotPage(after, n + 1);
      pinned := if cursor.Some? then cursor.value.0 else revision;
      var capped;
      devices, capped := BuildPage(entries, n);
      FetchedPageIsPage(rows, after, n, devices, capped);
      next := if capped then Some((pinned, devices[|devices| - 1][0].slot.device)) else None;
    }
  }
}
