/**
  The host-owned device-state projection (crates/oxidhome-core/src/state/device_state.rs):
  one entry per (device, capability) slot, a store-wide revision counter, stale sweeps
  and the eviction watermark.
 */
module Ordering {
  /** Lexicographic order on strings, by code point. */
  predicate Less(a: string, b: string) {
    b != [] && (a == [] || a[0] < b[0] || (a[0] == b[0] && Less(a[1..], b[1..])))
  }

  lemma {:induction false} LessIrreflexive(a: string)
    ensures !Less(a, a)
  {
    if a == [] {
    } else {
      LessIrreflexive(a[1..]);
    }
  }

  lemma {:induction false} LessTransitive(a: string, b: string, c: string)
    requires Less(a, b) && Less(b, c)
    ensures Less(a, c)
  {
    if a != [] && a[0] == b[0] && b[0] == c[0] {
      LessTransitive(a[1..], b[1..], c[1..]);
    }
  }

  lemma {:induction false} LessTotal(a: string, b: string)
    ensures a == b || Less(a, b) || Less(b, a)
  {
    if a != [] && b != [] && a[0] == b[0] {
      LessTotal(a[1..], b[1..]);
      if a[1..] == b[1..] {
        assert a == [a[0]] + a[1..] && b == [b[0]] + b[1..];
      }
    }
  }
}

/**
  Capability names (crates/oxidhome-core/src/runtime/state.rs).  Every writer of the
  device-state store is gated on a name a device declared.
 */
module Capabilities {
  import opened Ordering

  datatype CapabilitySpec =
    | Switch | Dimmer | ColorLight | Sensor | Button | VideoStream | AudioStream | Extension(name: string)

  /** The stable name of a declared capability. */
  function CapabilityName(spec: CapabilitySpec): string {
    match spec
    case Switch => "switch"
    case Dimmer => "dimmer"
    case ColorLight => "color-light"
    case Sensor => "sensor"
    case Button => "button"
    case VideoStream => "video-stream"
    case AudioStream => "audio-stream"
    case Extension(name) => "extension(" + name + ")"
  }

  /** The capabilities an initial state can be given for. */
  datatype StateKind = SwitchState | DimmerState | ColorLightState | SensorState

  function StateName(kind: StateKind): string {
    match kind
    case SwitchState => "switch"
    case DimmerState => "dimmer"
    case ColorLightState => "color-light"
    case SensorState => "sensor"
  }

  /** The publish gate: the device declares the capability. */
  predicate DeclaredBy(declared: seq<CapabilitySpec>, capability: string) {
    exists spec :: spec in declared && CapabilityName(spec) == capability
  }

  /** Different capabilities have different names, and a state is named after the
      capability it belongs to. */
  lemma NamesAreDistinct(a: CapabilitySpec, b: CapabilitySpec)
    ensures CapabilityName(a) == CapabilityName(b) <==> a == b
    ensures StateName(SwitchState) == CapabilityName(Switch) && StateName(DimmerState) == CapabilityName(Dimmer)
    ensures StateName(ColorLightState) == CapabilityName(ColorLight) && StateName(SensorState) == CapabilityName(Sensor)
  {
    assert |CapabilityName(Switch)| == 6 && |CapabilityName(Dimmer)| == 6 && |CapabilityName(Sensor)| == 6;
    assert |CapabilityName(Button)| == 6 && |CapabilityName(ColorLight)| == 11;
    assert |CapabilityName(VideoStream)| == 12 && |CapabilityName(AudioStream)| == 12;
    if a.Extension? && b.Extension? && CapabilityName(a) == CapabilityName(b) {
      assert CapabilityName(a)[10..|CapabilityName(a)| - 1] == a.name;
      assert CapabilityName(b)[10..|CapabilityName(b)| - 1] == b.name;
    }
  }

  ghost predicate IsCapabilityName(s: string) {
    exists spec :: s == CapabilityName(spec)
  }

  lemma StateNameIsCapabilityName(kind: StateKind)
    ensures IsCapabilityName(StateName(kind))
  {
    match kind
    case SwitchState => assert StateName(kind) == CapabilityName(Switch);
    case DimmerState => assert StateName(kind) == CapabilityName(Dimmer);
    case ColorLightState => assert StateName(kind) == CapabilityName(ColorLight);
    case SensorState => assert StateName(kind) == CapabilityName(Sensor);
  }

  /** The range sentinel of the paged snapshot. */
  const SENTINEL: string := "\U{10FFFF}"

  /** Every capability name sorts below the sentinel. */
  lemma NameBelowSentinel(s: string)
    requires IsCapabilityName(s)
    ensures Less(s, SENTINEL) && !Less(SENTINEL, s)
  {
    var spec :| s == CapabilityName(spec);
    assert s[0] in "sdcbvae";
  }
}

/** Slots, entries, revisions and sweeps, as functions on the store's value. */
module DeviceState {
  import opened Capabilities
  import opened Ordering

  /** Hard cap on stale entries kept for consumers that have not caught up. */
  const MAX_STALE_ENTRIES: nat := 4096

  datatype Quality = Fresh | Stale

  datatype Slot = Slot(device: string, capability: string)

  /** `payload` stands for the canonical field list and `fieldBytes` for its size estimate. */
  datatype Entry = Entry(payload: string, fieldBytes: nat, revision: nat, quality: Quality, generation: nat,
      owner: string)

  /** One entry of the ordered map, with its key. */
  datatype Row = Row(slot: Slot, entry: Entry)

  // ---- The ordered map, kept as its sorted sequence of entries ----

  predicate SlotLess(s: Slot, t: Slot) {
    Less(s.device, t.device) || (s.device == t.device && Less(s.capability, t.capability))
  }

  lemma SlotLessTransitive(s: Slot, t: Slot, u: Slot)
    requires SlotLess(s, t) && SlotLess(t, u)
    ensures SlotLess(s, u)
  {
    if Less(s.device, t.device) && Less(t.device, u.device) {
      LessTransitive(s.device, t.device, u.device);
    } else if s.device == t.device && t.device == u.device {
      LessTransitive(s.capability, t.capability, u.capability);
    }
  }

  lemma SlotLessOrders(s: Slot, t: Slot)
    ensures !SlotLess(s, s)
    ensures s == t || SlotLess(s, t) || SlotLess(t, s)
  {
    LessIrreflexive(s.device);
    LessIrreflexive(s.capability);
    LessTotal(s.device, t.device);
    LessTotal(s.capability, t.capability);
  }

  ghost predicate Sorted(rows: seq<Row>) {
    forall i, j :: 0 <= i < j < |rows| ==> SlotLess(rows[i].slot, rows[j].slot)
  }

  lemma SortedIsInjective(rows: seq<Row>, i: nat, j: nat)
    requires Sorted(rows) && i < |rows| && j < |rows| && rows[i].slot == rows[j].slot
    ensures i == j
  {
    SlotLessOrders(rows[i].slot, rows[j].slot);
  }

  ghost predicate HasSlot(rows: seq<Row>, slot: Slot) {
    exists r :: r in rows && r.slot == slot
  }

  /** Insert or replace: the ordered map's own `insert`. */
  function Put(rows: seq<Row>, row: Row): seq<Row> {
    if rows == [] || SlotLess(row.slot, rows[0].slot) then [row] + rows
    else if rows[0].slot == row.slot then [row] + rows[1..]
    else [rows[0]] + Put(rows[1..], row)
  }

  lemma {:induction false} PutMembers(rows: seq<Row>, row: Row)
    requires Sorted(rows)
    ensures forall x :: x in Put(rows, row) <==> x == row || (x in rows && x.slot != row.slot)
  {
    if rows == [] {
    } else if SlotLess(row.slot, rows[0].slot) {
      forall x | x in rows
        ensures x.slot != row.slot
      {
        var i :| 0 <= i < |rows| && rows[i] == x;
        SlotLessOrders(row.slot, row.slot);
        if i > 0 {
          SlotLessTransitive(row.slot, rows[0].slot, x.slot);
        }
      }
    } else {
      assert forall x :: x in rows <==> x == rows[0] || x in rows[1..];
      forall x | x in rows[1..]
        ensures x.slot != rows[0].slot
      {
        SlotLessOrders(x.slot, x.slot);
      }
      if rows[0].slot != row.slot {
        PutMembers(rows[1..], row);
      }
    }
  }

  lemma {:induction false} PutKeepsSorted(rows: seq<Row>, row: Row)
    requires Sorted(rows)
    ensures Sorted(Put(rows, row))
  {
    if rows == [] {
    } else if SlotLess(row.slot, rows[0].slot) {
      forall j | 0 <= j < |rows|
        ensures SlotLess(row.slot, rows[j].slot)
      {
        if j > 0 {
          SlotLessTransitive(row.slot, rows[0].slot, rows[j].slot);
        }
      }
    } else if rows[0].slot != row.slot {
      PutKeepsSorted(rows[1..], row);
      PutMembers(rows[1..], row);
      SlotLessOrders(row.slot, rows[0].slot);
      var rest := Put(rows[1..], row);
      forall j | 0 <= j < |rest|
        ensures SlotLess(rows[0].slot, rest[j].slot)
      {
        assert rest[j] in rest;
      }
    }
  }

  /** Keep the rows satisfying `keep`, in order. */
  function Select(rows: seq<Row>, keep: Row -> bool): seq<Row> {
    if rows == [] then []
    else
      var last := rows[|rows| - 1];
      var front := Select(rows[..|rows| - 1], keep);
      if keep(last) then front + [last] else front
  }

  lemma {:induction false} SelectMembers(rows: seq<Row>, keep: Row -> bool)
    ensures forall x :: x in Select(rows, keep) <==> x in rows && keep(x)
  {
    if rows == [] {
    } else {
      SelectMembers(rows[..|rows| - 1], keep);
      assert rows == rows[..|rows| - 1] + [rows[|rows| - 1]];
    }
  }

  lemma {:induction false} SelectKeepsSorted(rows: seq<Row>, keep: Row -> bool)
    requires Sorted(rows)
    ensures Sorted(Select(rows, keep))
  {
    if rows == [] {
    } else {
      var n := |rows| - 1;
      SelectKeepsSorted(rows[..n], keep);
      SelectMembers(rows[..n], keep);
      var front := Select(rows[..n], keep);
      forall i | 0 <= i < |front|
        ensures SlotLess(front[i].slot, rows[n].slot)
      {
        assert front[i] in front;
      }
    }
  }

  // ---- Sorting by revision ----

  ghost predicate DistinctRevisions(rows: seq<Row>) {
    forall i, j :: 0 <= i < j < |rows| ==> rows[i].entry.revision != rows[j].entry.revision
  }

  ghost predicate Ascending(rows: seq<Row>) {
    forall i, j :: 0 <= i < j < |rows| ==> rows[i].entry.revision < rows[j].entry.revision
  }

  function InsertByRevision(rows: seq<Row>, row: Row): (r: seq<Row>)
    ensures |r| == |rows| + 1
  {
    if rows == [] || rows[|rows| - 1].entry.revision <= row.entry.revision then rows + [row]
    else InsertByRevision(rows[..|rows| - 1], row) + [rows[|rows| - 1]]
  }

  /** The library's stable sort by revision. */
  function SortByRevision(rows: seq<Row>): (r: seq<Row>)
    ensures |r| == |rows|
  {
    if rows == [] then [] else InsertByRevision(SortByRevision(rows[..|rows| - 1]), rows[|rows| - 1])
  }

  lemma {:induction false} InsertByRevisionMembers(rows: seq<Row>, row: Row)
    ensures forall x :: x in InsertByRevision(rows, row) <==> x == row || x in rows
  {
    if rows != [] && rows[|rows| - 1].entry.revision > row.entry.revision {
      InsertByRevisionMembers(rows[..|rows| - 1], row);
      assert rows == rows[..|rows| - 1] + [rows[|rows| - 1]];
    }
  }

  lemma {:induction false} InsertByRevisionAscends(rows: seq<Row>, row: Row)
    requires Ascending(rows) && forall x :: x in rows ==> x.entry.revision != row.entry.revision
    ensures Ascending(InsertByRevision(rows, row))
  {
    if rows != [] && rows[|rows| - 1].entry.revision > row.entry.revision {
      var n := |rows| - 1;
      InsertByRevisionAscends(rows[..n], row);
      InsertByRevisionMembers(rows[..n], row);
      var r := InsertByRevision(rows[..n], row);
      forall i | 0 <= i < |r|
        ensures r[i].entry.revision < rows[n].entry.revision
      {
        assert r[i] in r;
      }
    }
  }

  /** Sorting lists the same rows once each, by strictly increasing revision. */
  lemma {:induction false} SortByRevisionSorts(rows: seq<Row>)
    requires DistinctRevisions(rows)
    ensures Ascending(SortByRevision(rows))
    ensures forall x :: x in SortByRevision(rows) <==> x in rows
  {
    if rows == [] {
    } else {
      var n := |rows| - 1;
      SortByRevisionSorts(rows[..n]);
      InsertByRevisionMembers(SortByRevision(rows[..n]), rows[n]);
      InsertByRevisionAscends(SortByRevision(rows[..n]), rows[n]);
      assert rows == rows[..n] + [rows[n]];
    }
  }

  lemma {:induction false} SelectKeepsDistinct(rows: seq<Row>, keep: Row -> bool)
    requires DistinctRevisions(rows)
    ensures DistinctRevisions(Select(rows, keep))
  {
    if rows == [] {
    } else {
      var n := |rows| - 1;
      SelectKeepsDistinct(rows[..n], keep);
      SelectMembers(rows[..n], keep);
      var front := Select(rows[..n], keep);
      forall i | 0 <= i < |front|
        ensures front[i].entry.revision != rows[n].entry.revision
      {
        assert front[i] in front;
      }
    }
  }

  // ---- The store ----

  datatype Store = Store(rows: seq<Row>, revision: nat, evictedThrough: nat, generations: map<string, nat>,
      epoch: string)

  /** Slots are listed once in key order, every revision was handed out by the counter,
      to one entry at most, and the watermark was once an entry's revision. */
  ghost predicate StoreInv(s: Store) {
    && Sorted(s.rows) && DistinctRevisions(s.rows)
    && (forall r :: r in s.rows ==> 1 <= r.entry.revision <= s.revision)
    && s.evictedThrough <= s.revision
  }

  function GenerationOf(s: Store, owner: string): nat {
    if owner in s.generations then s.generations[owner] else 0
  }

  /** A publish: the final field list of the slot under a new revision, fresh. */
  function Written(s: Store, slot: Slot, payload: string, bytes: nat, owner: string): Store {
    s.(revision := s.revision + 1,
       rows := Put(s.rows, Row(slot, Entry(payload, bytes, s.revision + 1, Fresh, GenerationOf(s, owner), owner))))
  }

  predicate Picked(pick: Row -> bool, row: Row) {
    pick(row) && row.entry.quality == Fresh
  }

  function CountPicked(rows: seq<Row>, pick: Row -> bool): nat {
    if rows == [] then 0
    else CountPicked(rows[..|rows| - 1], pick) + (if Picked(pick, rows[|rows| - 1]) then 1 else 0)
  }

  function Flip(row: Row, revision: nat): Row {
    row.(entry := row.entry.(revision := revision, quality := Stale))
  }

  /** How many rows up to and including row `i` are picked. */
  function Rank(rows: seq<Row>, pick: Row -> bool, i: nat): nat
    requires i < |rows|
  {
    CountPicked(rows[..i + 1], pick)
  }

  /** Every picked fresh entry goes stale, each under its own new revision, in key order. */
  function Flipped(rows: seq<Row>, pick: Row -> bool, base: nat): (r: seq<Row>)
    ensures |r| == |rows|
  {
    seq(|rows|, (i: nat) requires i < |rows| =>
      if Picked(pick, rows[i]) then Flip(rows[i], base + Rank(rows, pick, i)) else rows[i])
  }

  predicate IsStale(row: Row) {
    row.entry.quality == Stale
  }

  const STALE: Row -> bool := (r: Row) => IsStale(r)

  function NotIn(victims: seq<Row>): Row -> bool {
    (r: Row) => r !in victims
  }

  function StaleRows(rows: seq<Row>): seq<Row> {
    Select(rows, STALE)
  }

  /** The oldest stale entries, as many as exceed the cap. */
  function Victims(rows: seq<Row>): seq<Row> {
    var stale := StaleRows(rows);
    if |stale| <= MAX_STALE_ENTRIES then []
    else SortByRevision(stale)[..|stale| - MAX_STALE_ENTRIES]
  }

  function Max(a: nat, b: nat): nat {
    if a < b then b else a
  }

  function Watermark(mark: nat, victims: seq<Row>): nat {
    if victims == [] then mark
        else Max(Watermark(mark, victims[..|victims| - 1]), victims[|victims| - 1].entry.revision)
  }

  function Without(rows: seq<Row>, victims: seq<Row>): seq<Row> {
    Select(rows, NotIn(victims))
  }

  function CapEnforced(s: Store): Store {
    s.(rows := Without(s.rows, Victims(s.rows)), evictedThrough := Watermark(s.evictedThrough, Victims(s.rows)))
  }

  function AllFlipped(s: Store, pick: Row -> bool): Store {
    s.(rows := Flipped(s.rows, pick, s.revision), revision := s.revision + CountPicked(s.rows, pick))
  }

  /** A stale sweep: flip the picked entries, then enforce the cap. */
  function Swept(s: Store, pick: Row -> bool): Store {
    CapEnforced(AllFlipped(s, pick))
  }

  // ---- What the operations keep ----

  lemma WrittenKeepsInv(s: Store, slot: Slot, payload: string, bytes: nat, owner: string)
    requires StoreInv(s)
    ensures StoreInv(Written(s, slot, payload, bytes, owner))
  {
    var row := Row(slot, Entry(payload, bytes, s.revision + 1, Fresh, GenerationOf(s, owner), owner));
    PutKeepsSorted(s.rows, row);
    PutMembers(s.rows, row);
    var rows' := Put(s.rows, row);
    forall i, j | 0 <= i < j < |rows'|
      ensures rows'[i].entry.revision != rows'[j].entry.revision
    {
      assert rows'[i] in rows' && rows'[j] in rows';
      SlotLessOrders(rows'[i].slot, rows'[i].slot);
      assert rows'[i].slot != rows'[j].slot;
      RevisionNamesRow(s.rows);
    }
  }

  lemma RevisionNamesRow(rows: seq<Row>)
    requires DistinctRevisions(rows)
    ensures forall x, y :: x in rows && y in rows && x.entry.revision == y.entry.revision ==> x == y
  {
    forall x, y | x in rows && y in rows && x.entry.revision == y.entry.revision
      ensures x == y
    {
      var i :| 0 <= i < |rows| && rows[i] == x;
      var j :| 0 <= j < |rows| && rows[j] == y;
      assert i == j;
    }
  }

  lemma SlotNamesRow(rows: seq<Row>)
    requires Sorted(rows)
    ensures forall x, y :: x in rows && y in rows && x.slot == y.slot ==> x == y
  {
    forall x, y | x in rows && y in rows && x.slot == y.slot
      ensures x == y
    {
      var i :| 0 <= i < |rows| && rows[i] == x;
      var j :| 0 <= j < |rows| && rows[j] == y;
      SortedIsInjective(rows, i, j);
    }
  }

  lemma {:induction false} CountPickedMonotone(rows: seq<Row>, pick: Row -> bool, i: nat, j: nat)
    requires i <= j <= |rows|
    ensures CountPicked(rows[..i], pick) <= CountPicked(rows[..j], pick)
    decreases j - i
  {
    if i < j {
      CountPickedMonotone(rows, pick, i, j - 1);
      assert rows[..j][..j - 1] == rows[..j - 1];
    }
  }

  lemma PickedRank(rows: seq<Row>, pick: Row -> bool, i: nat)
    requires i < |rows| && Picked(pick, rows[i])
    ensures CountPicked(rows[..i], pick) < CountPicked(rows[..i + 1], pick) <= CountPicked(rows, pick)
  {
    assert rows[..i + 1][..i] == rows[..i];
    CountPickedMonotone(rows, pick, i + 1, |rows|);
    assert rows[..|rows|] == rows;
  }

  /** The revisions a sweep hands out are new, distinct and within the advanced counter. */
  lemma RanksRise(rows: seq<Row>, pick: Row -> bool, i: nat, j: nat)
    requires i <= j < |rows| && Picked(pick, rows[i]) && Picked(pick, rows[j])
    ensures 0 < Rank(rows, pick, i) <= CountPicked(rows, pick)
    ensures i < j ==> Rank(rows, pick, i) < Rank(rows, pick, j)
  {
    PickedRank(rows, pick, i);
    if i < j {
      CountPickedMonotone(rows, pick, i + 1, j);
      PickedRank(rows, pick, j);
    }
  }

  lemma FlippedKeepsInv(s: Store, pick: Row -> bool)
    requires StoreInv(s)
    ensures StoreInv(AllFlipped(s, pick))
  {
    hide Rank, CountPicked;
    var rows' := Flipped(s.rows, pick, s.revision);
    assert forall i :: 0 <= i < |rows'| ==> rows'[i].slot == s.rows[i].slot;
    forall i | 0 <= i < |rows'|
      ensures 1 <= rows'[i].entry.revision <= s.revision + CountPicked(s.rows, pick)
    {
      assert s.rows[i] in s.rows;
      if Picked(pick, s.rows[i]) {
        RanksRise(s.rows, pick, i, i);
      }
    }
    forall i, j | 0 <= i < j < |rows'|
      ensures rows'[i].entry.revision != rows'[j].entry.revision
    {
      FlippedDiffer(s, pick, i, j);
    }
  }

  lemma FlippedDiffer(s: Store, pick: Row -> bool, i: nat, j: nat)
    requires StoreInv(s) && i < j < |s.rows|
    ensures Flipped(s.rows, pick, s.revision)[i].entry.revision != Flipped(s.rows, pick, s.revision)[j].entry.revision
  {
    hide Rank, CountPicked;
    assert s.rows[i] in s.rows && s.rows[j] in s.rows;
    if Picked(pick, s.rows[i]) {
      RanksRise(s.rows, pick, i, i);
    }
    if Picked(pick, s.rows[j]) {
      RanksRise(s.rows, pick, j, j);
    }
    if Picked(pick, s.rows[i]) && Picked(pick, s.rows[j]) {
      RanksRise(s.rows, pick, i, j);
    }
  }

  lemma {:induction false} WatermarkCovers(mark: nat, victims: seq<Row>)
    ensures mark <= Watermark(mark, victims)
    ensures forall v :: v in victims ==> v.entry.revision <= Watermark(mark, victims)
    ensures Watermark(mark, victims) == mark || exists v :: v in victims && v.entry.revision == Watermark(mark, victims)
  {
    if victims == [] {
    } else {
      var n := |victims| - 1;
      WatermarkCovers(mark, victims[..n]);
      assert victims == victims[..n] + [victims[n]];
    }
  }

  lemma StaleRowsFacts(rows: seq<Row>)
    requires DistinctRevisions(rows)
    ensures forall x :: x in StaleRows(rows) <==> x in rows && IsStale(x)
    ensures DistinctRevisions(StaleRows(rows))
  {
    SelectMembers(rows, STALE);
    SelectKeepsDistinct(rows, STALE);
    hide Select, DistinctRevisions;
  }

  lemma VictimsAreStale(rows: seq<Row>)
    requires DistinctRevisions(rows)
    ensures forall v :: v in Victims(rows) ==> v in rows && IsStale(v)
  {
    StaleRowsFacts(rows);
    SortByRevisionSorts(StaleRows(rows));
    var sorted := SortByRevision(StaleRows(rows));
    hide StaleRows, SortByRevision, Ascending, DistinctRevisions;
    forall v | v in Victims(rows)
      ensures v in sorted
    {
    }
  }

  lemma CapKeepsInv(s: Store)
    requires StoreInv(s)
    ensures StoreInv(CapEnforced(s))
  {
    var victims := Victims(s.rows);
    SelectKeepsSorted(s.rows, NotIn(victims));
    SelectKeepsDistinct(s.rows, NotIn(victims));
    SelectMembers(s.rows, NotIn(victims));
    VictimsAreStale(s.rows);
    WatermarkCovers(s.evictedThrough, victims);
  }

  /** Every sweep keeps the store's invariant. */
  lemma SweptKeepsInv(s: Store, pick: Row -> bool)
    requires StoreInv(s)
    ensures StoreInv(Swept(s, pick))
  {
    hide StoreInv, AllFlipped, CapEnforced;
    FlippedKeepsInv(s, pick);
    CapKeepsInv(AllFlipped(s, pick));
  }

  // ---- What a consumer can rely on from one state of the store to a later one ----

  /** Nothing changes under a revision already handed out: a row is either as it was or
      newer than every old revision, and a slot that is gone was stale at a revision the
      watermark has reached, or left the watermark above every old revision. */
  ghost predicate Evolves(s: Store, s': Store) {
    && s'.epoch == s.epoch && s.revision <= s'.revision && s.evictedThrough <= s'.evictedThrough
    && (forall y :: y in s'.rows ==> y in s.rows || y.entry.revision > s.revision)
    && (forall x :: x in s.rows && !HasSlot(s'.rows, x.slot) ==>
          (IsStale(x) && x.entry.revision <= s'.evictedThrough) || s'.evictedThrough > s.revision)
  }

  lemma EvolvesTransitive(s: Store, t: Store, u: Store)
    requires StoreInv(s) && Evolves(s, t) && Evolves(t, u)
    ensures Evolves(s, u)
  {
    SlotNamesRow(s.rows);
    forall x | x in s.rows && !HasSlot(u.rows, x.slot)
      ensures (IsStale(x) && x.entry.revision <= u.evictedThrough) || u.evictedThrough > s.revision
    {
      if HasSlot(t.rows, x.slot) {
        var y :| y in t.rows && y.slot == x.slot;
      }
    }
  }

  lemma WrittenEvolves(s: Store, slot: Slot, payload: string, bytes: nat, owner: string)
    requires StoreInv(s)
    ensures Evolves(s, Written(s, slot, payload, bytes, owner))
  {
    var row := Row(slot, Entry(payload, bytes, s.revision + 1, Fresh, GenerationOf(s, owner), owner));
    PutMembers(s.rows, row);
    forall x | x in s.rows
      ensures HasSlot(Put(s.rows, row), x.slot)
    {
      assert x.slot == slot || x in Put(s.rows, row);
      assert row in Put(s.rows, row);
    }
  }

  lemma FlippedRowsAreNewer(s: Store, pick: Row -> bool, i: nat)
    requires i < |s.rows|
    ensures var y := Flipped(s.rows, pick, s.revision)[i];
      y.slot == s.rows[i].slot && (y == s.rows[i] || y.entry.revision > s.revision)
  {
    if Picked(pick, s.rows[i]) {
      RanksRise(s.rows, pick, i, i);
    }
    hide Rank, CountPicked;
  }

  lemma FlippedEvolves(s: Store, pick: Row -> bool)
    requires StoreInv(s)
    ensures Evolves(s, AllFlipped(s, pick))
  {
    hide StoreInv, Rank, CountPicked;
    var rows' := Flipped(s.rows, pick, s.revision);
    forall i | 0 <= i < |s.rows|
      ensures rows'[i].slot == s.rows[i].slot && (rows'[i] == s.rows[i] || rows'[i].entry.revision > s.revision)
    {
      FlippedRowsAreNewer(s, pick, i);
    }
    hide Flipped;
    forall x | x in s.rows
      ensures HasSlot(rows', x.slot)
    {
      var i :| 0 <= i < |s.rows| && s.rows[i] == x;
      assert rows'[i] in rows';
    }
  }

  lemma CapEvolves(s: Store)
    requires StoreInv(s)
    ensures Evolves(s, CapEnforced(s))
  {
    var victims := Victims(s.rows);
    SelectMembers(s.rows, NotIn(victims));
    VictimsAreStale(s.rows);
    WatermarkCovers(s.evictedThrough, victims);
  }

  lemma SweptEvolves(s: Store, pick: Row -> bool)
    requires StoreInv(s)
    ensures Evolves(s, Swept(s, pick))
  {
    hide StoreInv, AllFlipped, CapEnforced, Evolves;
    FlippedKeepsInv(s, pick);
    FlippedEvolves(s, pick);
    CapEvolves(AllFlipped(s, pick));
    EvolvesTransitive(s, AllFlipped(s, pick), Swept(s, pick));
  }

  // ---- What the operations store ----

  /** A publish stores its fields, fresh, under the next revision with the owner's
      generation, and leaves every other slot alone. */
  lemma WrittenStores(s: Store, slot: Slot, payload: string, bytes: nat, owner: string)
    requires StoreInv(s)
    ensures var s' := Written(s, slot, payload, bytes, owner);
      && s'.revision == s.revision + 1 && s'.generations == s.generations
      && s'.evictedThrough == s.evictedThrough && s'.epoch == s.epoch
      && forall r :: r in s'.rows <==>
            || r == Row(slot, Entry(payload, bytes, s.revision + 1, Fresh,
                                    if owner in s.generations then s.generations[owner] else 0, owner))
            || (r in s.rows && r.slot != slot)
  {
    PutMembers(s.rows, Row(slot, Entry(payload, bytes, s.revision + 1, Fresh, GenerationOf(s, owner), owner)));
  }

  /** `y` is what a sweep makes of the fresh row `x`: stale, under a new revision,
      otherwise the same. */
  predicate IsStaleImage(s: Store, x: Row, y: Row) {
    && x.entry.quality == Fresh && y.entry.quality == Stale && y.entry.revision > s.revision
    && y.slot == x.slot && y.entry.payload == x.entry.payload && y.entry.fieldBytes == x.entry.fieldBytes
    && y.entry.generation == x.entry.generation && y.entry.owner == x.entry.owner
  }

  /** `rows` has the stale image of every picked fresh row of `s`, the other rows
      unchanged, and nothing else. */
  ghost predicate SweepsTo(s: Store, pick: Row -> bool, rows: seq<Row>) {
    && (forall y :: y in rows ==>
          || (y in s.rows && !(pick(y) && y.entry.quality == Fresh))
          || exists x :: x in s.rows && pick(x) && IsStaleImage(s, x, y))
    && (forall x :: x in s.rows && !(pick(x) && x.entry.quality == Fresh) ==> x in rows)
    && (forall x :: x in s.rows && pick(x) && x.entry.quality == Fresh ==>
          exists y :: y in rows && IsStaleImage(s, x, y))
  }

  /** That, less the oldest stale entries: whatever is missing is stale and older than
      every stale row that is left. */
  ghost predicate SweptTo(s: Store, pick: Row -> bool, rows: seq<Row>) {
    exists all :: SweepsTo(s, pick, all)
                  && (forall r :: r in rows ==> r in all)
                  && forall r :: r in all && r !in rows ==>
                                   IsStale(r) && forall y :: y in rows && IsStale(y) ==>
                                       r.entry.revision < y.entry.revision
  }

  lemma FlippedSweeps(s: Store, pick: Row -> bool)
    ensures SweepsTo(s, pick, AllFlipped(s, pick).rows)
  {
    hide Rank, CountPicked;
    var rows' := AllFlipped(s, pick).rows;
    forall i | 0 <= i < |s.rows|
      ensures if Picked(pick, s.rows[i]) then IsStaleImage(s, s.rows[i], rows'[i]) else rows'[i] == s.rows[i]
    {
      if Picked(pick, s.rows[i]) {
        RanksRise(s.rows, pick, i, i);
      }
    }
    hide Flipped, AllFlipped, IsStaleImage;
    forall y | y in rows'
      ensures || (y in s.rows && !(pick(y) && y.entry.quality == Fresh))
              || exists x :: x in s.rows && pick(x) && IsStaleImage(s, x, y)
    {
      var i :| 0 <= i < |rows'| && rows'[i] == y;
      assert s.rows[i] in s.rows;
    }
    forall x | x in s.rows
      ensures !(pick(x) && x.entry.quality == Fresh) ==> x in rows'
      ensures pick(x) && x.entry.quality == Fresh ==> exists y :: y in rows' && IsStaleImage(s, x, y)
    {
      var i :| 0 <= i < |s.rows| && s.rows[i] == x;
      assert rows'[i] in rows';
    }
  }

  /** The entries that go stale do so one by one, in key order. */
  lemma FlippedInKeyOrder(s: Store, pick: Row -> bool, i: nat, j: nat)
    requires Sorted(s.rows) && i < |s.rows| && j < |s.rows| && SlotLess(s.rows[i].slot, s.rows[j].slot)
    requires Picked(pick, s.rows[i]) && Picked(pick, s.rows[j])
    ensures var rows := AllFlipped(s, pick).rows;
      s.revision < rows[i].entry.revision < rows[j].entry.revision <= AllFlipped(s, pick).revision
  {
    SlotLessOrders(s.rows[i].slot, s.rows[i].slot);
    if j < i {
      SlotLessTransitive(s.rows[i].slot, s.rows[j].slot, s.rows[i].slot);
    }
    RanksRise(s.rows, pick, i, j);
    RanksRise(s.rows, pick, j, j);
    hide Rank, CountPicked, Sorted;
  }

  /** What a sweep leaves: the picked fresh entries gone stale under new revisions, the
      rest as it was, less evicted stale entries, within the cap. */
  lemma SweptStores(s: Store, pick: Row -> bool)
    requires StoreInv(s)
    ensures SweptTo(s, pick, Swept(s, pick).rows)
    ensures |StaleRows(Swept(s, pick).rows)| <= MAX_STALE_ENTRIES
    ensures Swept(s, pick).generations == s.generations && Swept(s, pick).epoch == s.epoch
  {
    var t := AllFlipped(s, pick);
    FlippedKeepsInv(s, pick);
    FlippedSweeps(s, pick);
    CapBoundsStale(t);
    SelectMembers(t.rows, NotIn(Victims(t.rows)));
    hide SweepsTo, AllFlipped, Victims, StoreInv, StaleRows, Without;
    assert SweepsTo(s, pick, t.rows);
  }

  /** If `pick` goes by what a sweep does not change, no row it picks is fresh after the
      sweep, and no fresh row it does not pick is touched. */
  lemma SweptGoesStale(s: Store, pick: Row -> bool)
    requires StoreInv(s)
    requires forall x, y :: IsStaleImage(s, x, y) ==> pick(x) == pick(y)
    ensures forall r :: r in Swept(s, pick).rows && pick(r) ==> IsStale(r)
    ensures forall r: Row :: r.entry.quality == Fresh && !pick(r) ==> (r in Swept(s, pick).rows <==> r in s.rows)
  {
    SweptStores(s, pick);
    hide Swept, StoreInv, StaleRows, SweptTo;
    SweptToGoesStale(s, pick, Swept(s, pick).rows);
  }

  lemma SweptToGoesStale(s: Store, pick: Row -> bool, rows: seq<Row>)
    requires SweptTo(s, pick, rows) && forall x, y :: IsStaleImage(s, x, y) ==> pick(x) == pick(y)
    ensures forall r :: r in rows && pick(r) ==> IsStale(r)
    ensures forall r: Row :: r.entry.quality == Fresh && !pick(r) ==> (r in rows <==> r in s.rows)
  {
  }

  lemma {:induction false} NoLongerThan(a: seq<Row>, b: seq<Row>)
    requires DistinctRevisions(a) && forall x :: x in a ==> x in b
    ensures |a| <= |b|
  {
    if a == [] {
    } else {
      var n := |a| - 1;
      assert a[n] in b;
      var k :| 0 <= k < |b| && b[k] == a[n];
      var rest := b[..k] + b[k + 1..];
      forall x | x in a[..n]
        ensures x in rest
      {
        assert x in a && x in b;
        var j :| 0 <= j < |b| && b[j] == x;
        assert x.entry.revision != a[n].entry.revision;
        assert rest[if j < k then j else j - 1] == x;
      }
      NoLongerThan(a[..n], rest);
    }
  }

  /** The stale entries, oldest first: the victims, then those that stay. */
  lemma StaleSplits(rows: seq<Row>)
    requires DistinctRevisions(rows)
    ensures var sorted := SortByRevision(StaleRows(rows));
      && Ascending(sorted) && |Victims(rows)| <= |sorted| && sorted[..|Victims(rows)|] == Victims(rows)
      && |sorted| - |Victims(rows)| <= MAX_STALE_ENTRIES
      && forall x :: x in rows && IsStale(x) <==> x in sorted
  {
    SelectMembers(rows, STALE);
    SelectKeepsDistinct(rows, STALE);
    SortByRevisionSorts(StaleRows(rows));
  }

  lemma SplitOrders(sorted: seq<Row>, n: nat, x: Row)
    requires Ascending(sorted) && n <= |sorted| && x in sorted
    ensures x in sorted[..n] || x in sorted[n..]
    ensures x in sorted[..n] ==> forall y :: y in sorted[n..] ==> x.entry.revision < y.entry.revision
  {
    assert sorted == sorted[..n] + sorted[n..];
    if x in sorted[..n] {
      var i :| 0 <= i < n && sorted[..n][i] == x;
      forall y | y in sorted[n..]
        ensures x.entry.revision < y.entry.revision
      {
        var j :| 0 <= j < |sorted| - n && sorted[n..][j] == y;
        assert sorted[i] == x && sorted[n + j] == y;
      }
    }
  }

  /** After a sweep at most the cap's worth of entries is stale, no fresh entry was
      evicted, and the evicted ones are older than every stale entry kept. */
  lemma CapBoundsStale(s: Store)
    requires StoreInv(s)
    ensures |StaleRows(CapEnforced(s).rows)| <= MAX_STALE_ENTRIES
    ensures forall x :: x in s.rows && x !in CapEnforced(s).rows ==>
                          IsStale(x) && forall y :: y in CapEnforced(s).rows && IsStale(y) ==>
                              x.entry.revision < y.entry.revision
  {
    var victims := Victims(s.rows);
    var sorted := SortByRevision(StaleRows(s.rows));
    var kept := CapEnforced(s).rows;
    StaleSplits(s.rows);
    VictimsAreStale(s.rows);
    SelectMembers(s.rows, NotIn(victims));
    SelectMembers(kept, STALE);
    SelectKeepsDistinct(s.rows, NotIn(victims));
    SelectKeepsDistinct(kept, STALE);
    hide Victims, SortByRevision, StaleRows, Without, Select;
    forall y | y in kept && IsStale(y)
      ensures y in sorted[|victims|..]
    {
      SplitOrders(sorted, |victims|, y);
    }
    CapBoundsKept(s, sorted[|victims|..]);
    forall x | x in s.rows && x !in kept
      ensures forall y :: y in kept && IsStale(y) ==> x.entry.revision < y.entry.revision
    {
      SplitOrders(sorted, |victims|, x);
    }
  }

  lemma CapBoundsKept(s: Store, newest: seq<Row>)
    requires DistinctRevisions(StaleRows(CapEnforced(s).rows)) && |newest| <= MAX_STALE_ENTRIES
    requires forall y :: y in CapEnforced(s).rows && IsStale(y) ==> y in newest
    ensures |StaleRows(CapEnforced(s).rows)| <= MAX_STALE_ENTRIES
  {
    SelectMembers(CapEnforced(s).rows, STALE);
    NoLongerThan(StaleRows(CapEnforced(s).rows), newest);
  }

  // ---- Capability names ----

  ghost predicate RealNames(rows: seq<Row>) {
    forall r :: r in rows ==> IsCapabilityName(r.slot.capability)
  }

  lemma WrittenKeepsNames(s: Store, slot: Slot, payload: string, bytes: nat, owner: string)
    requires StoreInv(s) && RealNames(s.rows) && IsCapabilityName(slot.capability)
    ensures RealNames(Written(s, slot, payload, bytes, owner).rows)
  {
    hide IsCapabilityName;
    PutMembers(s.rows, Row(slot, Entry(payload, bytes, s.revision + 1, Fresh, GenerationOf(s, owner), owner)));
  }

  lemma SweptKeepsNames(s: Store, pick: Row -> bool)
    requires RealNames(s.rows)
    ensures RealNames(Swept(s, pick).rows)
  {
    hide IsCapabilityName, Victims, Rank;
    var flipped := Flipped(s.rows, pick, s.revision);
    forall y | y in flipped
      ensures IsCapabilityName(y.slot.capability)
    {
      var i :| 0 <= i < |flipped| && flipped[i] == y;
      assert s.rows[i] in s.rows;
    }
    SelectMembers(flipped, NotIn(Victims(flipped)));
  }
}
