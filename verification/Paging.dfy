/**
  The page builder of the all-devices state endpoint
  (crates/oxidhome-core/src/api/server.rs, get_all_device_state).
 */
module Paging {
  import opened Prelude
  import opened Capabilities
  import opened Ordering
  import opened DeviceState
  import opened Text

  const DEFAULT_LIMIT: nat := 64
  const MAX_LIMIT: nat := 256
  const PAGE_BYTES: nat := 1024 * 1024
  const USIZE_MAX: nat := 0xFFFF_FFFF_FFFF_FFFF

  /** The page size asked for: absent or zero means the default, and there is a ceiling. */
  function EffectiveLimit(limit: Option<nat>): (n: nat)
    ensures 1 <= n <= MAX_LIMIT
    ensures limit.Some? && 1 <= limit.value <= MAX_LIMIT ==> n == limit.value
    ensures limit.Some? && limit.value > MAX_LIMIT ==> n == MAX_LIMIT
    ensures limit.None? || limit.value == 0 ==> n == 64
  {
    var wanted := if limit.None? || limit.value == 0 then DEFAULT_LIMIT else limit.value;
    if wanted < MAX_LIMIT then wanted else MAX_LIMIT
  }

  // ---- Sizes ----

  function SatAdd(a: nat, b: nat): nat {
    if a + b < USIZE_MAX then a + b else USIZE_MAX
  }

  function Sat(a: nat): nat {
    if a < USIZE_MAX then a else USIZE_MAX
  }

  function RowBytes(r: Row): nat {
    Utf8Len(r.slot.capability) + r.entry.fieldBytes
  }

  function GroupBytes(group: seq<Row>): nat {
    if group == [] then 0 else GroupBytes(group[..|group| - 1]) + RowBytes(group[|group| - 1])
  }

  function TotalBytes(groups: seq<seq<Row>>): nat {
    if groups == [] then 0 else TotalBytes(groups[..|groups| - 1]) + GroupBytes(groups[|groups| - 1])
  }

  /** A page weighs what its rows weigh: capability name, in bytes, and fields. */
  lemma SizesAdd(groups: seq<seq<Row>>, group: seq<Row>, row: Row)
    ensures TotalBytes([]) == 0 && GroupBytes([]) == 0
    ensures TotalBytes(groups + [group]) == TotalBytes(groups) + GroupBytes(group)
    ensures GroupBytes(group + [row]) == GroupBytes(group) + Utf8Len(row.slot.capability) + row.entry.fieldBytes
  {
    assert (groups + [group])[..|groups|] == groups && (group + [row])[..|group|] == group;
  }

  // ---- Grouping a listing into devices ----

  predicate Continues(group: seq<Row>, row: Row) {
    group != [] && group[0].slot.device == row.slot.device
  }

  function AddRow(groups: seq<seq<Row>>, row: Row): seq<seq<Row>> {
    if groups != [] && Continues(groups[|groups| - 1], row) then
      groups[..|groups| - 1] + [groups[|groups| - 1] + [row]]
    else groups + [[row]]
  }

  /** Maximal runs of rows of one device. */
  function Groups(rows: seq<Row>): seq<seq<Row>> {
    if rows == [] then [] else AddRow(Groups(rows[..|rows| - 1]), rows[|rows| - 1])
  }

  function Flatten<T>(groups: seq<seq<T>>): seq<T> {
    if groups == [] then [] else Flatten(groups[..|groups| - 1]) + groups[|groups| - 1]
  }

  lemma {:induction false} GroupsNonEmpty(rows: seq<Row>)
    ensures forall k :: 0 <= k < |Groups(rows)| ==> Groups(rows)[k] != []
  {
    if rows == [] {
    } else {
      GroupsNonEmpty(rows[..|rows| - 1]);
    }
  }

  lemma {:induction false} GroupsFlatten(rows: seq<Row>)
    ensures Flatten(Groups(rows)) == rows
  {
    if rows == [] {
    } else {
      var n := |rows| - 1;
      GroupsFlatten(rows[..n]);
      hide Continues;
      var gs := Groups(rows[..n]);
      if gs != [] && Continues(gs[|gs| - 1], rows[n]) {
        assert AddRow(gs, rows[n])[..|gs| - 1] == gs[..|gs| - 1];
      } else {
        assert AddRow(gs, rows[n])[..|gs|] == gs;
      }
      assert rows == rows[..n] + [rows[n]];
    }
  }

  // ---- Whole devices that fit on one page ----

  /** The first device always fits; more must respect both caps, sizes being exact. */
  predicate Fits(groups: seq<seq<Row>>, limit: nat) {
    |groups| <= limit && (|groups| <= 1 || TotalBytes(groups) <= PAGE_BYTES)
  }

  /** `k` whole devices is the most that fits. */
  ghost predicate LongestFit(groups: seq<seq<Row>>, k: nat, limit: nat) {
    && k <= |groups| && Fits(groups[..k], limit)
    && forall j :: k < j <= |groups| ==> !Fits(groups[..j], limit)
  }

  lemma {:induction false} TotalBytesMonotone(groups: seq<seq<Row>>, i: nat, j: nat)
    requires i <= j <= |groups|
    ensures TotalBytes(groups[..i]) <= TotalBytes(groups[..j])
    decreases j - i
  {
    if i < j {
      TotalBytesMonotone(groups, i, j - 1);
      assert groups[..j][..j - 1] == groups[..j - 1];
    }
  }

  lemma FirstMisfitEnds(groups: seq<seq<Row>>, k: nat, limit: nat)
    requires k < |groups| && Fits(groups[..k], limit) && !Fits(groups[..k + 1], limit)
    ensures LongestFit(groups, k, limit)
  {
    forall j | k < j <= |groups|
      ensures !Fits(groups[..j], limit)
    {
      TotalBytesMonotone(groups, k + 1, j);
    }
  }

  /** In numbers: within both caps, and one device more would break one of them. */
  lemma LongestFitInNumbers(groups: seq<seq<Row>>, k: nat, limit: nat)
    requires LongestFit(groups, k, limit)
    ensures k <= limit && (k > 1 ==> TotalBytes(groups[..k]) <= 1024 * 1024)
    ensures k < |groups| && k < limit ==> TotalBytes(groups[..k + 1]) > 1024 * 1024
  {
    if k < |groups| {
      assert !Fits(groups[..k + 1], limit);
    }
  }

  lemma AddRowKeeps(groups: seq<seq<Row>>, row: Row, k: nat)
    requires k <= |groups|
    requires k < |groups| || groups == [] || !Continues(groups[|groups| - 1], row)
    ensures k < |groups| || k < |AddRow(groups, row)|
    ensures |AddRow(groups, row)| >= |groups| && AddRow(groups, row)[..k] == groups[..k]
  {
  }

  /** Groups already closed by the start of another device are final. */
  lemma {:induction false} ClosedGroupsStay(rows: seq<Row>, i: nat)
    requires i < |rows| && (Groups(rows[..i]) == [] || !Continues(Groups(rows[..i])[|Groups(rows[..i])| - 1], rows[i]))
    ensures |Groups(rows[..i])| < |Groups(rows)|
    ensures Groups(rows)[..|Groups(rows[..i])|] == Groups(rows[..i])
  {
    hide AddRow, Continues;
    var n := |rows| - 1;
    var k := |Groups(rows[..i])|;
    if i < n {
      assert rows[..n][..i] == rows[..i];
      ClosedGroupsStay(rows[..n], i);
    } else {
      assert Groups(rows[..n])[..k] == Groups(rows[..i]);
    }
    AddRowKeeps(Groups(rows[..n]), rows[n], k);
  }

  /** Try to move the pending device onto the page. */
  method Commit(retained: seq<seq<Row>>, running: nat, pending: seq<Row>, pendingBytes: nat, limit: nat)
    returns (retained': seq<seq<Row>>, running': nat, countCapped: bool, byteCapped: bool)
    requires pending != [] && Fits(retained, limit) && limit > 0
    requires running == Sat(TotalBytes(retained)) && pendingBytes == Sat(GroupBytes(pending))
    ensures countCapped || byteCapped <==> !Fits(retained + [pending], limit)
    ensures countCapped || byteCapped ==> retained' == retained && retained != []
    ensures !countCapped && !byteCapped ==> retained' == retained + [pending] && running' == Sat(TotalBytes(retained'))
    ensures countCapped <==> |retained| >= limit
  {
    assert (retained + [pending])[..|retained|] == retained;
    retained', running', countCapped, byteCapped := retained, running, false, false;
    if |retained| >= limit {
      countCapped := true;
      return;
    }
    var wouldBeTotal := SatAdd(running, pendingBytes);
    if retained != [] && wouldBeTotal > PAGE_BYTES {
      byteCapped := true;
      return;
    }
    running' := wouldBeTotal;
    retained' := retained + [pending];
  }

  /** One more row of the pending device, or the first row of the next one. */
  lemma GroupsStep(entries: seq<Row>, i: nat, retained: seq<seq<Row>>, pending: seq<Row>)
    requires i < |entries|
    requires Groups(entries[..i]) == if pending == [] then retained else retained + [pending]
    requires pending != [] ==> pending[0].slot.device == entries[i].slot.device
    requires pending == [] && retained != [] ==> !Continues(retained[|retained| - 1], entries[i])
    ensures Groups(entries[..i + 1]) == retained + [pending + [entries[i]]]
  {
    assert entries[..i + 1][..i] == entries[..i];
    var groups := Groups(entries[..i]);
    assert Groups(entries[..i + 1]) == AddRow(groups, entries[i]);
    if pending != [] {
      assert groups[..|groups| - 1] == retained && groups[|groups| - 1] == pending;
    } else {
      assert pending + [entries[i]] == [entries[i]];
    }
  }

  lemma PendingBytesStep(pending: seq<Row>, row: Row, bytes: nat)
    requires bytes == Sat(GroupBytes(pending))
    ensures Sat(GroupBytes(pending + [row])) ==
            SatAdd(SatAdd(bytes, Utf8Len(row.slot.capability)), row.entry.fieldBytes)
  {
    assert (pending + [row])[..|pending|] == pending;
  }

  /** The page loop: whole devices are collected until one does not fit.  The result is
      the longest prefix of devices within both caps, and the page is marked as capped
      exactly when devices remain; saturating counters decide like exact ones. */
  method BuildPage(entries: seq<Row>, limit: nat) returns (retained: seq<seq<Row>>, capped: bool)
    requires limit > 0
    ensures |retained| <= |Groups(entries)| && retained == Groups(entries)[..|retained|]
    ensures LongestFit(Groups(entries), |retained|, limit)
    ensures capped <==> |retained| < |Groups(entries)|
    ensures capped ==> retained != []
    ensures |retained| <= limit && (|retained| > 1 ==> TotalBytes(retained) <= 1024 * 1024)
    ensures capped && |retained| < limit ==> TotalBytes(Groups(entries)[..|retained| + 1]) > 1024 * 1024
  {
    hide Groups, GroupBytes, TotalBytes, LongestFit, SatAdd, Utf8Len, Fits;
    retained := [];
    var running: nat := 0;
    var pending: seq<Row> := [];
    var pendingBytes: nat := 0;
    EmptyPage(limit);
    for i := 0 to |entries|
      invariant pending == [] ==> i == 0 && retained == []
      invariant Groups(entries[..i]) == if pending == [] then retained else retained + [pending]
      invariant Fits(retained, limit)
      invariant running == Sat(TotalBytes(retained)) && pendingBytes == Sat(GroupBytes(pending))
    {
      if pending != [] && pending[0].slot.device != entries[i].slot.device {
        var retained', running', countCapped, byteCapped := Commit(retained, running, pending, pendingBytes, limit);
        if countCapped || byteCapped {
          ClosedGroupsStay(entries, i);
          PrefixDecides(entries, retained, pending, limit);
          LongestFitInNumbers(Groups(entries), |retained|, limit);
          return retained, true;
        }
        retained, running, pending, pendingBytes := retained', running', [], 0;
        EmptyPage(limit);
      }
      GroupsStep(entries, i, retained, pending);
      PendingBytesStep(pending, entries[i], pendingBytes);
      pendingBytes := SatAdd(SatAdd(pendingBytes, Utf8Len(entries[i].slot.capability)), entries[i].entry.fieldBytes);
      pending := pending + [entries[i]];
    }
    assert entries[..|entries|] == entries;
    if pending != [] {
      var retained', running', countCapped, byteCapped := Commit(retained, running, pending, pendingBytes, limit);
      capped := countCapped || byteCapped;
      AllCommitted(entries, retained, pending, capped, limit);
      retained := retained';
    } else {
      capped := false;
      NothingToList(entries, limit);
    }
    LongestFitInNumbers(Groups(entries), |retained|, limit);
  }

  lemma EmptyPage(limit: nat)
    ensures Groups([]) == [] && Fits([], limit) && Sat(TotalBytes([])) == 0 && Sat(GroupBytes([])) == 0
  {
  }

  lemma NothingToList(entries: seq<Row>, limit: nat)
    requires Groups(entries) == []
    ensures LongestFit(Groups(entries), 0, limit)
  {
  }

  lemma AllCommitted(entries: seq<Row>, retained: seq<seq<Row>>, pending: seq<Row>, capped: bool, limit: nat)
    requires Groups(entries) == retained + [pending] && Fits(retained, limit)
    requires capped <==> !Fits(retained + [pending], limit)
    ensures retained == Groups(entries)[..|retained|] && retained + [pending] == Groups(entries)[..|retained| + 1]
    ensures LongestFit(Groups(entries), if capped then |retained| else |retained| + 1, limit)
  {
    assert Groups(entries)[..|retained|] == retained;
    assert Groups(entries)[..|retained| + 1] == Groups(entries);
    if capped {
      FirstMisfitEnds(Groups(entries), |retained|, limit);
    }
  }

  lemma PrefixDecides(entries: seq<Row>, retained: seq<seq<Row>>, pending: seq<Row>, limit: nat)
    requires |retained| < |Groups(entries)| && Groups(entries)[..|retained| + 1] == retained + [pending]
    requires Fits(retained, limit) && !Fits(retained + [pending], limit)
    ensures retained == Groups(entries)[..|retained|]
    ensures LongestFit(Groups(entries), |retained|, limit)
  {
    var groups := Groups(entries);
    assert groups[..|retained|] == groups[..|retained| + 1][..|retained|];
    FirstMisfitEnds(groups, |retained|, limit);
  }

  // ---- One page of a listing ----

  predicate Beyond(after: Option<string>, slot: Slot) {
    after.None? || SlotLess(Slot(after.value, SENTINEL), slot)
  }

  function PastCursor(after: Option<string>): Row -> bool {
    (r: Row) => Beyond(after, r.slot)
  }

  /** The ordered map's range above a cursor. */
  function Range(rows: seq<Row>, after: Option<string>): seq<Row> {
    Select(rows, PastCursor(after))
  }

  /** The longest prefix with at most `n` devices. */
  function TakeDevices(rows: seq<Row>, n: nat): seq<Row> {
    if |Groups(rows)| <= n then rows else TakeDevices(rows[..|rows| - 1], n)
  }

  function Longest(groups: seq<seq<Row>>, n: nat, limit: nat): (k: nat)
    requires n <= |groups|
    ensures k <= n
  {
    if n == 0 || Fits(groups[..n], limit) then n else Longest(groups, n - 1, limit)
  }

  datatype Page = Page(devices: seq<seq<Row>>, next: Option<string>)

  /** The page after `after`: the most whole devices that fit, and a cursor at the last
      one if devices remain. */
  ghost function PageOf(rows: seq<Row>, after: Option<string>, limit: nat): Page {
    var groups := Groups(Range(rows, after));
    var k := Longest(groups, |groups|, limit);
    Page(groups[..k],
         if 0 < k < |groups| && groups[k - 1] != [] then Some(groups[k - 1][0].slot.device) else None)
  }

  lemma {:induction false} LongestIsLongest(groups: seq<seq<Row>>, n: nat, limit: nat)
    requires n <= |groups|
    ensures Fits(groups[..Longest(groups, n, limit)], limit)
    ensures forall j :: Longest(groups, n, limit) < j <= n ==> !Fits(groups[..j], limit)
    ensures limit > 0 && n > 0 ==> Longest(groups, n, limit) > 0
  {
    if n > 0 && !Fits(groups[..n], limit) {
      LongestIsLongest(groups, n - 1, limit);
    }
  }

  lemma LongestFitUnique(groups: seq<seq<Row>>, k: nat, limit: nat)
    requires LongestFit(groups, k, limit)
    ensures k == Longest(groups, |groups|, limit)
  {
    LongestIsLongest(groups, |groups|, limit);
  }

  lemma {:induction false} TakeDevicesGroups(rows: seq<Row>, n: nat)
    ensures |Groups(rows)| <= n ==> TakeDevices(rows, n) == rows
    ensures |Groups(rows)| > n ==> Groups(TakeDevices(rows, n)) == Groups(rows)[..n]
  {
    if |Groups(rows)| > n {
      var m := |rows| - 1;
      TakeDevicesGroups(rows[..m], n);
      if |Groups(rows[..m])| > n || n == 0 || !Continues(Groups(rows[..m])[|Groups(rows[..m])| - 1], rows[m]) {
        AddRowKeeps(Groups(rows[..m]), rows[m], n);
      }
    }
  }

  /** One group more than the limit decides like all of them. */
  lemma TruncationDecides(all: seq<seq<Row>>, groups: seq<seq<Row>>, k: nat, limit: nat)
    requires groups == all || (|all| > limit + 1 && groups == all[..limit + 1])
    requires LongestFit(groups, k, limit)
    ensures LongestFit(all, k, limit) && groups[..k] == all[..k] && (k < |groups| <==> k < |all|)
  {
    forall j | k < j <= |all|
      ensures !Fits(all[..j], limit)
    {
      if j <= |groups| {
        assert all[..j] == groups[..j];
      }
    }
    assert all[..k] == groups[..k];
  }

  lemma PageIs(rows: seq<Row>, after: Option<string>, limit: nat, k: nat)
    requires limit > 0 && LongestFit(Groups(Range(rows, after)), k, limit)
    ensures var groups := Groups(Range(rows, after));
      var page := PageOf(rows, after, limit);
      && page.devices == groups[..k]
      && (k == |groups| ==> page.next == None)
      && (k < |groups| ==> k > 0 && groups[k - 1] != [] && page.next == Some(groups[k - 1][0].slot.device))
  {
    var groups := Groups(Range(rows, after));
    GroupsNonEmpty(Range(rows, after));
    LongestFitUnique(groups, k, limit);
    LongestIsLongest(groups, |groups|, limit);
    hide Groups, Range, LongestFit, Longest, Fits;
  }

  /** Fetching one device more than the page holds is enough: the page built from the
      truncated listing is the page of the whole listing. */
  lemma FetchedPageIsPage(rows: seq<Row>, after: Option<string>, limit: nat, retained: seq<seq<Row>>, capped: bool)
    requires limit > 0
    requires var groups := Groups(TakeDevices(Range(rows, after), limit + 1));
      && |retained| <= |groups| && retained == groups[..|retained|]
      && LongestFit(groups, |retained|, limit) && (capped <==> |retained| < |groups|)
    ensures PageOf(rows, after, limit).devices == retained
    ensures PageOf(rows, after, limit).next.Some? <==> capped
    ensures capped ==> retained != [] && retained[|retained| - 1] != []
                       && PageOf(rows, after, limit).next == Some(retained[|retained| - 1][0].slot.device)
  {
    hide Groups, TakeDevices, Range, LongestFit, PageOf;
    TakeDevicesGroups(Range(rows, after), limit + 1);
    var range := Range(rows, after);
    TruncationDecides(Groups(range), Groups(TakeDevices(range, limit + 1)), |retained|, limit);
    PageIs(rows, after, limit, |retained|);
  }

  // ---- Walking a frozen store ----

  predicate Uniform(group: seq<Row>) {
    group != [] && forall i :: 0 <= i < |group| ==> group[i].slot.device == group[0].slot.device
  }

  lemma {:induction false} GroupsUniform(rows: seq<Row>)
    ensures forall k :: 0 <= k < |Groups(rows)| ==> Uniform(Groups(rows)[k])
    ensures rows != [] ==> Groups(rows) != [] && Groups(rows)[0] != [] && Groups(rows)[0][0] == rows[0]
  {
    if rows == [] {
    } else {
      GroupsUniform(rows[..|rows| - 1]);
      AddRowUniform(Groups(rows[..|rows| - 1]), rows[|rows| - 1]);
    }
  }

  lemma AddRowUniform(groups: seq<seq<Row>>, row: Row)
    requires forall k :: 0 <= k < |groups| ==> Uniform(groups[k])
    ensures forall k :: 0 <= k < |AddRow(groups, row)| ==> Uniform(AddRow(groups, row)[k])
    ensures AddRow(groups, row) != []
    ensures groups != [] ==> AddRow(groups, row)[0] != [] && AddRow(groups, row)[0][0] == groups[0][0]
  {
    if groups != [] && Continues(groups[|groups| - 1], row) {
      assert Uniform(groups[|groups| - 1] + [row]);
    }
  }

  /** Neighbouring groups are of different devices. */
  lemma {:induction false} GroupsApart(rows: seq<Row>, k: nat)
    requires 0 < k < |Groups(rows)|
    ensures Groups(rows)[k - 1] != [] && Groups(rows)[k] != []
    ensures Groups(rows)[k - 1][0].slot.device != Groups(rows)[k][0].slot.device
  {
    var n := |rows| - 1;
    var groups := Groups(rows[..n]);
    GroupsNonEmpty(rows[..n]);
    assert Groups(rows) == AddRow(groups, rows[n]);
    hide Groups, AddRow;
    AddRowFirsts(groups, rows[n], k);
    if k < |groups| {
      GroupsApart(rows[..n], k);
    }
  }

  /** A row changes no group's first row; a new group it opens is of another device. */
  lemma AddRowFirsts(groups: seq<seq<Row>>, row: Row, k: nat)
    requires 0 < k < |AddRow(groups, row)| && forall j :: 0 <= j < |groups| ==> groups[j] != []
    ensures k <= |groups| && AddRow(groups, row)[k] != [] && AddRow(groups, row)[k - 1] != []
    ensures AddRow(groups, row)[k - 1][0] == groups[k - 1][0]
    ensures k < |groups| ==> AddRow(groups, row)[k][0] == groups[k][0]
    ensures k == |groups| ==> AddRow(groups, row)[k][0].slot.device != groups[k - 1][0].slot.device
  {
  }

  /** Adding a row commutes with dropping closed groups. */
  lemma AddRowDrops(groups: seq<seq<Row>>, row: Row, k: nat)
    requires k < |AddRow(groups, row)|
    ensures k <= |groups| && AddRow(groups, row)[..k] == groups[..k]
    ensures AddRow(groups, row)[k..] == AddRow(groups[k..], row)
  {
    if k < |groups| {
      assert groups[k..][|groups[k..]| - 1] == groups[|groups| - 1];
      assert groups[..|groups| - 1][k..] == groups[k..][..|groups[k..]| - 1];
    }
  }

  /** Cutting a listing between two of its devices cuts its groups there. */
  lemma {:induction false} GroupsSplit(rows: seq<Row>, k: nat)
    requires k <= |Groups(rows)|
    ensures |Flatten(Groups(rows)[..k])| <= |rows|
    ensures Groups(rows[|Flatten(Groups(rows)[..k])|..]) == Groups(rows)[k..]
    ensures rows[..|Flatten(Groups(rows)[..k])|] == Flatten(Groups(rows)[..k])
  {
    if k == |Groups(rows)| {
      GroupsFlatten(rows);
      assert Groups(rows)[..k] == Groups(rows) && Groups(rows)[k..] == [];
      assert rows[|rows|..] == [] && rows[..|rows|] == rows;
    } else {
      var n := |rows| - 1;
      var front := Groups(rows[..n]);
      AddRowDrops(front, rows[n], k);
      GroupsSplit(rows[..n], k);
      GroupsStepAt(rows, |Flatten(front[..k])|);
      hide Flatten, AddRow, Groups;
      assert rows[..|Flatten(front[..k])|] == rows[..n][..|Flatten(front[..k])|];
    }
  }

  lemma GroupsUnfold(rows: seq<Row>)
    requires rows != []
    ensures Groups(rows) == AddRow(Groups(rows[..|rows| - 1]), rows[|rows| - 1])
  {
  }

  lemma GroupsStepAt(rows: seq<Row>, m: nat)
    requires rows != [] && m < |rows|
    ensures Groups(rows) == AddRow(Groups(rows[..|rows| - 1]), rows[|rows| - 1])
    ensures Groups(rows[m..]) == AddRow(Groups(rows[..|rows| - 1][m..]), rows[|rows| - 1])
  {
    hide *;
    var tail, front := rows[m..], rows[..|rows| - 1][m..];
    assert tail[..|tail| - 1] == front && tail[|tail| - 1] == rows[|rows| - 1];
    GroupsUnfold(rows);
    GroupsUnfold(tail);
  }

  lemma {:induction false} SelectSuffix(rows: seq<Row>, keep: Row -> bool, m: nat)
    requires m <= |rows|
    requires forall i :: 0 <= i < m ==> !keep(rows[i])
    requires forall i :: m <= i < |rows| ==> keep(rows[i])
    ensures Select(rows, keep) == rows[m..]
  {
    if rows == [] {
    } else {
      var n := |rows| - 1;
      SelectSuffix(rows[..n], keep, if m <= n then m else n);
      if m <= n {
        assert rows[m..] == rows[..n][m..] + [rows[n]];
      }
    }
  }

  lemma {:induction false} SelectTwice(rows: seq<Row>, p: Row -> bool, q: Row -> bool)
    requires forall r :: r in rows && q(r) ==> p(r)
    ensures Select(Select(rows, p), q) == Select(rows, q)
  {
    if rows == [] {
    } else {
      var n := |rows| - 1;
      SelectTwice(rows[..n], p, q);
      var front := Select(rows[..n], p);
      assert (front + [rows[n]])[..|front|] == front;
    }
  }

  /** Only the last device of the store may have a capability name above the sentinel. */
  ghost predicate CursorSafe(rows: seq<Row>) {
    forall x, y :: x in rows && y in rows && Less(x.slot.device, y.slot.device) ==> !Less(SENTINEL, x.slot.capability)
  }

  /** Which is so whenever every row is of a real capability, as all gated writers see to. */
  lemma RealNamesAreSafe(rows: seq<Row>)
    requires RealNames(rows)
    ensures CursorSafe(rows)
  {
    forall x | x in rows
      ensures !Less(SENTINEL, x.slot.capability)
    {
      NameBelowSentinel(x.slot.capability);
    }
  }

  lemma RangeFacts(rows: seq<Row>, after: Option<string>)
    requires Sorted(rows)
    ensures Sorted(Range(rows, after))
    ensures forall x :: x in Range(rows, after) <==> x in rows && Beyond(after, x.slot)
  {
    SelectKeepsSorted(rows, PastCursor(after));
    SelectMembers(rows, PastCursor(after));
  }

  lemma SlotLessDevices(s: Slot, t: Slot)
    requires SlotLess(s, t)
    ensures s.device == t.device || Less(s.device, t.device)
    ensures !Less(t.device, s.device)
  {
    if Less(t.device, s.device) {
      LessIrreflexive(s.device);
      if Less(s.device, t.device) {
        LessTransitive(s.device, t.device, s.device);
      }
    }
  }

  lemma FlattenLast(groups: seq<seq<Row>>, k: nat)
    requires 0 < k <= |groups| && groups[k - 1] != []
    ensures |Flatten(groups[..k])| > 0
    ensures Flatten(groups[..k])[|Flatten(groups[..k])| - 1] == groups[k - 1][|groups[k - 1]| - 1]
  {
    assert groups[..k][..k - 1] == groups[..k - 1];
  }

  /** Where one group ends and the next begins in a sorted listing. */
  lemma GroupBoundary(rows: seq<Row>, k: nat)
    requires Sorted(rows) && 0 < k < |Groups(rows)|
    ensures var m := |Flatten(Groups(rows)[..k])|;
      && 0 < m < |rows| && Groups(rows)[k - 1] != [] && Groups(rows)[k] != []
      && rows[m - 1].slot.device == Groups(rows)[k - 1][0].slot.device
      && rows[m] == Groups(rows)[k][0]
      && Less(rows[m - 1].slot.device, rows[m].slot.device)
  {
    hide Groups, Flatten, Less;
    var groups := Groups(rows);
    var m := |Flatten(groups[..k])|;
    GroupsUniform(rows);
    GroupsApart(rows, k);
    GroupFirstRow(rows, k);
    GroupsSplit(rows, k);
    assert Uniform(groups[k - 1]);
    FlattenLast(groups, k);
    assert rows[m - 1] == rows[..m][m - 1];
    SlotLessDevices(rows[m - 1].slot, rows[m].slot);
  }

  lemma GroupFirstRow(rows: seq<Row>, k: nat)
    requires k < |Groups(rows)|
    ensures |Flatten(Groups(rows)[..k])| < |rows| && Groups(rows)[k] != []
    ensures Groups(rows)[k][0] == rows[|Flatten(Groups(rows)[..k])|]
  {
    GroupsSplit(rows, k);
    var m := |Flatten(Groups(rows)[..k])|;
    assert Groups(rows[m..])[0] == Groups(rows)[k];
    GroupsUniform(rows[m..]);
    assert Groups([]) == [];
    assert rows[m..] != [];
  }

  /** Where a page ends: its rows are the first `m` of the range, all of devices up to
      the cursor's; the rows that follow are of later devices. */
  lemma PageCut(rows: seq<Row>, after: Option<string>, limit: nat)
    requires Sorted(rows) && limit > 0 && PageOf(rows, after, limit).next.Some?
    ensures var p, range := PageOf(rows, after, limit), Range(rows, after);
      var m := |Flatten(p.devices)|;
      && 0 < m < |range| && range[..m] == Flatten(p.devices)
      && Groups(range[m..]) == Groups(range)[|p.devices|..]
      && range[m - 1].slot.device == p.next.value && Less(p.next.value, range[m].slot.device)
  {
    RangeFacts(rows, after);
    var p, range := PageOf(rows, after, limit), Range(rows, after);
    hide Groups, Flatten, Range, Sorted;
    GroupsSplit(range, |p.devices|);
    GroupBoundary(range, |p.devices|);
  }

  /** A cursor resumes right after the page that issued it, if no device but the last
      one has a capability above the sentinel. */
  lemma CursorResumes(rows: seq<Row>, after: Option<string>, limit: nat)
    requires Sorted(rows) && CursorSafe(rows) && limit > 0 && PageOf(rows, after, limit).next.Some?
    ensures var p := PageOf(rows, after, limit);
      && 0 < |Flatten(p.devices)| <= |Range(rows, after)|
      && Range(rows, p.next) == Range(rows, after)[|Flatten(p.devices)|..]
      && Groups(Range(rows, p.next)) == Groups(Range(rows, after))[|p.devices|..]
  {
    hide *;
    var p, range := PageOf(rows, after, limit), Range(rows, after);
    PageCut(rows, after, limit);
    assert p.next == Some(p.next.value);
    RangeSplits(rows, after, p.next.value, |Flatten(p.devices)|);
  }

  lemma RangeSplits(rows: seq<Row>, after: Option<string>, d: string, m: nat)
    requires Sorted(rows) && CursorSafe(rows)
    requires var range := Range(rows, after);
      0 < m < |range| && range[m - 1].slot.device == d && Less(d, range[m].slot.device)
    ensures Range(rows, Some(d)) == Range(rows, after)[m..]
  {
    var range := Range(rows, after);
    RangeFacts(rows, after);
    assert range[m - 1] in range && range[m] in range;
    forall i | 0 <= i < m
      ensures !Beyond(Some(d), range[i].slot)
    {
      assert range[i] in range;
      BehindCursor(rows, d, range[i], range[m - 1], range[m]);
    }
    forall i | m <= i < |range|
      ensures Beyond(Some(d), range[i].slot)
    {
      AheadOfCursor(d, range[m], range[i]);
    }
    forall r | r in rows && Beyond(Some(d), r.slot)
      ensures Beyond(after, r.slot)
    {
      CursorsRise(after, d, range[m - 1], r);
    }
    hide Sorted, CursorSafe, Beyond, Select;
    SelectSuffix(range, PastCursor(Some(d)), m);
    SelectTwice(rows, PastCursor(after), PastCursor(Some(d)));
  }

  lemma AheadOfCursor(d: string, first: Row, r: Row)
    requires Less(d, first.slot.device) && (r == first || SlotLess(first.slot, r.slot))
    ensures Beyond(Some(d), r.slot)
  {
    if r != first {
      SlotLessDevices(first.slot, r.slot);
      if Less(first.slot.device, r.slot.device) {
        LessTransitive(d, first.slot.device, r.slot.device);
      }
    }
  }

  /** Rows up to the page's last one are not listed again. */
  lemma BehindCursor(rows: seq<Row>, d: string, x: Row, last: Row, later: Row)
    requires CursorSafe(rows) && x in rows && later in rows
    requires x == last || SlotLess(x.slot, last.slot)
    requires last.slot.device == d && Less(d, later.slot.device)
    ensures !Beyond(Some(d), x.slot)
  {
    LessIrreflexive(d);
    if x != last {
      SlotLessDevices(x.slot, last.slot);
    }
  }

  /** A later cursor never brings back what an earlier one left out. */
  lemma CursorsRise(after: Option<string>, d: string, last: Row, r: Row)
    requires Beyond(after, last.slot) && last.slot.device == d && Beyond(Some(d), r.slot)
    ensures Beyond(after, r.slot)
  {
    if after.Some? && after.value != d {
      SlotLessTransitive(Slot(after.value, SENTINEL), Slot(d, SENTINEL), r.slot);
    }
  }

  /** All pages of a frozen store, from a cursor on. */
  ghost function Pages(rows: seq<Row>, after: Option<string>, limit: nat): seq<seq<seq<Row>>>
    requires Sorted(rows) && CursorSafe(rows) && limit > 0
    decreases |Range(rows, after)|
  {
    var p := PageOf(rows, after, limit);
    if p.next.None? then [p.devices]
    else
      CursorResumes(rows, after, limit);
      [p.devices] + Pages(rows, p.next, limit)
  }

  lemma FlattenUnfold<T>(groups: seq<seq<T>>)
    requires groups != []
    ensures Flatten(groups) == Flatten(groups[..|groups| - 1]) + groups[|groups| - 1]
  {
  }

  lemma {:induction false} FlattenPrepend<T>(first: seq<T>, rest: seq<seq<T>>)
    ensures Flatten([first] + rest) == first + Flatten(rest)
  {
    var all := [first] + rest;
    FlattenUnfold(all);
    if rest == [] {
      assert all[..0] == [];
    } else {
      var n := |rest| - 1;
      FlattenPrepend(first, rest[..n]);
      FlattenUnfold(rest);
      hide Flatten;
      assert all[..n + 1] == [first] + rest[..n];
    }
  }

  lemma LastPageHasAll(rows: seq<Row>, after: Option<string>, limit: nat)
    requires limit > 0 && PageOf(rows, after, limit).next.None?
    ensures PageOf(rows, after, limit).devices == Groups(Range(rows, after))
  {
    var groups := Groups(Range(rows, after));
    LongestIsLongest(groups, |groups|, limit);
    GroupsNonEmpty(Range(rows, after));
    assert groups[..|groups|] == groups;
  }

  lemma PagesStep(rows: seq<Row>, after: Option<string>, limit: nat)
    requires Sorted(rows) && CursorSafe(rows) && limit > 0
    ensures var p, groups := PageOf(rows, after, limit), Groups(Range(rows, after));
      && (p.next.None? ==> Pages(rows, after, limit) == [p.devices] && p.devices == groups)
      && (p.next.Some? ==>
            && Pages(rows, after, limit) == [p.devices] + Pages(rows, p.next, limit)
            && |Range(rows, p.next)| < |Range(rows, after)|
            && 0 < |p.devices| < |groups| && p.devices == groups[..|p.devices|]
            && Groups(Range(rows, p.next)) == groups[|p.devices|..])
  {
    var p := PageOf(rows, after, limit);
    if p.next.None? {
      LastPageHasAll(rows, after, limit);
    } else {
      assert 0 < |p.devices| < |Groups(Range(rows, after))| && p.devices == Groups(Range(rows, after))[..|p.devices|];
      hide PageOf, Range, Groups, Flatten, Sorted, CursorSafe;
      CursorResumes(rows, after, limit);
    }
  }

  /** Over a frozen store the pages concatenate to the full listing by whole devices, in
      finitely many pages, at most one per device (and one for an empty store). */
  lemma {:induction false} PagesListEverything(rows: seq<Row>, after: Option<string>, limit: nat)
    requires Sorted(rows) && CursorSafe(rows) && limit > 0
    ensures Flatten(Pages(rows, after, limit)) == Groups(Range(rows, after))
    ensures |Pages(rows, after, limit)| <= Max(1, |Groups(Range(rows, after))|)
    decreases |Range(rows, after)|
  {
    hide Pages, PageOf, Range, Groups, Sorted, CursorSafe;
    var groups := Groups(Range(rows, after));
    var p := PageOf(rows, after, limit);
    PagesStep(rows, after, limit);
    if p.next.None? {
      assert [p.devices][..0] == [];
    } else {
      PagesListEverything(rows, p.next, limit);
      FlattenPrepend(p.devices, Pages(rows, p.next, limit));
      assert groups == p.devices + groups[|p.devices|..];
    }
  }

  /** No two groups of a sorted listing are of the same device, so each device is
      listed once. */
  lemma EachDeviceOnce(rows: seq<Row>, i: nat, j: nat)
    requires Sorted(rows) && i < j < |Groups(rows)|
    ensures Groups(rows)[i] != [] && Groups(rows)[j] != []
    ensures Less(Groups(rows)[i][0].slot.device, Groups(rows)[j][0].slot.device)
    decreases j - i
  {
    GroupBoundary(rows, j);
    if i < j - 1 {
      EachDeviceOnce(rows, i, j - 1);
      LessTransitive(Groups(rows)[i][0].slot.device, Groups(rows)[j - 1][0].slot.device,
          Groups(rows)[j][0].slot.device);
    }
  }

  /** A walk over the frozen store ends within `n` pages. */
  ghost predicate Ends(rows: seq<Row>, after: Option<string>, limit: nat, n: nat)
    decreases n
  {
    n > 0 && (PageOf(rows, after, limit).next.None? || Ends(rows, PageOf(rows, after, limit).next, limit, n - 1))
  }

  lemma {:induction false} SafeWalkEnds(rows: seq<Row>, after: Option<string>, limit: nat)
    requires Sorted(rows) && CursorSafe(rows) && limit > 0
    ensures Ends(rows, after, limit, 1 + |Range(rows, after)|)
    decreases |Range(rows, after)|
  {
    var p := PageOf(rows, after, limit);
    if p.next.Some? {
      CursorResumes(rows, after, limit);
      SafeWalkEnds(rows, p.next, limit);
      MorePagesStillEnds(rows, p.next, limit, 1 + |Range(rows, p.next)|, |Range(rows, after)|);
    }
  }

  lemma {:induction false} MorePagesStillEnds(rows: seq<Row>, after: Option<string>, limit: nat, n: nat, m: nat)
    requires Ends(rows, after, limit, n) && n <= m
    ensures Ends(rows, after, limit, m)
    decreases n
  {
    hide PageOf;
    if PageOf(rows, after, limit).next.Some? {
      MorePagesStillEnds(rows, PageOf(rows, after, limit).next, limit, n - 1, m - 1);
    }
  }

  /** With one device per page, a cursor cannot get past a device that has a capability
      above the sentinel and is not the last. */
  lemma WalkIsStuck(rows: seq<Row>, after: Option<string>, x: Row, y: Row)
    requires Sorted(rows) && x in rows && y in rows
    requires Less(x.slot.device, y.slot.device) && Less(SENTINEL, x.slot.capability)
    requires after.Some? ==> after.value == x.slot.device || Less(after.value, x.slot.device)
    ensures var next := PageOf(rows, after, 1).next;
      next.Some? && (next.value == x.slot.device || Less(next.value, x.slot.device))
  {
    var range := Range(rows, after);
    BothStayAhead(rows, after, x, y);
    hide Range, Groups, PageOf, Less, Sorted;
    assert |Groups(range)| > 1 by {
      LessIrreflexive(x.slot.device);
      if |Groups(range)| == 1 {
        OneGroupOneDevice(range, x, y);
      } else if |Groups(range)| == 0 {
        GroupsUniform(range);
      }
    }
    OnePerPage(rows, after);
    FirstIsLeast(range, x);
  }

  lemma BothStayAhead(rows: seq<Row>, after: Option<string>, x: Row, y: Row)
    requires Sorted(rows) && x in rows && y in rows
    requires Less(x.slot.device, y.slot.device) && Less(SENTINEL, x.slot.capability)
    requires after.Some? ==> after.value == x.slot.device || Less(after.value, x.slot.device)
    ensures Sorted(Range(rows, after)) && x in Range(rows, after) && y in Range(rows, after)
  {
    RangeFacts(rows, after);
    if after.Some? && after.value != x.slot.device {
      LessTransitive(after.value, x.slot.device, y.slot.device);
    }
  }

  /** With a page size of one the cursor names the first device ahead. */
  lemma OnePerPage(rows: seq<Row>, after: Option<string>)
    requires |Groups(Range(rows, after))| > 1
    ensures Range(rows, after) != [] && PageOf(rows, after, 1).next == Some(Range(rows, after)[0].slot.device)
  {
    var groups := Groups(Range(rows, after));
    GroupsUniform(Range(rows, after));
    assert Range(rows, after) != [];
    assert LongestFit(groups, 1, 1);
    PageIs(rows, after, 1, 1);
  }

  lemma FirstIsLeast(range: seq<Row>, x: Row)
    requires Sorted(range) && x in range
    ensures range[0].slot.device == x.slot.device || Less(range[0].slot.device, x.slot.device)
  {
    var i :| 0 <= i < |range| && range[i] == x;
    if i > 0 {
      SlotLessDevices(range[0].slot, x.slot);
    }
  }

  lemma OneGroupOneDevice(rows: seq<Row>, x: Row, y: Row)
    requires |Groups(rows)| == 1 && x in rows && y in rows
    ensures x.slot.device == y.slot.device
  {
    GroupsFlatten(rows);
    GroupsUniform(rows);
    var groups := Groups(rows);
    hide Groups;
    assert groups[..0] == [];
    assert rows == groups[0];
  }

  lemma {:induction false} UnsafeWalkNeverEnds(rows: seq<Row>, after: Option<string>, x: Row, y: Row, n: nat)
    requires Sorted(rows) && x in rows && y in rows
    requires Less(x.slot.device, y.slot.device) && Less(SENTINEL, x.slot.capability)
    requires after.Some? ==> after.value == x.slot.device || Less(after.value, x.slot.device)
    ensures !Ends(rows, after, 1, n)
    decreases n
  {
    hide PageOf;
    if n == 0 {
    } else {
      WalkIsStuck(rows, after, x, y);
      UnsafeWalkNeverEnds(rows, PageOf(rows, after, 1).next, x, y, n - 1);
    }
  }

  ghost predicate WalkEnds(rows: seq<Row>, limit: nat) {
    exists n: nat :: Ends(rows, None, limit, n)
  }

  /** A remark about direct callers of the store, which no gate keeps to real names: for
      any rows at all, every walk ends, whatever the page size, exactly when only the last
      device has a capability above the sentinel. */
  lemma WalkEndsExactlyWhenSafe(rows: seq<Row>)
    requires Sorted(rows)
    ensures CursorSafe(rows) <==> forall limit: nat :: limit > 0 ==> WalkEnds(rows, limit)
  {
    if CursorSafe(rows) {
      forall limit: nat | limit > 0
        ensures WalkEnds(rows, limit)
      {
        SafeWalkEnds(rows, None, limit);
      }
    } else {
      var x, y :| x in rows && y in rows && Less(x.slot.device, y.slot.device) && Less(SENTINEL, x.slot.capability);
      forall n: nat
        ensures !Ends(rows, None, 1, n)
      {
        UnsafeWalkNeverEnds(rows, None, x, y, n);
      }
      assert !WalkEnds(rows, 1);
    }
  }
}
