/** The dock status page (src/app/dock-status/page.tsx): the occupancy board of
    docks "1".."70" built from the daily log and the manual block list, the
    block and unblock actions on that list, and the page's counters and filter.

    The block list, which the page keeps in browser storage as
    `{ [dock]: { reason } }`, is a map from dock number to reason. The daily
    log query result is a sequence of rows in the order the database returns
    them. */
module DockStatus {
  import opened Text
  import opened Optional

  /** A `daily_log` row; "" stands for a row with no dock. */
  datatype LogRow = LogRow(
    id: string, poNumber: string, driverName: string,
    status: string, checkInTime: string, dockNumber: string, updatedAt: string)

  /** What the board shows of an order occupying a dock. */
  datatype OrderInfo = OrderInfo(
    id: string, poNumber: string, driverName: string, status: string, checkInTime: string)

  datatype Status = Available | InUse | DoubleBooked | Blocked

  datatype Dock = Dock(
    dockNumber: string, status: Status, orders: seq<OrderInfo>,
    isManuallyBlocked: bool, blockedReason: Option<string>)

  /** The page initialises docks 1 to 70. */
  const DockCount: nat := 70

  /** The key of dock `i` in the page's dock map: `i.toString()`. */
  function DockKey(i: nat): string {
    NatToString(i)
  }

  /** The dock map's key set: "1" to "70". */
  predicate IsDockKey(d: string) {
    exists i | 1 <= i <= DockCount :: DockKey(i) == d
  }

  lemma DockKeysDistinct(a: nat, b: nat)
    requires a != b
    ensures DockKey(a) != DockKey(b)
  {
    if DockKey(a) == DockKey(b) { NatToStringInjective(a, b); }
  }

  /** The query keeps every row whose status is not exactly 'complete'. */
  predicate IsActive(row: LogRow) {
    row.status != "complete"
  }

  /** The rows of `.neq('status', 'complete')`, in the order given. */
  function ActiveRows(table: seq<LogRow>): (r: seq<LogRow>)
    ensures |r| <= |table|
    ensures forall i | 0 <= i < |r| :: IsActive(r[i])
  {
    if table == [] then []
    else
      var last := table[|table| - 1];
      ActiveRows(table[..|table| - 1]) + (if IsActive(last) then [last] else [])
  }

  function OrderOf(row: LogRow): OrderInfo {
    OrderInfo(row.id, row.poNumber, row.driverName, row.status, row.checkInTime)
  }

  /** The orders pushed onto dock `d`: the rows naming it, in input order. */
  function OrdersOn(logs: seq<LogRow>, d: string): seq<OrderInfo> {
    if logs == [] then []
    else
      var last := logs[|logs| - 1];
      OrdersOn(logs[..|logs| - 1], d) + (if last.dockNumber == d then [OrderOf(last)] else [])
  }

  /** Status an unblocked dock takes from the number of orders on it. */
  function StatusForCount(n: nat): Status {
    if n == 0 then Available else if n == 1 then InUse else DoubleBooked
  }

  /** The entry the page builds for dock `d`. */
  function ResolveDock(d: string, blocked: map<string, string>, logs: seq<LogRow>): (r: Dock)
    ensures r.dockNumber == d
    ensures r.status == Blocked <==> d in blocked
    ensures r.isManuallyBlocked <==> d in blocked
    ensures d in blocked ==> r.orders == [] && r.blockedReason == Some(blocked[d])
    ensures d !in blocked ==>
      && r.orders == OrdersOn(logs, d) && r.blockedReason == None
      && (r.status == Available <==> r.orders == [])
      && (r.status == DoubleBooked <==> |r.orders| >= 2)
  {
    if d in blocked then Dock(d, Blocked, [], true, Some(blocked[d]))
    else
      var orders := OrdersOn(logs, d);
      Dock(d, StatusForCount(|orders|), orders, false, None)
  }

  /** The board for the given block list and query result, docks in ascending order. */
  function Board(blocked: map<string, string>, logs: seq<LogRow>): (r: seq<Dock>)
    ensures |r| == DockCount
  {
    seq(DockCount, i requires 0 <= i < DockCount => ResolveDock(DockKey(i + 1), blocked, logs))
  }

  /** The entry a dock gets before any row is read. */
  function InitialDock(d: string, blocked: map<string, string>): Dock {
    ResolveDock(d, blocked, [])
  }

  /** `fetchDockStatuses`: fills a map over docks "1".."70", then walks the query
      result pushing each row onto the dock it names, then lists the docks in
      ascending numeric order. */
  method BuildDockStatuses(table: seq<LogRow>, blocked: map<string, string>)
    returns (docks: seq<Dock>)
    ensures docks == Board(blocked, ActiveRows(table))
  {
    var logs := ActiveRows(table);
    var dockMap := InitialDocks(blocked);
    dockMap := PlaceRows(dockMap, blocked, logs);
    docks := [];
    for i := 1 to DockCount + 1
      invariant |docks| == i - 1
      invariant forall k | 0 <= k < i - 1 :: docks[k] == ResolveDock(DockKey(k + 1), blocked, logs)
    {
      docks := docks + [dockMap[DockKey(i)]];
    }
    BoardOfEntries(docks, blocked, logs);
  }

  /** Seventy entries, each the resolved dock of its number, are the board. */
  lemma BoardOfEntries(docks: seq<Dock>, blocked: map<string, string>, logs: seq<LogRow>)
    requires |docks| == DockCount
    requires forall k | 0 <= k < DockCount :: docks[k] == ResolveDock(DockKey(k + 1), blocked, logs)
    ensures docks == Board(blocked, logs)
  {
  }

  /** The first loop of `fetchDockStatuses`: every dock empty, or blocked
      with its reason. */
  method InitialDocks(blocked: map<string, string>) returns (dockMap: map<string, Dock>)
    ensures forall k | 1 <= k <= DockCount ::
      DockKey(k) in dockMap && dockMap[DockKey(k)] == ResolveDock(DockKey(k), blocked, [])
  {
    dockMap := map[];
    for i := 1 to DockCount + 1
      invariant forall k | 1 <= k < i ::
        DockKey(k) in dockMap && dockMap[DockKey(k)] == ResolveDock(DockKey(k), blocked, [])
    {
      var dockNum := DockKey(i);
      var blockedInfo := if dockNum in blocked then Some(blocked[dockNum]) else None;
      dockMap := dockMap[dockNum := Dock(
        dockNum, if blockedInfo.Some? then Blocked else Available, [],
        blockedInfo.Some?, blockedInfo)];
    }
  }

  /** The second loop of `fetchDockStatuses`: each row is pushed onto the
      unblocked dock it names; a row naming no dock of the map is skipped. */
  method PlaceRows(start: map<string, Dock>, blocked: map<string, string>, logs: seq<LogRow>)
    returns (dockMap: map<string, Dock>)
    requires forall k | 1 <= k <= DockCount ::
      DockKey(k) in start && start[DockKey(k)] == ResolveDock(DockKey(k), blocked, [])
    ensures forall k | 1 <= k <= DockCount ::
      DockKey(k) in dockMap && dockMap[DockKey(k)] == ResolveDock(DockKey(k), blocked, logs)
  {
    dockMap := start;
    for j := 0 to |logs|
      invariant forall k | 1 <= k <= DockCount ::
        DockKey(k) in dockMap && dockMap[DockKey(k)] == ResolveDock(DockKey(k), blocked, logs[..j])
    {
      var log := logs[j];
      assert logs[..j + 1] == logs[..j] + [log];
      forall k | 1 <= k <= DockCount {
        ResolveStep(DockKey(k), blocked, logs[..j], log);
      }
      if log.dockNumber != "" && log.dockNumber in dockMap {
        var dock := dockMap[log.dockNumber];
        if !dock.isManuallyBlocked {
          var orders := dock.orders + [OrderOf(log)];
          var status := dock.status;
          if |orders| == 1 {
            status := InUse;
          } else if |orders| > 1 {
            status := DoubleBooked;
          }
          dock := dock.(orders := orders, status := status);
        }
        dockMap := dockMap[log.dockNumber := dock];
      }
    }
    assert logs[..|logs|] == logs;
  }

  /** Reading one more row changes only the dock it names, and only when
      that dock is not blocked: the order is appended and the status follows
      the new count. */
  lemma ResolveStep(d: string, blocked: map<string, string>, logs: seq<LogRow>, row: LogRow)
    ensures var before := ResolveDock(d, blocked, logs);
      ResolveDock(d, blocked, logs + [row]) ==
        if row.dockNumber == d && !before.isManuallyBlocked then
          before.(orders := before.orders + [OrderOf(row)],
                  status := StatusForCount(|before.orders| + 1))
        else before
  {
    assert (logs + [row])[..|logs|] == logs;
  }

  // ---- What the board says about each dock ----

  /** The board lists each dock "1".."70" once, in ascending numeric order. */
  lemma BoardLayout(blocked: map<string, string>, logs: seq<LogRow>)
    ensures forall i | 0 <= i < DockCount :: Board(blocked, logs)[i].dockNumber == DockKey(i + 1)
    ensures forall k | 1 <= k <= DockCount :: ParseDigits(DockKey(k)) == k
    ensures forall i, j | 0 <= i < j < DockCount ::
      Board(blocked, logs)[i].dockNumber != Board(blocked, logs)[j].dockNumber
  {
    var b := Board(blocked, logs);
    forall i | 0 <= i < DockCount
      ensures b[i].dockNumber == DockKey(i + 1)
    {
      ResolveDockNumber(DockKey(i + 1), blocked, logs);
    }
    forall k | 1 <= k <= DockCount
      ensures ParseDigits(DockKey(k)) == k
    {
      ParseNatToString(k);
    }
    forall i, j | 0 <= i < j < DockCount
      ensures b[i].dockNumber != b[j].dockNumber
    {
      DockKeysDistinct(i + 1, j + 1);
    }
  }

  lemma ResolveDockNumber(d: string, blocked: map<string, string>, logs: seq<LogRow>)
    ensures ResolveDock(d, blocked, logs).dockNumber == d
  {
  }

  /** A dock on the block list is blocked with its stored reason, and no row
      that points at it is listed. */
  lemma BlockedDockHidesOrders(d: string, blocked: map<string, string>, logs: seq<LogRow>)
    requires d in blocked
    ensures var dock := ResolveDock(d, blocked, logs);
      dock.status == Blocked && dock.isManuallyBlocked && dock.blockedReason == Some(blocked[d])
      && dock.orders == []
  {
  }

  /** The dock numbers of a sequence of rows, for counting. */
  function DockNumbers(logs: seq<LogRow>): (r: seq<string>)
    ensures |r| == |logs| && forall i | 0 <= i < |logs| :: r[i] == logs[i].dockNumber
  {
    seq(|logs|, i requires 0 <= i < |logs| => logs[i].dockNumber)
  }

  /** Each row naming `d` contributes one order, so the number of orders is the
      number of such rows. */
  lemma {:induction false} OrdersOnCount(logs: seq<LogRow>, d: string)
    ensures |OrdersOn(logs, d)| == multiset(DockNumbers(logs))[d]
  {
    if logs != [] {
      var init := logs[..|logs| - 1];
      OrdersOnCount(init, d);
      assert DockNumbers(logs) == DockNumbers(init) + [logs[|logs| - 1].dockNumber];
    }
  }

  /** The orders of a dock are exactly the rows that name it. */
  lemma {:induction false} OrdersOnMembers(logs: seq<LogRow>, d: string, o: OrderInfo)
    ensures o in OrdersOn(logs, d) <==>
      exists i | 0 <= i < |logs| :: logs[i].dockNumber == d && OrderOf(logs[i]) == o
  {
    if logs != [] {
      var init := logs[..|logs| - 1];
      OrdersOnMembers(init, d, o);
      if o in OrdersOn(logs, d) && o !in OrdersOn(init, d) {
        assert logs[|logs| - 1].dockNumber == d && OrderOf(logs[|logs| - 1]) == o;
      }
      if exists i | 0 <= i < |logs| :: logs[i].dockNumber == d && OrderOf(logs[i]) == o {
        var i :| 0 <= i < |logs| && logs[i].dockNumber == d && OrderOf(logs[i]) == o;
        if i < |logs| - 1 { assert init[i] == logs[i]; }
      }
    }
  }

  /** Orders keep the order of the rows: the orders of two batches are the
      orders of the first followed by those of the second. */
  lemma {:induction false} OrdersOnAppend(a: seq<LogRow>, b: seq<LogRow>, d: string)
    ensures OrdersOn(a + b, d) == OrdersOn(a, d) + OrdersOn(b, d)
    decreases |b|
  {
    if b == [] {
      assert a + b == a;
    } else {
      var b' := b[..|b| - 1];
      OrdersOnAppend(a, b', d);
      assert (a + b)[..|a + b| - 1] == a + b';
    }
  }

  /** A dock that is not blocked is available with no row naming it, in use with
      exactly one and double-booked with two or more; its orders are those rows. */
  lemma UnblockedDockStatus(d: string, blocked: map<string, string>, logs: seq<LogRow>)
    requires d !in blocked
    ensures var dock := ResolveDock(d, blocked, logs);
      var n := multiset(DockNumbers(logs))[d];
      && !dock.isManuallyBlocked && dock.blockedReason == None
      && dock.orders == OrdersOn(logs, d)
      && (dock.status == Available <==> n == 0)
      && (dock.status == InUse <==> n == 1)
      && (dock.status == DoubleBooked <==> n >= 2)
  {
    OrdersOnCount(logs, d);
  }

  /** A row whose dock number is not one of "1".."70" ("", "Ramp", "07", ...)
      changes nothing on the board. */
  lemma UnknownDockIgnored(blocked: map<string, string>, logs: seq<LogRow>, row: LogRow)
    requires !IsDockKey(row.dockNumber)
    ensures Board(blocked, logs + [row]) == Board(blocked, logs)
  {
    assert (logs + [row])[..|logs + [row]| - 1] == logs;
    forall k | 1 <= k <= DockCount
      ensures ResolveDock(DockKey(k), blocked, logs + [row]) == ResolveDock(DockKey(k), blocked, logs)
    {
    }
  }

  /** Neither the Ramp nor a zero-padded number names a dock of the board. */
  lemma RampAndPaddedAreNotDocks()
    ensures !IsDockKey("Ramp") && !IsDockKey("07") && !IsDockKey("")
  {
    forall i | 1 <= i <= DockCount ensures DockKey(i) != "07" {
      NatToStringLength(i);
    }
  }

  /** Only the exact status 'complete' frees a dock: a 'completed' row still
      occupies it, a 'complete' row does not. */
  lemma OnlyCompleteIsExcluded(table: seq<LogRow>, row: LogRow)
    ensures row.status == "complete" ==> ActiveRows(table + [row]) == ActiveRows(table)
    ensures row.status != "complete" ==> ActiveRows(table + [row]) == ActiveRows(table) + [row]
  {
    assert (table + [row])[..|table + [row]| - 1] == table;
  }

  // ---- The block list ----

  /** `submitBlockDock` on the stored list: refused when no dock is selected or
      the reason is blank; otherwise that dock's entry becomes the trimmed reason. */
  function BlockDock(blocked: map<string, string>, selected: string, reason: string)
    : (r: Option<map<string, string>>)
    ensures r.None? <==> selected == "" || AllWhitespace(reason)
    ensures r.Some? ==>
      && r.value.Keys == blocked.Keys + {selected}
      && r.value[selected] == Trim(reason) && r.value[selected] != ""
      && forall k | k in blocked && k != selected :: r.value[k] == blocked[k]
  {
    if selected == "" || Trim(reason) == "" then None
    else Some(blocked[selected := Trim(reason)])
  }

  /** `handleUnblockDock` on the stored list: only that dock's entry goes; a dock
      that was not blocked leaves the list as it was. */
  function UnblockDock(blocked: map<string, string>, d: string): (r: map<string, string>)
    ensures r.Keys == blocked.Keys - {d}
    ensures forall k | k in r :: r[k] == blocked[k]
    ensures d !in blocked ==> r == blocked
  {
    blocked - {d}
  }

  /** Unblocking undoes blocking. */
  lemma UnblockAfterBlock(blocked: map<string, string>, d: string, reason: string)
    requires BlockDock(blocked, d, reason).Some?
    ensures UnblockDock(BlockDock(blocked, d, reason).value, d) == UnblockDock(blocked, d)
  {
  }

  /** Blocking a dock shows it as blocked with the trimmed reason whatever the
      rows say; unblocking it shows its occupancy again. */
  lemma BlockThenUnblockOnBoard(blocked: map<string, string>, d: string, reason: string, logs: seq<LogRow>)
    requires BlockDock(blocked, d, reason).Some?
    ensures ResolveDock(d, BlockDock(blocked, d, reason).value, logs)
      == Dock(d, Blocked, [], true, Some(Trim(reason)))
    ensures var after := UnblockDock(BlockDock(blocked, d, reason).value, d);
      var orders := OrdersOn(logs, d);
      ResolveDock(d, after, logs) == Dock(d, StatusForCount(|orders|), orders, false, None)
  {
  }

  // ---- Counters and filter ----

  function CountStatus(docks: seq<Dock>, s: Status): (n: nat)
    ensures n <= |docks|
  {
    if docks == [] then 0
    else CountStatus(docks[..|docks| - 1], s) + (if docks[|docks| - 1].status == s then 1 else 0)
  }

  datatype Stats = Stats(available: nat, inUse: nat, doubleBooked: nat, blocked: nat)

  /** The page's `stats`. */
  function BoardStats(docks: seq<Dock>): Stats {
    Stats(CountStatus(docks, Available), CountStatus(docks, InUse),
          CountStatus(docks, DoubleBooked), CountStatus(docks, Blocked))
  }

  /** Every dock is counted in exactly one of the four counters. */
  lemma {:induction false} StatsSum(docks: seq<Dock>)
    ensures var st := BoardStats(docks);
      st.available + st.inUse + st.doubleBooked + st.blocked == |docks|
  {
    if docks != [] { StatsSum(docks[..|docks| - 1]); }
  }

  datatype Filter = All | Only(status: Status)

  /** `filteredDocks`. */
  function FilterDocks(docks: seq<Dock>, f: Filter): (r: seq<Dock>)
    ensures |r| <= |docks|
    ensures f.Only? ==> forall i | 0 <= i < |r| :: r[i].status == f.status
  {
    if f == All || docks == [] then docks
    else
      var last := docks[|docks| - 1];
      FilterDocks(docks[..|docks| - 1], f) + (if last.status == f.status then [last] else [])
  }

  /** The filter keeps exactly the docks with the chosen status, as many as the
      counter shows, and in the board's order. */
  lemma {:induction false} FilterDocksSpec(docks: seq<Dock>, s: Status)
    ensures forall x :: x in FilterDocks(docks, Only(s)) <==> x in docks && x.status == s
    ensures |FilterDocks(docks, Only(s))| == CountStatus(docks, s)
  {
    if docks != [] {
      var init := docks[..|docks| - 1];
      FilterDocksSpec(init, s);
      assert docks == init + [docks[|docks| - 1]];
    }
  }

  lemma {:induction false} FilterDocksAppend(a: seq<Dock>, b: seq<Dock>, f: Filter)
    ensures FilterDocks(a + b, f) == FilterDocks(a, f) + FilterDocks(b, f)
    decreases |b|
  {
    if f == All {
    } else if b == [] {
      assert a + b == a;
    } else {
      FilterDocksAppend(a, b[..|b| - 1], f);
      assert (a + b)[..|a + b| - 1] == a + b[..|b| - 1];
    }
  }

  // ---- The page ----

  /** The page's state: the stored block list, the board last fetched and the
      block dialog. */
  class DockStatusPage {
    var blockedDocks: map<string, string>
    var dockStatuses: seq<Dock>
    var showBlockModal: bool
    var selectedDock: string
    var blockReason: string
    var filter: Filter

    constructor (stored: map<string, string>)
      ensures blockedDocks == stored && dockStatuses == []
      ensures !showBlockModal && selectedDock == "" && blockReason == "" && filter == All
    {
      blockedDocks := stored;
      dockStatuses := [];
      showBlockModal := false;
      selectedDock := "";
      blockReason := "";
      filter := All;
    }

    /** `fetchDockStatuses`; `queryOk` says whether the `daily_log` query
        succeeded. A failed query is caught and only logged, so the board
        last fetched stays on the page. */
    method FetchDockStatuses(table: seq<LogRow>, queryOk: bool)
      modifies this`dockStatuses
      ensures queryOk ==> dockStatuses == Board(blockedDocks, ActiveRows(table))
      ensures !queryOk ==> dockStatuses == old(dockStatuses)
    {
      if queryOk {
        dockStatuses := BuildDockStatuses(table, blockedDocks);
      }
    }

    /** Opens the block dialog for a dock, prefilled with its current reason. */
    method HandleBlockDock(dockNumber: string)
      modifies this`selectedDock, this`blockReason, this`showBlockModal
      ensures selectedDock == dockNumber && showBlockModal
      ensures blockReason == ReasonShown(dockStatuses, dockNumber)
    {
      selectedDock := dockNumber;
      blockReason := ReasonShown(dockStatuses, dockNumber);
      showBlockModal := true;
    }

    /** The block list is saved before the refetch, so a failed query leaves
        the dock unblocked in storage while the old board still shows it. */
    method HandleUnblockDock(dockNumber: string, table: seq<LogRow>, queryOk: bool)
      modifies this`blockedDocks, this`dockStatuses
      ensures blockedDocks == UnblockDock(old(blockedDocks), dockNumber)
      ensures queryOk ==> dockStatuses == Board(blockedDocks, ActiveRows(table))
      ensures !queryOk ==> dockStatuses == old(dockStatuses)
    {
      blockedDocks := UnblockDock(blockedDocks, dockNumber);
      FetchDockStatuses(table, queryOk);
    }

    /** Returns false (the page alerts) when the dialog has no dock or no reason;
        then nothing changes. */
    method SubmitBlockDock(table: seq<LogRow>, queryOk: bool) returns (accepted: bool)
      modifies this
      ensures accepted <==> BlockDock(old(blockedDocks), old(selectedDock), old(blockReason)).Some?
      ensures !accepted ==> unchanged(this)
      ensures accepted ==> blockedDocks == BlockDock(old(blockedDocks), old(selectedDock), old(blockReason)).value
      ensures accepted ==> !showBlockModal && selectedDock == "" && blockReason == "" && filter == old(filter)
      ensures accepted && queryOk ==> dockStatuses == Board(blockedDocks, ActiveRows(table))
      ensures accepted && !queryOk ==> dockStatuses == old(dockStatuses)
    {
      var next := BlockDock(blockedDocks, selectedDock, blockReason);
      accepted := next.Some?;
      if accepted {
        blockedDocks, showBlockModal, selectedDock, blockReason := next.value, false, "", "";
        FetchDockStatuses(table, queryOk);
      }
    }
  }

  /** `dockStatuses.find(d => d.dock_number === n)?.blocked_reason || ''`: the
      reason of the first dock with that number, and "" when no dock has it. */
  function ReasonShown(docks: seq<Dock>, n: string): (r: string)
    ensures (forall i | 0 <= i < |docks| :: docks[i].dockNumber != n) ==> r == ""
    ensures forall i | 0 <= i < |docks| && docks[i].dockNumber == n ::
      (forall j | 0 <= j < i :: docks[j].dockNumber != n) ==> r == docks[i].blockedReason.GetOr("")
    ensures r != "" ==> exists i | 0 <= i < |docks| ::
      docks[i].dockNumber == n && docks[i].blockedReason == Some(r)
  {
    if docks == [] then ""
    else if docks[0].dockNumber == n then
      docks[0].blockedReason.GetOr("")
    else
      var r := ReasonShown(docks[1..], n);
      assert forall i | 1 <= i < |docks| :: docks[i] == docks[1..][i - 1];
      assert r != "" ==> exists i | 0 <= i < |docks[1..]| ::
        docks[1..][i].dockNumber == n && docks[1..][i].blockedReason == Some(r);
      r
  }
}
