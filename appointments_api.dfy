/** The appointments endpoint of the PHP back end (appointments.php) over an
    appointments table: the day's list in slot order, the per-slot counts,
    find by reference, spreadsheet upload, and manual create, update and
    delete, with the clean-up of appointments older than a week. Dates are day
    numbers; the table hands out ids in sequence. */
module AppointmentsApi {
  import opened Text
  import opened Clock
  import opened Optional

  /** The columns an appointment row carries besides its id. */
  datatype Record = Record(
    scheduledDate: int,
    scheduledTime: string,
    salesOrder: string,
    delivery: string,
    source: string)

  datatype Row = Row(id: nat, rec: Record)

  // ---- The slot order of the list action ----

  /** The slots the comparator knows, in the order of their ranks 1 to 14. */
  const RankedSlots: seq<string> := [
    "0800", "0900", "0930", "1000", "1030", "1100", "1230",
    "1300", "1330", "1400", "1430", "1500", "1530", "Work In"]

  /** `$timeOrder`. */
  const TimeOrder: map<string, int> := map[
    "0800" := 1, "0900" := 2, "0930" := 3, "1000" := 4,
    "1030" := 5, "1100" := 6, "1230" := 7, "1300" := 8,
    "1330" := 9, "1400" := 10, "1430" := 11, "1500" := 12,
    "1530" := 13, "Work In" := 14]

  /** `$timeOrder[$t] ?? 99`. */
  function Rank(time: string): int {
    if time in TimeOrder then TimeOrder[time] else 99
  }

  /** The `usort` comparator: negative, zero or positive as `a` goes before,
      level with or after `b`. */
  function Compare(a: string, b: string): (r: int)
    ensures r < 0 <==> Rank(a) < Rank(b)
    ensures r == 0 <==> Rank(a) == Rank(b)
    ensures -98 <= r <= 98
  {
    Rank(a) - Rank(b)
  }

  /** The listed slots have ranks 1 to 14 in list order; every other value,
      an empty or unknown time included, has rank 99. */
  lemma RankOfSlots()
    ensures |RankedSlots| == 14
    ensures forall i | 0 <= i < |RankedSlots| :: Rank(RankedSlots[i]) == i + 1
    ensures forall t :: t !in RankedSlots ==> Rank(t) == 99
  {
    forall t | t !in RankedSlots ensures Rank(t) == 99 {
      assert t !in TimeOrder;
    }
  }

  /** 0800 < 0900 < ... < 1530 < Work In < anything unlisted. */
  lemma CompareOrdersSlots()
    ensures forall i, j | 0 <= i < j < |RankedSlots| :: Compare(RankedSlots[i], RankedSlots[j]) < 0
    ensures forall i, t | 0 <= i < |RankedSlots| && t !in RankedSlots :: Compare(RankedSlots[i], t) < 0
  {
    RankOfSlots();
  }

  /** The comparator says "level" exactly for equal slots and for two unlisted
      ones, and its sign flips with its arguments. */
  lemma CompareLevel(a: string, b: string)
    ensures Compare(a, b) == 0 <==> a == b || (a !in RankedSlots && b !in RankedSlots)
    ensures Compare(a, b) == -Compare(b, a)
  {
    RankOfSlots();
    if a in RankedSlots && b in RankedSlots && Compare(a, b) == 0 {
      var i :| 0 <= i < |RankedSlots| && RankedSlots[i] == a;
      var j :| 0 <= j < |RankedSlots| && RankedSlots[j] == b;
      assert i == j;
    }
  }

  /** "Goes no later than" is transitive, so the comparator is a total preorder
      as `usort` needs. */
  lemma CompareTransitive(a: string, b: string, c: string)
    requires Compare(a, b) <= 0 && Compare(b, c) <= 0
    ensures Compare(a, c) <= 0
  {
  }

  /** Every row goes no later than the rows after it, by `key`. */
  predicate SortedBy(xs: seq<Row>, key: Row -> int) {
    forall i, j | 0 <= i < j < |xs| :: key(xs[i]) <= key(xs[j])
  }

  /** A row whose key is at most every key of a sorted list can head it. */
  lemma SortedCons(first: Row, rest: seq<Row>, key: Row -> int)
    requires SortedBy(rest, key)
    requires forall k | 0 <= k < |rest| :: key(first) <= key(rest[k])
    ensures SortedBy([first] + rest, key)
  {
    var r := [first] + rest;
    forall i, j | 0 <= i < j < |r|
      ensures key(r[i]) <= key(r[j])
    {
      assert r[j] == rest[j - 1];
      if i > 0 {
        assert r[i] == rest[i - 1];
      }
    }
  }

  /** The head of a sorted list stays at or below every row once `x`, whose key
      is not below it, joins the rest. */
  lemma HeadStaysFirst(x: Row, xs: seq<Row>, rest: seq<Row>, key: Row -> int)
    requires xs != [] && SortedBy(xs, key) && key(xs[0]) <= key(x)
    requires forall k | 0 <= k < |rest| :: rest[k] == x || rest[k] in xs[1..]
    ensures forall k | 0 <= k < |rest| :: key(xs[0]) <= key(rest[k])
  {
    forall k | 0 <= k < |rest| ensures key(xs[0]) <= key(rest[k]) {
      if rest[k] != x {
        var m :| 0 <= m < |xs[1..]| && xs[1..][m] == rest[k];
        assert xs[m + 1] == rest[k];
      }
    }
  }

  /** Puts `x` after every row of `xs` whose key is not above its own. */
  function InsertBy(x: Row, xs: seq<Row>, key: Row -> int): (r: seq<Row>)
    requires SortedBy(xs, key)
    ensures SortedBy(r, key)
    ensures forall k | 0 <= k < |r| :: r[k] == x || r[k] in xs
    ensures multiset(r) == multiset(xs) + multiset{x}
  {
    if xs == [] then [x]
    else if key(x) < key(xs[0]) then
      SortedCons(x, xs, key);
      [x] + xs
    else
      var first := xs[0];
      var tail := xs[1..];
      var rest := InsertBy(x, tail, key);
      HeadStaysFirst(x, xs, rest, key);
      SortedCons(first, rest, key);
      assert xs == [first] + tail;
      [first] + rest
  }

  /** A stable insertion sort by `key`. */
  function SortBy(xs: seq<Row>, key: Row -> int): (r: seq<Row>)
    ensures SortedBy(r, key)
    ensures multiset(r) == multiset(xs)
  {
    if xs == [] then []
    else
      assert xs == xs[..|xs| - 1] + [xs[|xs| - 1]];
      InsertBy(xs[|xs| - 1], SortBy(xs[..|xs| - 1], key), key)
  }

  function SlotKey(row: Row): int {
    Rank(row.rec.scheduledTime)
  }

  /** The result of `usort` with the comparator: the same rows, each going no
      later than the rows after it. */
  function SortBySlot(xs: seq<Row>): (r: seq<Row>)
    ensures forall i, j | 0 <= i < j < |r| ::
      Compare(r[i].rec.scheduledTime, r[j].rec.scheduledTime) <= 0
    ensures multiset(r) == multiset(xs)
  {
    SortBy(xs, SlotKey)
  }

  /** `scheduled_date=eq.$date`. */
  function RowsOn(rows: seq<Row>, date: int): (r: seq<Row>)
    ensures forall x :: x in r <==> x in rows && x.rec.scheduledDate == date
  {
    if rows == [] then []
    else
      var last := rows[|rows| - 1];
      RowsOn(rows[..|rows| - 1], date) + (if last.rec.scheduledDate == date then [last] else [])
  }

  // ---- Clean-up ----

  /** What `cleanOldAppointments` leaves: the rows dated on or after the day a
      week before today. */
  function CleanOld(rows: seq<Row>, today: int): (r: seq<Row>)
    ensures |r| <= |rows|
  {
    if rows == [] then []
    else
      var last := rows[|rows| - 1];
      CleanOld(rows[..|rows| - 1], today) + (if last.rec.scheduledDate >= today - 7 then [last] else [])
  }

  /** The clean-up deletes exactly the rows dated before today - 7. */
  lemma {:induction false} CleanOldMembers(rows: seq<Row>, today: int, x: Row)
    ensures x in CleanOld(rows, today) <==> x in rows && x.rec.scheduledDate >= today - 7
  {
    if rows != [] {
      var init := rows[..|rows| - 1];
      CleanOldMembers(init, today, x);
      assert rows == init + [rows[|rows| - 1]];
    }
  }

  lemma {:induction false} CleanOldIdempotent(rows: seq<Row>, today: int)
    ensures CleanOld(CleanOld(rows, today), today) == CleanOld(rows, today)
  {
    if rows != [] {
      var init := rows[..|rows| - 1];
      var last := rows[|rows| - 1];
      CleanOldIdempotent(init, today);
      var c := CleanOld(init, today);
      if last.rec.scheduledDate >= today - 7 {
        var kept := c + [last];
        assert CleanOld(rows, today) == kept;
        assert kept[..|kept| - 1] == c && kept[|kept| - 1] == last;
        assert CleanOld(kept, today) == CleanOld(c, today) + [last];
      } else {
        assert CleanOld(rows, today) == c;
      }
    }
  }

  /** The clean-up run by the list action never removes a row of the day asked
      for unless that day is more than a week past, and then it removes all. */
  lemma {:induction false} CleanOldKeepsListedDay(rows: seq<Row>, today: int, date: int)
    ensures date >= today - 7 ==> RowsOn(CleanOld(rows, today), date) == RowsOn(rows, date)
    ensures date < today - 7 ==> RowsOn(CleanOld(rows, today), date) == []
  {
    if rows != [] {
      var init := rows[..|rows| - 1];
      var last := rows[|rows| - 1];
      CleanOldKeepsListedDay(init, today, date);
      var c := CleanOld(init, today);
      var tail := if last.rec.scheduledDate == date then [last] else [];
      assert RowsOn(rows, date) == RowsOn(init, date) + tail;
      if last.rec.scheduledDate >= today - 7 {
        var kept := c + [last];
        assert CleanOld(rows, today) == kept;
        assert kept[..|kept| - 1] == c && kept[|kept| - 1] == last;
        assert RowsOn(kept, date) == RowsOn(c, date) + tail;
      } else {
        assert CleanOld(rows, today) == c;
      }
    }
  }

  // ---- Counts ----

  /** How many of `times` equal `t`. */
  function CountOf(times: seq<string>, t: string): (n: nat)
    ensures n <= |times|
  {
    if times == [] then 0
    else CountOf(times[..|times| - 1], t) + (if times[|times| - 1] == t then 1 else 0)
  }

  lemma {:induction false} CountOfAbsent(times: seq<string>, t: string)
    requires t !in times
    ensures CountOf(times, t) == 0
  {
    if times != [] {
      CountOfAbsent(times[..|times| - 1], t);
    }
  }

  /** The `counts` action on the `scheduled_time` column of the day's rows. */
  method Counts(times: seq<string>) returns (counts: map<string, nat>)
    ensures forall t :: t in counts <==> t in times
    ensures forall t | t in counts :: counts[t] == CountOf(times, t)
  {
    counts := map[];
    for i := 0 to |times|
      invariant forall t :: t in counts <==> t in times[..i]
      invariant forall t | t in counts :: counts[t] == CountOf(times[..i], t)
    {
      var time := times[i];
      assert times[..i + 1] == times[..i] + [time];
      assert times[..i + 1][..i] == times[..i];
      if time !in counts {
        CountOfAbsent(times[..i], time);
      }
      counts := counts[time := (if time in counts then counts[time] else 0) + 1];
    }
    assert times[..|times|] == times;
  }

  /** Sum of the counts of the given keys. */
  function SumCounts(keys: seq<string>, times: seq<string>): nat {
    if keys == [] then 0
    else SumCounts(keys[..|keys| - 1], times) + CountOf(times, keys[|keys| - 1])
  }

  /** How many of `keys` equal `t`. */
  function Occurrences(keys: seq<string>, t: string): nat {
    if keys == [] then 0
    else Occurrences(keys[..|keys| - 1], t) + (if keys[|keys| - 1] == t then 1 else 0)
  }

  lemma {:induction false} SumCountsSnoc(keys: seq<string>, times: seq<string>, t: string)
    ensures SumCounts(keys, times + [t]) == SumCounts(keys, times) + Occurrences(keys, t)
  {
    if keys != [] {
      SumCountsSnoc(keys[..|keys| - 1], times, t);
      assert (times + [t])[..|times + [t]| - 1] == times;
    }
  }

  lemma {:induction false} OccurrencesDistinct(keys: seq<string>, t: string)
    requires forall i, j | 0 <= i < j < |keys| :: keys[i] != keys[j]
    ensures Occurrences(keys, t) == (if t in keys then 1 else 0)
  {
    if keys != [] {
      var init := keys[..|keys| - 1];
      OccurrencesDistinct(init, t);
      assert keys == init + [keys[|keys| - 1]];
    }
  }

  /** The counts, summed over their distinct slots, add up to the number of
      rows: every row is counted once. */
  lemma {:induction false} CountsSumToRows(keys: seq<string>, times: seq<string>)
    requires forall i, j | 0 <= i < j < |keys| :: keys[i] != keys[j]
    requires forall t | t in times :: t in keys
    ensures SumCounts(keys, times) == |times|
  {
    if times == [] {
      SumCountsEmpty(keys);
    } else {
      var init := times[..|times| - 1];
      var t := times[|times| - 1];
      assert times == init + [t];
      CountsSumToRows(keys, init);
      SumCountsSnoc(keys, init, t);
      OccurrencesDistinct(keys, t);
    }
  }

  lemma {:induction false} SumCountsEmpty(keys: seq<string>)
    ensures SumCounts(keys, []) == 0
  {
    if keys != [] {
      SumCountsEmpty(keys[..|keys| - 1]);
    }
  }

  // ---- Find by reference ----

  datatype Reference = BySalesOrder | ByDelivery

  /** A row the find query for `reference` in that column returns: a match
      dated today or later. */
  predicate IsCandidate(row: Row, column: Reference, reference: string, today: int) {
    && (if column == BySalesOrder then row.rec.salesOrder == reference else row.rec.delivery == reference)
    && row.rec.scheduledDate >= today
  }

  /** Code-point order on strings. */
  predicate LexLess(a: string, b: string) {
    if a == [] then b != []
    else if b == [] then false
    else a[0] < b[0] || (a[0] == b[0] && LexLess(a[1..], b[1..]))
  }

  lemma {:induction false} LexLessTransitive(a: string, b: string, c: string)
    requires LexLess(a, b) && LexLess(b, c)
    ensures LexLess(a, c)
  {
    if a != [] && b != [] && c != [] && a[0] == b[0] && b[0] == c[0] {
      LexLessTransitive(a[1..], b[1..], c[1..]);
    }
  }

  lemma {:induction false} LexLessIrreflexive(a: string)
    ensures !LexLess(a, a)
  {
    if a != [] {
      LexLessIrreflexive(a[1..]);
    }
  }

  /** `order=scheduled_date.asc,scheduled_time.asc`: `a` comes strictly first. */
  predicate Before(a: Row, b: Row) {
    a.rec.scheduledDate < b.rec.scheduledDate
    || (a.rec.scheduledDate == b.rec.scheduledDate && LexLess(a.rec.scheduledTime, b.rec.scheduledTime))
  }

  lemma BeforeTransitive(a: Row, b: Row, c: Row)
    requires Before(a, b) && Before(b, c)
    ensures Before(a, c)
  {
    if a.rec.scheduledDate == b.rec.scheduledDate == c.rec.scheduledDate {
      LexLessTransitive(a.rec.scheduledTime, b.rec.scheduledTime, c.rec.scheduledTime);
    }
  }

  predicate HasCandidate(rows: seq<Row>, column: Reference, reference: string, today: int) {
    exists i | 0 <= i < |rows| :: IsCandidate(rows[i], column, reference, today)
  }

  /** `r` is what the find query returns on `rows`: nothing when no row is a
      candidate, otherwise a candidate no other candidate comes before. */
  predicate IsEarliest(rows: seq<Row>, r: Option<Row>, column: Reference, reference: string, today: int) {
    && (r.None? <==> !HasCandidate(rows, column, reference, today))
    && (r.Some? ==> r.value in rows && IsCandidate(r.value, column, reference, today))
    && (r.Some? ==> forall i | 0 <= i < |rows| && IsCandidate(rows[i], column, reference, today) ::
          !Before(rows[i], r.value))
  }

  /** One more row for the query: it replaces the best so far only when it is
      a candidate that comes strictly first. */
  function Prefer(best: Option<Row>, last: Row, column: Reference, reference: string, today: int): Option<Row> {
    if !IsCandidate(last, column, reference, today) then best
    else if best.None? || Before(last, best.value) then Some(last)
    else best
  }

  lemma PreferIsEarliest(init: seq<Row>, last: Row, best: Option<Row>, column: Reference, reference: string, today: int)
    requires IsEarliest(init, best, column, reference, today)
    ensures IsEarliest(init + [last], Prefer(best, last, column, reference, today), column, reference, today)
  {
    var rows := init + [last];
    assert forall i | 0 <= i < |init| :: rows[i] == init[i];
    assert rows[|init|] == last;
    LexLessIrreflexive(last.rec.scheduledTime);
    if IsCandidate(last, column, reference, today) && best.Some? && Before(last, best.value) {
      forall i | 0 <= i < |init| && IsCandidate(init[i], column, reference, today)
        ensures !Before(init[i], last)
      {
        if Before(init[i], last) {
          BeforeTransitive(init[i], last, best.value);
        }
      }
    }
  }

  /** The first row of the find query (`limit=1`) in one column. */
  function Earliest(rows: seq<Row>, column: Reference, reference: string, today: int): (r: Option<Row>)
    ensures IsEarliest(rows, r, column, reference, today)
  {
    if rows == [] then None
    else
      var init := rows[..|rows| - 1];
      var last := rows[|rows| - 1];
      var best := Earliest(init, column, reference, today);
      PreferIsEarliest(init, last, best, column, reference, today);
      assert init + [last] == rows;
      Prefer(best, last, column, reference, today)
  }

  /** `find`: the sales-order match if there is one, else the delivery match.
      `salesOrderOk` and `deliveryOk` say whether each query answered 200; a
      failed sales-order query falls through to the delivery query, and a failed
      delivery query finds nothing. */
  function Find(rows: seq<Row>, reference: string, today: int, salesOrderOk: bool, deliveryOk: bool): (r: Option<Row>)
    ensures r.Some? <==>
      (salesOrderOk && HasCandidate(rows, BySalesOrder, reference, today))
      || (deliveryOk && HasCandidate(rows, ByDelivery, reference, today))
    ensures salesOrderOk && HasCandidate(rows, BySalesOrder, reference, today) ==>
      && r.Some? && r.value in rows && IsCandidate(r.value, BySalesOrder, reference, today)
      && forall i | 0 <= i < |rows| && IsCandidate(rows[i], BySalesOrder, reference, today) ::
           !Before(rows[i], r.value)
    ensures !(salesOrderOk && HasCandidate(rows, BySalesOrder, reference, today)) && r.Some? ==>
      && deliveryOk && r.value in rows && IsCandidate(r.value, ByDelivery, reference, today)
      && forall i | 0 <= i < |rows| && IsCandidate(rows[i], ByDelivery, reference, today) ::
           !Before(rows[i], r.value)
  {
    var bySalesOrder := if salesOrderOk then Earliest(rows, BySalesOrder, reference, today) else None;
    if bySalesOrder.Some? then bySalesOrder
    else if deliveryOk then Earliest(rows, ByDelivery, reference, today)
    else None
  }

  /** A failed sales-order query hides every sales-order match: the answer is
      the delivery query's, even when a sales-order match exists. */
  lemma FailedSalesOrderQueryFallsThrough(rows: seq<Row>, reference: string, today: int)
    ensures Find(rows, reference, today, false, true) == Earliest(rows, ByDelivery, reference, today)
    ensures HasCandidate(rows, ByDelivery, reference, today) ==>
      IsCandidate(Find(rows, reference, today, false, true).value, ByDelivery, reference, today)
  {
  }

  /** Reference "X" names one row by sales order and another by delivery: with
      both queries answering, the sales-order row is found; when the sales-order
      query fails, the delivery row is. */
  lemma FindFallsThroughExample(today: int)
    ensures var so := Row(0, Record(today, "0800", "X", "D1", "manual"));
      var dl := Row(1, Record(today, "0900", "S2", "X", "manual"));
      && Find([so, dl], "X", today, true, true) == Some(so)
      && Find([so, dl], "X", today, false, true) == Some(dl)
  {
    var so := Row(0, Record(today, "0800", "X", "D1", "manual"));
    var dl := Row(1, Record(today, "0900", "S2", "X", "manual"));
    var rows := [so, dl];
    assert IsCandidate(rows[0], BySalesOrder, "X", today);
    assert IsCandidate(rows[1], ByDelivery, "X", today);
  }

  lemma {:induction false} EarliestAfterCleanup(rows: seq<Row>, column: Reference, reference: string, today: int)
    ensures Earliest(CleanOld(rows, today), column, reference, today) == Earliest(rows, column, reference, today)
  {
    if rows != [] {
      var init := rows[..|rows| - 1];
      var last := rows[|rows| - 1];
      EarliestAfterCleanup(init, column, reference, today);
      var c := CleanOld(init, today);
      assert Earliest(rows, column, reference, today) == Prefer(Earliest(init, column, reference, today), last, column, reference, today);
      if last.rec.scheduledDate >= today - 7 {
        var kept := c + [last];
        assert CleanOld(rows, today) == kept;
        assert kept[..|kept| - 1] == c && kept[|kept| - 1] == last;
        assert Earliest(kept, column, reference, today) == Prefer(Earliest(c, column, reference, today), last, column, reference, today);
      } else {
        assert CleanOld(rows, today) == c;
      }
    }
  }

  /** The clean-up never takes away the appointment a find would return: it
      removes only rows dated before today. */
  lemma FindAfterCleanup(rows: seq<Row>, reference: string, today: int, salesOrderOk: bool, deliveryOk: bool)
    ensures Find(CleanOld(rows, today), reference, today, salesOrderOk, deliveryOk)
      == Find(rows, reference, today, salesOrderOk, deliveryOk)
  {
    EarliestAfterCleanup(rows, BySalesOrder, reference, today);
    EarliestAfterCleanup(rows, ByDelivery, reference, today);
  }

  // ---- Upload ----

  /** One spreadsheet row from the second on: the raw date and time cells (an
      empty cell is "", a number is written in digits), the day and the "H:i"
      time they convert to, and the two reference cells. */
  datatype SheetRow = SheetRow(
    dateCell: string,
    timeCell: string,
    date: int,
    timeStr: string,
    salesOrder: string,
    delivery: string)

  /** PHP's `empty()` on a cell: no value, the empty string or "0". */
  predicate PhpEmpty(cell: string) {
    cell == "" || cell == "0"
  }

  /** `date('H:i', ...)` yields a time of day. */
  predicate Converted(row: SheetRow) {
    IsTimeOfDay(row.timeStr)
  }

  /** `str_replace(':', '', $timeStr)`. */
  function SlotOf(timeStr: string): (slot: string)
    ensures ':' !in slot && |slot| <= |timeStr|
  {
    RemoveChar(timeStr, ':')
  }

  /** The slot of an "H:i" time is its four digits "HHMM". */
  lemma SlotOfShape(t: string)
    requires IsTimeOfDay(t)
    ensures var slot := SlotOf(t);
      && slot == t[..2] + t[3..]
      && |slot| == 4 && AllDigits(slot)
      && ParseDigits(slot[..2]) == HourOf(t) < 24 && ParseDigits(slot[2..]) == MinuteOf(t) < 60
  {
    var hh := t[..2];
    var mm := t[3..];
    assert t == hh + ":" + mm;
    RemoveCharAppend(hh + ":", mm, ':');
    RemoveCharAppend(hh, ":", ':');
    assert RemoveChar(":", ':') == [] by {
      assert ":"[..0] == [];
    }
    RemoveCharAbsent(hh, ':');
    RemoveCharAbsent(mm, ':');
    var slot := SlotOf(t);
    assert slot == hh + mm;
    assert slot[..2] == hh && slot[2..] == mm;
  }

  /** Different times of day give different slots. */
  lemma SlotInjective(t1: string, t2: string)
    requires IsTimeOfDay(t1) && IsTimeOfDay(t2)
    requires SlotOf(t1) == SlotOf(t2)
    ensures t1 == t2
  {
    SlotOfShape(t1);
    SlotOfShape(t2);
    var s := SlotOf(t1);
    assert t1[..2] == s[..2] == t2[..2] && t1[3..] == s[2..] == t2[3..];
    assert t1 == t1[..2] + ":" + t1[3..];
    assert t2 == t2[..2] + ":" + t2[3..];
  }

  /** The record a spreadsheet row is queued as. */
  function RecordOf(row: SheetRow): Record {
    Record(row.date, SlotOf(row.timeStr), row.salesOrder, row.delivery, "excel")
  }

  /** The duplicate check: a stored row with the same date, slot, sales order
      and delivery, whatever its source. */
  predicate IsStored(stored: seq<Row>, r: Record) {
    exists i | 0 <= i < |stored| ::
      && stored[i].rec.scheduledDate == r.scheduledDate
      && stored[i].rec.scheduledTime == r.scheduledTime
      && stored[i].rec.salesOrder == r.salesOrder
      && stored[i].rec.delivery == r.delivery
  }

  /** The rows the loop queues for the batch insert. */
  function Queued(sheet: seq<SheetRow>, stored: seq<Row>): (q: seq<Record>)
    ensures |q| <= |sheet|
  {
    if sheet == [] then []
    else
      var init := sheet[..|sheet| - 1];
      var row := sheet[|sheet| - 1];
      Queued(init, stored)
        + (if PhpEmpty(row.dateCell) || PhpEmpty(row.timeCell) then []
           else if IsStored(stored, RecordOf(row)) then []
           else [RecordOf(row)])
  }

  /** The upload loop over the sheet. */
  method QueueRows(sheet: seq<SheetRow>, stored: seq<Row>) returns (appointments: seq<Record>)
    ensures appointments == Queued(sheet, stored)
  {
    appointments := [];
    for i := 0 to |sheet|
      invariant appointments == Queued(sheet[..i], stored)
    {
      assert sheet[..i + 1][..i] == sheet[..i];
      var row := sheet[i];
      if PhpEmpty(row.dateCell) || PhpEmpty(row.timeCell) {
        continue;
      }
      var timeSlot := SlotOf(row.timeStr);
      var rec := Record(row.date, timeSlot, row.salesOrder, row.delivery, "excel");
      if !IsStored(stored, rec) {
        appointments := appointments + [rec];
      }
    }
    assert sheet[..|sheet|] == sheet;
  }

  /** The sheet row has a date and a time, gives `r`, and no stored row has
      `r`'s date, slot and references. */
  predicate Queues(row: SheetRow, stored: seq<Row>, r: Record) {
    !PhpEmpty(row.dateCell) && !PhpEmpty(row.timeCell) && RecordOf(row) == r && !IsStored(stored, r)
  }

  /** A record is queued exactly when some row of the sheet queues it. */
  lemma {:induction false} QueuedMembers(sheet: seq<SheetRow>, stored: seq<Row>, r: Record)
    ensures r in Queued(sheet, stored) <==> exists i | 0 <= i < |sheet| :: Queues(sheet[i], stored, r)
  {
    if sheet != [] {
      var init := sheet[..|sheet| - 1];
      var row := sheet[|sheet| - 1];
      QueuedMembers(init, stored, r);
      var tail := if PhpEmpty(row.dateCell) || PhpEmpty(row.timeCell) then []
                  else if IsStored(stored, RecordOf(row)) then []
                  else [RecordOf(row)];
      assert Queued(sheet, stored) == Queued(init, stored) + tail;
      assert r in tail <==> Queues(row, stored, r);
      assert r in Queued(sheet, stored) <==> r in Queued(init, stored) || r in tail;
      if r in Queued(init, stored) {
        var i :| 0 <= i < |init| && Queues(init[i], stored, r);
        assert sheet[i] == init[i];
      } else if r in tail {
        assert Queues(sheet[|sheet| - 1], stored, r);
      } else {
        forall i | 0 <= i < |sheet| ensures !Queues(sheet[i], stored, r) {
          if i < |init| {
            assert init[i] == sheet[i];
          }
        }
      }
    }
  }

  /** Every queued record comes from the spreadsheet and has a four-digit
      slot naming a time of day. */
  lemma QueuedShape(sheet: seq<SheetRow>, stored: seq<Row>)
    requires forall i | 0 <= i < |sheet| :: Converted(sheet[i])
    ensures forall r | r in Queued(sheet, stored) ::
      && r.source == "excel"
      && |r.scheduledTime| == 4 && AllDigits(r.scheduledTime)
      && ParseDigits(r.scheduledTime[..2]) < 24 && ParseDigits(r.scheduledTime[2..]) < 60
  {
    forall r | r in Queued(sheet, stored)
      ensures && r.source == "excel"
              && |r.scheduledTime| == 4 && AllDigits(r.scheduledTime)
              && ParseDigits(r.scheduledTime[..2]) < 24 && ParseDigits(r.scheduledTime[2..]) < 60
    {
      QueuedMembers(sheet, stored, r);
      var i :| 0 <= i < |sheet| && Queues(sheet[i], stored, r);
      SlotOfShape(sheet[i].timeStr);
    }
  }

  /** The duplicate check consults the stored rows only: the same row twice in
      one file is queued twice. */
  lemma RepeatedRowQueuedTwice(row: SheetRow, stored: seq<Row>)
    requires !PhpEmpty(row.dateCell) && !PhpEmpty(row.timeCell) && !IsStored(stored, RecordOf(row))
    ensures Queued([row, row], stored) == [RecordOf(row), RecordOf(row)]
  {
    assert [row, row][..1] == [row];
    assert [row][..0] == [];
  }

  // ---- The table ----

  const UpdateError := "Error updating appointment"
  const UpdateRefused := "Cannot update Excel-imported appointments"
  const DeleteError := "Error deleting appointment"
  const DeleteRefused := "Cannot delete Excel-imported appointments"
  const InsertError := "Error inserting appointments: "

  datatype Reply = Success | Failure(message: string)

  datatype UploadReply = NoFile | Imported(imported: nat, errors: seq<string>)

  /** The rows the batch insert adds, with ids from `from` on. */
  function Stamp(q: seq<Record>, from: nat): (r: seq<Row>)
    ensures |r| == |q|
    ensures forall i | 0 <= i < |q| :: r[i] == Row(from + i, q[i])
  {
    seq(|q|, i requires 0 <= i < |q| => Row(from + i, q[i]))
  }

  predicate DistinctIds(rows: seq<Row>) {
    forall i, j | 0 <= i < j < |rows| :: rows[i].id != rows[j].id
  }

  /** `id=eq.$id&source=eq.manual` finds a row. */
  predicate IsManual(rows: seq<Row>, id: nat) {
    exists i | 0 <= i < |rows| :: rows[i].id == id && rows[i].rec.source == "manual"
  }

  /** The PATCH of `update`: the four columns change, the source stays. */
  function UpdateRows(rows: seq<Row>, id: nat, date: int, time: string, salesOrder: string, delivery: string)
    : (r: seq<Row>)
    ensures |r| == |rows|
    ensures forall i | 0 <= i < |rows| ::
      r[i] == if rows[i].id == id then Row(id, Record(date, time, salesOrder, delivery, rows[i].rec.source))
              else rows[i]
  {
    seq(|rows|, i requires 0 <= i < |rows| =>
      if rows[i].id == id then Row(id, Record(date, time, salesOrder, delivery, rows[i].rec.source))
      else rows[i])
  }

  /** The DELETE of `delete`. */
  function RemoveId(rows: seq<Row>, id: nat): (r: seq<Row>)
    ensures |r| <= |rows|
    ensures forall x :: x in r <==> x in rows && x.id != id
  {
    if rows == [] then []
    else
      var last := rows[|rows| - 1];
      RemoveId(rows[..|rows| - 1], id) + (if last.id != id then [last] else [])
  }

  lemma {:induction false} RemoveIdDistinct(rows: seq<Row>, id: nat)
    requires DistinctIds(rows)
    ensures DistinctIds(RemoveId(rows, id))
  {
    if rows != [] {
      var init := rows[..|rows| - 1];
      var last := rows[|rows| - 1];
      RemoveIdDistinct(init, id);
      var r := RemoveId(init, id);
      forall x | x in r ensures x.id != last.id {
        var k :| 0 <= k < |init| && init[k] == x;
        assert rows[k] == x;
      }
    }
  }

  lemma {:induction false} CleanOldDistinct(rows: seq<Row>, today: int)
    requires DistinctIds(rows)
    ensures DistinctIds(CleanOld(rows, today))
  {
    if rows != [] {
      var init := rows[..|rows| - 1];
      var last := rows[|rows| - 1];
      CleanOldDistinct(init, today);
      var r := CleanOld(init, today);
      forall x | x in r ensures x.id != last.id {
        CleanOldMembers(init, today, x);
        var k :| 0 <= k < |init| && init[k] == x;
        assert rows[k] == x;
      }
    }
  }

  /** After an update that went through, the row with that id holds the new
      values and keeps its source; no other row changes. */
  lemma UpdateRowsEffect(rows: seq<Row>, id: nat, date: int, time: string, salesOrder: string, delivery: string)
    requires DistinctIds(rows) && IsManual(rows, id)
    ensures var r := UpdateRows(rows, id, date, time, salesOrder, delivery);
      && DistinctIds(r) && IsManual(r, id)
      && exists i | 0 <= i < |r| :: r[i] == Row(id, Record(date, time, salesOrder, delivery, "manual"))
  {
    var r := UpdateRows(rows, id, date, time, salesOrder, delivery);
    var i :| 0 <= i < |rows| && rows[i].id == id && rows[i].rec.source == "manual";
    assert r[i] == Row(id, Record(date, time, salesOrder, delivery, "manual"));
  }

  /** The appointments table behind the endpoint. `nextId` is the id the table
      gives the next inserted row. */
  class AppointmentTable {
    var rows: seq<Row>
    var nextId: nat

    /** Ids are unique and below `nextId`. */
    predicate Valid()
      reads this
    {
      DistinctIds(rows) && forall i | 0 <= i < |rows| :: rows[i].id < nextId
    }

    constructor ()
      ensures Valid() && rows == [] && nextId == 0
    {
      rows := [];
      nextId := 0;
    }

    /** The batch insert of `records`, answered with `code`. */
    method Insert(records: seq<Record>, code: int) returns (inserted: bool)
      requires Valid()
      modifies this
      ensures Valid()
      ensures inserted <==> code == 201
      ensures inserted ==> rows == old(rows) + Stamp(records, old(nextId)) && nextId == old(nextId) + |records|
      ensures !inserted ==> unchanged(this)
    {
      inserted := code == 201;
      if inserted {
        var added := Stamp(records, nextId);
        rows := rows + added;
        nextId := nextId + |records|;
      }
    }

    /** `list`: the clean-up, then the day's rows in slot order. The result of
        the clean-up's DELETE is ignored: `cleanupOk` says whether it went
        through, and when it did not the old rows stay and are listed. */
    method List(date: int, today: int, cleanupOk: bool) returns (appointments: seq<Row>)
      requires Valid()
      modifies this`rows
      ensures Valid()
      ensures cleanupOk ==> rows == CleanOld(old(rows), today)
      ensures !cleanupOk ==> rows == old(rows)
      ensures appointments == SortBySlot(RowsOn(rows, date))
    {
      if !cleanupOk {
        appointments := SortBySlot(RowsOn(rows, date));
        return;
      }
      CleanOldDistinct(rows, today);
      var kept := CleanOld(rows, today);
      forall i | 0 <= i < |kept| ensures kept[i].id < nextId {
        CleanOldMembers(rows, today, kept[i]);
      }
      rows := kept;
      appointments := SortBySlot(RowsOn(rows, date));
    }

    /** `upload`; `insertCode` is the answer to the batch insert and
        `errorBody` the body it came with. */
    method Upload(file: Option<seq<SheetRow>>, insertCode: int, errorBody: string) returns (reply: UploadReply)
      requires Valid()
      modifies this
      ensures Valid()
      ensures file.None? ==> reply == NoFile && unchanged(this)
      ensures file.Some? ==>
        var q := Queued(file.value, old(rows));
        && (q == [] ==> reply == Imported(0, []) && unchanged(this))
        && (q != [] && insertCode == 201 ==>
              && reply == Imported(|q|, [])
              && rows == old(rows) + Stamp(q, old(nextId)) && nextId == old(nextId) + |q|)
        && (q != [] && insertCode != 201 ==>
              reply == Imported(0, [InsertError + errorBody]) && unchanged(this))
    {
      if file.None? {
        return NoFile;
      }
      var appointments := QueueRows(file.value, rows);
      var imported := 0;
      var errors := [];
      if appointments != [] {
        var inserted := Insert(appointments, insertCode);
        if inserted {
          imported := |appointments|;
        } else {
          errors := errors + [InsertError + errorBody];
        }
      }
      reply := Imported(imported, errors);
    }

    /** `create`: a manual row, answered with `code`; the new id on success. */
    method Create(date: int, time: string, salesOrder: string, delivery: string, code: int)
      returns (id: Option<nat>)
      requires Valid()
      modifies this
      ensures Valid()
      ensures id.Some? <==> code == 201
      ensures id.Some? ==>
        && id.value == old(nextId)
        && rows == old(rows) + [Row(id.value, Record(date, time, salesOrder, delivery, "manual"))]
        && IsManual(rows, id.value)
      ensures id.None? ==> unchanged(this)
    {
      var newId := nextId;
      var inserted := Insert([Record(date, time, salesOrder, delivery, "manual")], code);
      if inserted {
        id := Some(newId);
        assert rows[|rows| - 1].id == id.value && rows[|rows| - 1].rec.source == "manual";
      } else {
        id := None;
      }
    }

    /** `update`: only a manual row; `checkOk` says whether the manual-row check
        answered 200 and `code` answers the PATCH. A failed check is answered as
        if the row were not manual. */
    method Update(id: nat, date: int, time: string, salesOrder: string, delivery: string, checkOk: bool, code: int)
      returns (reply: Reply)
      requires Valid()
      modifies this`rows
      ensures Valid()
      ensures !IsManual(old(rows), id) ==> reply == Failure(UpdateRefused) && unchanged(this)
      ensures !checkOk ==> reply == Failure(UpdateRefused) && unchanged(this)
      ensures checkOk && IsManual(old(rows), id) && code != 200 ==> reply == Failure(UpdateError) && unchanged(this)
      ensures checkOk && IsManual(old(rows), id) && code == 200 ==>
        reply == Success && rows == UpdateRows(old(rows), id, date, time, salesOrder, delivery)
    {
      if checkOk && IsManual(rows, id) {
        if code == 200 {
          UpdateRowsEffect(rows, id, date, time, salesOrder, delivery);
          rows := UpdateRows(rows, id, date, time, salesOrder, delivery);
          reply := Success;
        } else {
          reply := Failure(UpdateError);
        }
      } else {
        reply := Failure(UpdateRefused);
      }
    }

    /** `delete`: only a manual row; `checkOk` says whether the manual-row check
        answered 200 and `code` answers the DELETE. A failed check is answered as
        if the row were not manual. */
    method Delete(id: nat, checkOk: bool, code: int) returns (reply: Reply)
      requires Valid()
      modifies this`rows
      ensures Valid()
      ensures !IsManual(old(rows), id) ==> reply == Failure(DeleteRefused) && unchanged(this)
      ensures !checkOk ==> reply == Failure(DeleteRefused) && unchanged(this)
      ensures checkOk && IsManual(old(rows), id) && code != 204 && code != 200 ==>
        reply == Failure(DeleteError) && unchanged(this)
      ensures checkOk && IsManual(old(rows), id) && (code == 204 || code == 200) ==>
        reply == Success && rows == RemoveId(old(rows), id) && !IsManual(rows, id)
    {
      if checkOk && IsManual(rows, id) {
        if code == 204 || code == 200 {
          RemoveIdDistinct(rows, id);
          rows := RemoveId(rows, id);
          reply := Success;
        } else {
          reply := Failure(DeleteError);
        }
      } else {
        reply := Failure(DeleteRefused);
      }
    }
  }

  /** A row the upload imported is never touched by update or delete. */
  lemma ImportedRowsAreProtected(sheet: seq<SheetRow>, stored: seq<Row>, from: nat, id: nat)
    requires !IsManual(stored, id)
    ensures !IsManual(stored + Stamp(Queued(sheet, stored), from), id)
  {
    var q := Queued(sheet, stored);
    var all := stored + Stamp(q, from);
    forall i | 0 <= i < |all| && all[i].id == id ensures all[i].rec.source != "manual" {
      if i >= |stored| {
        var k := i - |stored|;
        assert q[k] in q;
        QueuedMembers(sheet, stored, q[k]);
        var m :| 0 <= m < |sheet| && Queues(sheet[m], stored, q[k]);
      }
    }
  }
}
