/** The appointment service of the web client (src/lib/appointmentsService.ts):
    the row `createAppointment` inserts and the columns `updateAppointment`
    writes, built from trimmed values with blanks turned into null, and the
    filters of `checkDuplicateAppointment`. SQL null and an absent property
    are both `None`. */
module AppointmentsService {
  import opened Text
  import opened Optional

  /** What the caller passes in; a property left out is `None`. */
  datatype Input = Input(
    date: Option<string>,
    time: Option<string>,
    salesOrder: Option<string>,
    delivery: Option<string>,
    carrier: Option<string>,
    notes: Option<string>,
    source: Option<string>)

  /** The columns of an appointment row the service writes or reads. */
  datatype Columns = Columns(
    scheduledDate: Option<string>,
    scheduledTime: Option<string>,
    salesOrder: Option<string>,
    delivery: Option<string>,
    carrier: Option<string>,
    notes: Option<string>,
    source: Option<string>)

  /** `v?.trim() || null`. */
  function TrimOrNull(v: Option<string>): (r: Option<string>)
    ensures r.None? <==> v.None? || AllWhitespace(v.value)
    ensures r.Some? ==> r.value == Trim(v.value) && r.value != [] && IsTrimmed(r.value)
  {
    if v.None? then None
    else
      var t := Trim(v.value);
      if t == "" then None else Some(t)
  }

  /** Trimming to null twice is trimming once. */
  lemma TrimOrNullIdempotent(v: Option<string>)
    ensures TrimOrNull(TrimOrNull(v)) == TrimOrNull(v)
  {
    if v.Some? {
      TrimIdempotent(v.value);
    }
  }

  /** `input.source || 'manual'`. */
  function SourceOrManual(source: Option<string>): (r: string)
    ensures r != ""
    ensures source.Some? && source.value != "" ==> r == source.value
  {
    if source.Some? && source.value != "" then source.value else "manual"
  }

  const NoReference := "Either Sales Order or Delivery must be provided"
  const CreateFailed := "Failed to create appointment"

  datatype Outcome = Written(row: Columns) | Thrown(message: string)

  /** A row as `createAppointment` inserts it: every text column present is
      trimmed and not blank, at least one reference is present, and the source
      is set. */
  predicate IsCleanRow(row: Columns) {
    && (row.salesOrder.Some? || row.delivery.Some?)
    && (row.salesOrder.Some? ==> row.salesOrder.value != "" && IsTrimmed(row.salesOrder.value))
    && (row.delivery.Some? ==> row.delivery.value != "" && IsTrimmed(row.delivery.value))
    && (row.carrier.Some? ==> row.carrier.value != "" && IsTrimmed(row.carrier.value))
    && (row.notes.Some? ==> row.notes.value != "" && IsTrimmed(row.notes.value))
    && row.source.Some? && row.source.value != ""
  }

  /** `createAppointment`; `dbError` is the message of the insert's error, if
      it fails. */
  function CreateAppointment(input: Input, dbError: Option<string>): (r: Outcome)
    ensures TrimOrNull(input.salesOrder).None? && TrimOrNull(input.delivery).None? ==> r == Thrown(NoReference)
    ensures r.Written? <==> (TrimOrNull(input.salesOrder).Some? || TrimOrNull(input.delivery).Some?) && dbError.None?
    ensures r.Written? ==>
      && IsCleanRow(r.row)
      && r.row.scheduledDate == input.date && r.row.scheduledTime == input.time
      && r.row.salesOrder == TrimOrNull(input.salesOrder) && r.row.delivery == TrimOrNull(input.delivery)
      && r.row.carrier == TrimOrNull(input.carrier) && r.row.notes == TrimOrNull(input.notes)
      && r.row.source == Some(SourceOrManual(input.source))
    ensures (TrimOrNull(input.salesOrder).Some? || TrimOrNull(input.delivery).Some?) && dbError.Some? ==>
      r == Thrown(if dbError.value != "" then dbError.value else CreateFailed)
  {
    var salesOrder := TrimOrNull(input.salesOrder);
    var delivery := TrimOrNull(input.delivery);
    if salesOrder.None? && delivery.None? then Thrown(NoReference)
    else if dbError.Some? then
      // `error.message || 'Failed to create appointment'`
      Thrown(if dbError.value != "" then dbError.value else CreateFailed)
    else
      Written(Columns(input.date, input.time, salesOrder, delivery,
                      TrimOrNull(input.carrier), TrimOrNull(input.notes),
                      Some(SourceOrManual(input.source))))
  }

  /** The input that names exactly the columns of `row`. */
  function InputOf(row: Columns): Input {
    Input(row.scheduledDate, row.scheduledTime, row.salesOrder, row.delivery, row.carrier, row.notes, row.source)
  }

  /** A clean row is a fixed point of creation: submitting it again builds the
      same row. */
  lemma {:induction false} CreateKeepsCleanRow(row: Columns)
    requires IsCleanRow(row)
    ensures CreateAppointment(InputOf(row), None) == Written(row)
  {
    if row.salesOrder.Some? { TrimOfTrimmed(row.salesOrder.value); }
    if row.delivery.Some? { TrimOfTrimmed(row.delivery.value); }
    if row.carrier.Some? { TrimOfTrimmed(row.carrier.value); }
    if row.notes.Some? { TrimOfTrimmed(row.notes.value); }
  }

  /** `updateAppointment` on a row, `dbError` as for create. A date or time
      left out is dropped from the update (the client serialises no undefined
      value); the four text columns are always written, so one left out
      becomes null. The source is not touched. */
  function UpdateAppointment(row: Columns, input: Input, dbError: Option<string>): (r: Outcome)
    ensures dbError.Some? <==> r.Thrown?
    ensures r.Written? ==>
      && r.row.scheduledDate == (if input.date.Some? then input.date else row.scheduledDate)
      && r.row.scheduledTime == (if input.time.Some? then input.time else row.scheduledTime)
      && r.row.salesOrder == TrimOrNull(input.salesOrder) && r.row.delivery == TrimOrNull(input.delivery)
      && r.row.carrier == TrimOrNull(input.carrier) && r.row.notes == TrimOrNull(input.notes)
      && r.row.source == row.source
  {
    if dbError.Some? then Thrown(dbError.value)
    else
      Written(Columns(
        if input.date.Some? then input.date else row.scheduledDate,
        if input.time.Some? then input.time else row.scheduledTime,
        TrimOrNull(input.salesOrder), TrimOrNull(input.delivery),
        TrimOrNull(input.carrier), TrimOrNull(input.notes),
        row.source))
  }

  /** With a date and a time given, an update writes what a create of the same
      input would insert, except the source; unlike create it goes through
      with neither reference. */
  lemma UpdateAgreesWithCreate(row: Columns, input: Input)
    requires input.date.Some? && input.time.Some?
    ensures var u := UpdateAppointment(row, input, None);
      var c := CreateAppointment(input, None);
      && u.Written?
      && (c.Written? ==> u.row == c.row.(source := row.source))
      && (c.Thrown? ==> u.row.salesOrder.None? && u.row.delivery.None?)
  {
  }

  /** An update that names only a new date clears both references, the carrier
      and the notes. */
  lemma DateOnlyUpdateClears(row: Columns, date: string)
    ensures var u := UpdateAppointment(row, Input(Some(date), None, None, None, None, None, None), None);
      && u.Written? && u.row.scheduledDate == Some(date) && u.row.scheduledTime == row.scheduledTime
      && u.row.salesOrder.None? && u.row.delivery.None? && u.row.carrier.None? && u.row.notes.None?
  {
  }

  // ---- checkDuplicateAppointment ----

  /** A filter argument that is applied: present and not empty. */
  predicate Truthy(v: Option<string>) {
    v.Some? && v.value != ""
  }

  /** A row the duplicate query returns: same date and time, and the same sales
      order and delivery for each of the two that was supplied. */
  predicate MatchesQuery(row: Columns, date: string, time: string, salesOrder: Option<string>, delivery: Option<string>) {
    && row.scheduledDate == Some(date) && row.scheduledTime == Some(time)
    && (Truthy(salesOrder) ==> row.salesOrder == salesOrder)
    && (Truthy(delivery) ==> row.delivery == delivery)
  }

  /** The rows of the query, in table order. */
  function Selected(rows: seq<Columns>, date: string, time: string, salesOrder: Option<string>, delivery: Option<string>)
    : (r: seq<Columns>)
    ensures |r| <= |rows|
  {
    if rows == [] then []
    else
      var last := rows[|rows| - 1];
      Selected(rows[..|rows| - 1], date, time, salesOrder, delivery)
        + (if MatchesQuery(last, date, time, salesOrder, delivery) then [last] else [])
  }

  lemma {:induction false} SelectedEmpty(rows: seq<Columns>, date: string, time: string, salesOrder: Option<string>, delivery: Option<string>)
    ensures Selected(rows, date, time, salesOrder, delivery) == [] <==>
      forall i | 0 <= i < |rows| :: !MatchesQuery(rows[i], date, time, salesOrder, delivery)
  {
    if rows != [] {
      var init := rows[..|rows| - 1];
      SelectedEmpty(init, date, time, salesOrder, delivery);
      assert forall i | 0 <= i < |init| :: rows[i] == init[i];
    }
  }

  /** `checkDuplicateAppointment`: `(data?.length || 0) > 0`. */
  function CheckDuplicate(rows: seq<Columns>, date: string, time: string, salesOrder: Option<string>, delivery: Option<string>)
    : (r: bool)
    ensures r <==> exists i | 0 <= i < |rows| :: MatchesQuery(rows[i], date, time, salesOrder, delivery)
  {
    SelectedEmpty(rows, date, time, salesOrder, delivery);
    |Selected(rows, date, time, salesOrder, delivery)| > 0
  }

  /** Supplying a reference only narrows the check, and an empty one is the same
      as none. */
  lemma FiltersNarrow(rows: seq<Columns>, date: string, time: string, salesOrder: Option<string>, delivery: Option<string>)
    ensures CheckDuplicate(rows, date, time, salesOrder, delivery) ==> CheckDuplicate(rows, date, time, None, delivery)
    ensures CheckDuplicate(rows, date, time, salesOrder, delivery) ==> CheckDuplicate(rows, date, time, salesOrder, None)
    ensures CheckDuplicate(rows, date, time, Some(""), delivery) == CheckDuplicate(rows, date, time, None, delivery)
    ensures CheckDuplicate(rows, date, time, salesOrder, Some("")) == CheckDuplicate(rows, date, time, salesOrder, None)
  {
  }

  /** A created row is found by the duplicate check on its own date, time and
      references. */
  lemma CreatedIsDuplicate(rows: seq<Columns>, input: Input, date: string, time: string)
    requires input.date == Some(date) && input.time == Some(time)
    requires CreateAppointment(input, None).Written?
    ensures var row := CreateAppointment(input, None).row;
      CheckDuplicate(rows + [row], date, time, row.salesOrder, row.delivery)
  {
    var row := CreateAppointment(input, None).row;
    assert (rows + [row])[|rows|] == row;
  }
}
