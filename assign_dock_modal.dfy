/** The dock assignment dialog (src/components/AssignDockModal.tsx): as the
    operator types a dock number the dialog classifies that dock as blocked,
    in use or available; on submit it refuses an empty number and a blocked
    dock, asks for confirmation on a dock in use, and otherwise writes the
    trimmed dock number to the log entry. */
module AssignDock {
  import opened Text
  import opened Optional
  import opened DockStatus

  /** The dialog knows no double-booked state: one or several occupants are both
      "in use". */
  datatype DockState = Free | Occupied | Closed

  /** The columns the dialog selects for an occupant. */
  datatype Occupant = Occupant(poNumber: string, driverName: string, dockNumber: string)

  datatype DockInfo = DockInfo(dockNumber: string, status: DockState, orders: seq<Occupant>)

  /** What `checkDockStatus` leaves in the dialog's state. */
  datatype Check = Check(info: DockInfo, showWarning: bool)

  function OccupantOf(row: LogRow): Occupant {
    Occupant(row.poNumber, row.driverName, row.dockNumber)
  }

  /** The rows of `.eq('dock_number', dock).neq('status', 'complete')`, in order. */
  function OccupantsOf(rows: seq<LogRow>, dock: string): seq<Occupant> {
    if rows == [] then []
    else
      var last := rows[|rows| - 1];
      OccupantsOf(rows[..|rows| - 1], dock)
        + (if last.dockNumber == dock && IsActive(last) then [OccupantOf(last)] else [])
  }

  /** Some row that is not complete names the dock. */
  predicate HasOccupant(rows: seq<LogRow>, dock: string) {
    exists i | 0 <= i < |rows| :: rows[i].dockNumber == dock && IsActive(rows[i])
  }

  lemma {:induction false} OccupantsOfEmpty(rows: seq<LogRow>, dock: string)
    ensures OccupantsOf(rows, dock) == [] <==> !HasOccupant(rows, dock)
  {
    if rows != [] {
      var init := rows[..|rows| - 1];
      OccupantsOfEmpty(init, dock);
      if HasOccupant(init, dock) {
        var i :| 0 <= i < |init| && init[i].dockNumber == dock && IsActive(init[i]);
        assert rows[i] == init[i];
      }
      if HasOccupant(rows, dock) && !HasOccupant(init, dock) {
        var i :| 0 <= i < |rows| && rows[i].dockNumber == dock && IsActive(rows[i]);
        assert i == |rows| - 1;
      }
    }
  }

  /** `blocked[dock]` is truthy: the stored entry is an object, truthy
      whatever reason it holds. */
  predicate Blocks(blocked: map<string, string>, dock: string) {
    dock in blocked
  }

  /** The dialog and the dock status page read the same rows: a dock has an
      occupant here exactly when the board lists an order on it. */
  lemma {:induction false} OccupiedOnBoard(rows: seq<LogRow>, dock: string)
    ensures HasOccupant(rows, dock) <==> OrdersOn(ActiveRows(rows), dock) != []
  {
    if rows != [] {
      var init := rows[..|rows| - 1];
      var last := rows[|rows| - 1];
      OccupiedOnBoard(init, dock);
      var active := ActiveRows(init);
      if IsActive(last) {
        assert ActiveRows(rows) == active + [last];
        assert (active + [last])[..|active|] == active;
      } else {
        assert ActiveRows(rows) == active;
      }
      if HasOccupant(init, dock) {
        var i :| 0 <= i < |init| && init[i].dockNumber == dock && IsActive(init[i]);
        assert rows[i] == init[i];
      }
      if HasOccupant(rows, dock) && !HasOccupant(init, dock) {
        var i :| 0 <= i < |rows| && rows[i].dockNumber == dock && IsActive(rows[i]);
        assert i == |rows| - 1;
      }
    }
  }

  /** The dialog and the board agree on every dock: closed here exactly when
      the board shows it blocked, in use here exactly when the board shows
      one order or more on it. */
  lemma AgreesWithBoard(dock: string, blocked: map<string, string>, rows: seq<LogRow>)
    ensures var c := CheckDockStatus(dock, blocked, rows);
      var b := ResolveDock(dock, blocked, ActiveRows(rows));
      && (c.info.status == Closed <==> b.status == Blocked)
      && (c.info.status == Occupied <==> b.status == InUse || b.status == DoubleBooked)
      && (c.info.status == Free <==> b.status == Available)
  {
    OccupiedOnBoard(rows, dock);
  }

  /** `checkDockStatus(dock)`: the block list first, then the log. */
  function CheckDockStatus(dock: string, blocked: map<string, string>, rows: seq<LogRow>): (c: Check)
    ensures c.info.dockNumber == dock
    ensures Blocks(blocked, dock) ==> c == Check(DockInfo(dock, Closed, []), true)
    ensures !Blocks(blocked, dock) ==>
      && c.info.orders == OccupantsOf(rows, dock)
      && (c.info.status == Occupied <==> HasOccupant(rows, dock))
      && (c.info.status != Occupied ==> c.info.status == Free && c.info.orders == [])
      && c.showWarning == (c.info.status == Occupied)
  {
    OccupantsOfEmpty(rows, dock);
    if Blocks(blocked, dock) then Check(DockInfo(dock, Closed, []), true)
    else
      var existing := OccupantsOf(rows, dock);
      if |existing| > 0 then Check(DockInfo(dock, Occupied, existing), true)
      else Check(DockInfo(dock, Free, []), false)
  }

  /** One occupant or several: the dialog says "in use" either way. */
  lemma NoDoubleBookedState(dock: string, blocked: map<string, string>, a: LogRow, b: LogRow)
    requires !Blocks(blocked, dock)
    requires a.dockNumber == dock && b.dockNumber == dock && IsActive(a) && IsActive(b)
    ensures CheckDockStatus(dock, blocked, [a]).info.status == Occupied
    ensures CheckDockStatus(dock, blocked, [a, b]).info.status == Occupied
  {
    assert [a, b][0] == a;
    assert [a][0] == a;
  }

  /** How a submit ends. */
  datatype Decision =
    | NoDockNumber          // alert: enter a dock number
    | DockIsBlocked         // alert: the dock is blocked
    | Declined              // the operator cancelled the double-booking prompt
    | Write(dock: string)   // the entry's dock_number becomes `dock`

  /** The guards of `handleSubmit`, given the dialog's state and the operator's
      answer to the double-booking prompt (asked only for a dock in use). */
  function SubmitDecision(dockNumber: string, info: Option<DockInfo>, showWarning: bool, confirm: bool)
    : (d: Decision)
    ensures AllWhitespace(dockNumber) ==> d == NoDockNumber
    ensures !AllWhitespace(dockNumber) && info.Some? && info.value.status == Closed ==> d == DockIsBlocked
    ensures d.Write? ==> d.dock == Trim(dockNumber) && d.dock != ""
    ensures d.Write? ==> info.None? || info.value.status != Closed
    ensures d.Write? && showWarning && info.Some? && info.value.status == Occupied ==> confirm
    ensures !AllWhitespace(dockNumber) && (info.None? || info.value.status == Free) ==> d.Write?
    ensures d == Declined <==>
      !AllWhitespace(dockNumber) && showWarning && info.Some? && info.value.status == Occupied && !confirm
  {
    if Trim(dockNumber) == "" then NoDockNumber
    else if info.Some? && info.value.status == Closed then DockIsBlocked
    else if showWarning && info.Some? && info.value.status == Occupied && !confirm then Declined
    else Write(Trim(dockNumber))
  }

  /** After the check has run on what was typed, a blocked dock is refused even
      when the operator would confirm, an occupied dock is written only with
      confirmation, and a free dock is written without asking. */
  lemma SubmitAfterCheck(typed: string, blocked: map<string, string>, rows: seq<LogRow>, confirm: bool)
    requires !AllWhitespace(typed)
    ensures var c := CheckDockStatus(typed, blocked, rows);
      var d := SubmitDecision(typed, Some(c.info), c.showWarning, confirm);
      && (Blocks(blocked, typed) ==> d == DockIsBlocked)
      && (!Blocks(blocked, typed) && HasOccupant(rows, typed) ==> (d.Write? <==> confirm))
      && (!Blocks(blocked, typed) && !HasOccupant(rows, typed) ==> d == Write(Trim(typed)))
  {
  }

  /** The log after the update `dock_number := dock, updated_at := now` on the
      entry with the given id. */
  function SetDock(rows: seq<LogRow>, id: string, dock: string, now: string): (r: seq<LogRow>)
    ensures |r| == |rows|
    ensures forall i | 0 <= i < |rows| ::
      r[i] == if rows[i].id == id then rows[i].(dockNumber := dock, updatedAt := now) else rows[i]
  {
    seq(|rows|, i requires 0 <= i < |rows| =>
      if rows[i].id == id then rows[i].(dockNumber := dock, updatedAt := now) else rows[i])
  }

  /** The dialog for one log entry. `rows` is the daily log the dialog reads and
      writes; `blocked` the block list in browser storage. */
  class AssignDockModal {
    const entryId: string
    var dockNumber: string
    var dockInfo: Option<DockInfo>
    var showWarning: bool
    var rows: seq<LogRow>

    constructor (entryId: string, rows: seq<LogRow>)
      ensures this.entryId == entryId && this.rows == rows
      ensures dockNumber == "" && dockInfo == None && !showWarning
    {
      this.entryId := entryId;
      this.rows := rows;
      dockNumber := "";
      dockInfo := None;
      showWarning := false;
    }

    /** Typing in the dock field; the effect on `dockNumber` runs the check on
        the text as typed, or clears the dock info when the field is empty.
        A submit stores the trimmed text, so the check and the write can look
        at different docks (see `UntrimmedCheckWritesBlockedDock`).
        `queryOk` says whether the occupancy query succeeded; the query runs
        only for a dock that is not on the block list, and a failed one is
        caught and logged, leaving the dock info of the previous check. */
    method TypeDockNumber(value: string, blocked: map<string, string>, queryOk: bool)
      modifies this`dockNumber, this`dockInfo, this`showWarning
      ensures dockNumber == value
      ensures value == "" ==> dockInfo == None && !showWarning
      ensures value != "" && (Blocks(blocked, value) || queryOk) ==>
        var c := CheckDockStatus(value, blocked, rows);
        dockInfo == Some(c.info) && showWarning == c.showWarning
      ensures value != "" && !Blocks(blocked, value) && !queryOk ==>
        dockInfo == old(dockInfo) && showWarning == old(showWarning)
    {
      dockNumber := value;
      if |value| > 0 && !Blocks(blocked, value) && !queryOk {
        return;
      }
      if |value| > 0 {
        var c := CheckDockStatus(value, blocked, rows);
        dockInfo := Some(c.info);
        showWarning := c.showWarning;
      } else {
        dockInfo := None;
        showWarning := false;
      }
    }

    /** `handleSubmit`; `confirm` is the operator's answer to the prompt and
        `writeOk` says whether the update succeeded. A failed update shows an
        alert and leaves the dialog and the log as they were. */
    method HandleSubmit(confirm: bool, now: string, writeOk: bool) returns (d: Decision, saved: bool)
      modifies this`rows, this`dockNumber, this`dockInfo, this`showWarning
      ensures d == SubmitDecision(old(dockNumber), old(dockInfo), old(showWarning), confirm)
      ensures saved <==> d.Write? && writeOk
      ensures !saved ==> unchanged(this)
      ensures saved ==>
        && rows == SetDock(old(rows), entryId, d.dock, now)
        && dockNumber == "" && dockInfo == None && !showWarning
    {
      d := SubmitDecision(dockNumber, dockInfo, showWarning, confirm);
      saved := d.Write? && writeOk;
      if saved {
        rows := SetDock(rows, entryId, d.dock, now);
        dockNumber := "";
        dockInfo := None;
        showWarning := false;
      }
    }
  }

  // ---- The check looks at the text as typed, the write stores it trimmed ----

  /** As written: typing " 12" when dock "12" is blocked finds no block-list
      entry and no occupant for " 12", so the submit goes through and stores
      "12", the blocked dock. */
  lemma UntrimmedCheckWritesBlockedDock()
    ensures var blocked := map["12" := "Dropped trailer"];
      var c := CheckDockStatus(" 12", blocked, []);
      && c.info.status == Free
      && SubmitDecision(" 12", Some(c.info), c.showWarning, false) == Write("12")
      && Blocks(blocked, "12")
  {
    var blocked := map["12" := "Dropped trailer"];
    assert " 12" !in blocked;
    assert !AllWhitespace(" 12") by { assert !IsWhitespace(" 12"[1]); }
    TrimFramed(" ", "12", "");
    assert " " + "12" + "" == " 12";
  }

  /** The check on the dock number that will be stored, as the effect
      evidently intends. */
  function CheckTrimmed(typed: string, blocked: map<string, string>, rows: seq<LogRow>): (c: Check)
    ensures c.info.dockNumber == Trim(typed)
  {
    CheckDockStatus(Trim(typed), blocked, rows)
  }

  /** With the check made on the trimmed number, the dock written is never on
      the block list and is never an occupied dock written without confirmation. */
  lemma TrimmedCheckGuardsWrite(typed: string, blocked: map<string, string>, rows: seq<LogRow>, confirm: bool)
    ensures var c := CheckTrimmed(typed, blocked, rows);
      var d := SubmitDecision(typed, Some(c.info), c.showWarning, confirm);
      d.Write? ==> !Blocks(blocked, d.dock) && (HasOccupant(rows, d.dock) ==> confirm)
  {
  }
}
