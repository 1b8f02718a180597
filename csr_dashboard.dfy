/** The customer service dashboard (src/components/CSRDashboard.tsx): the
    appointment-time choices it offers, the dwell-time label and colour, the
    early-arrival flag, the status counts, and the dock assignment it writes
    to a check-in. Instants are whole minutes or milliseconds as the callers
    pass them; the clock and the database are parameters. */
module CsrDashboard {
  import opened Text
  import opened Clock
  import opened AppointmentTypes
  import opened Optional

  // ---- generateTimeSlots ----

  /** One option of the appointment-time select. */
  datatype SlotOption = SlotOption(value: string, display: string)

  /** date-fns `format(..., 'h:mm a')` of a time of day. */
  function Display(hour: nat, minute: nat): (r: string)
    requires hour < 24 && minute < 60
    ensures |r| >= 7 && r[|r| - 3..] == (if hour < 12 then " AM" else " PM")
  {
    var h12 := if hour % 12 == 0 then 12 else hour % 12;
    NatToString(h12) + ":" + Pad2(minute) + " " + (if hour < 12 then "AM" else "PM")
  }

  /** The option for a time of day. */
  function SlotFor(hour: nat, minute: nat): SlotOption
    requires hour < 24 && minute < 60
  {
    SlotOption(FormatClock(hour, minute), Display(hour, minute))
  }

  /** The option pushed as the i-th: hour 8 + i / 2, minute 0 or 30. */
  function SlotAt(i: nat): SlotOption
    requires i < 16
  {
    SlotFor(SlotHour(i), SlotMinute(i))
  }

  function SlotHour(i: nat): nat {
    8 + i / 2
  }

  function SlotMinute(i: nat): nat {
    if i % 2 == 0 then 0 else 30
  }

  lemma SlotIndexParts(hour: nat, k: nat)
    requires 8 <= hour <= 15 && k < 2
    ensures SlotHour(2 * (hour - 8) + k) == hour && SlotMinute(2 * (hour - 8) + k) == 30 * k
  {
    var i := 2 * (hour - 8) + k;
    assert i / 2 == hour - 8 && i % 2 == k;
  }

  /** The sixteen options, in order. */
  function AllSlots(): (r: seq<SlotOption>)
    ensures |r| == 16 && forall i | 0 <= i < 16 :: r[i] == SlotAt(i)
  {
    seq(16, i requires 0 <= i < 16 => SlotAt(i))
  }

  /** Appending the next element of `all` to a prefix of it gives the next
      prefix. */
  lemma PushNext<T>(xs: seq<T>, all: seq<T>, n: nat)
    requires n < |all| && xs == all[..n]
    ensures xs + [all[n]] == all[..n + 1]
  {
  }

  lemma SlotAtIndex(hour: nat, k: nat)
    requires 8 <= hour <= 15 && k < 2
    ensures SlotAt(2 * (hour - 8) + k) == SlotFor(hour, 30 * k)
  {
    SlotIndexParts(hour, k);
  }

  /** `generateTimeSlots`: hours 8 to 15, minutes 0 and 30, stopping after
      15:30. */
  method GenerateTimeSlots() returns (slots: seq<SlotOption>)
    ensures slots == AllSlots()
  {
    slots := [];
    var hour := 8;
    while hour <= 15
      invariant 8 <= hour <= 16
      invariant slots == AllSlots()[..2 * (hour - 8)]
    {
      var minutes := [0, 30];
      var k := 0;
      while k < |minutes|
        invariant 0 <= k <= 2
        invariant slots == AllSlots()[..2 * (hour - 8) + k]
      {
        var minute := minutes[k];
        assert minute == 30 * k;
        SlotAtIndex(hour, k);
        if hour == 15 && minute == 30 {
          var time := FormatClock(hour, minute);
          var display := Display(hour, minute);
          PushNext(slots, AllSlots(), 2 * (hour - 8) + k);
          slots := slots + [SlotOption(time, display)];
          break;
        }
        if hour > 15 {
          break;
        }
        var time := FormatClock(hour, minute);
        var display := Display(hour, minute);
        PushNext(slots, AllSlots(), 2 * (hour - 8) + k);
        slots := slots + [SlotOption(time, display)];
        k := k + 1;
      }
      hour := hour + 1;
    }
  }

  /** The i-th option's value is the time 08:00 + 30 i minutes, which is entry
      i + 4 of the shared slot list: the dashboard offers 08:00 to 15:30 of
      it. */
  lemma SlotValues()
    ensures forall i | 0 <= i < 16 ::
      && IsTimeOfDay(SlotAt(i).value) && MinutesOf(SlotAt(i).value) == 480 + 30 * i
      && SlotAt(i).value == TimeSlots[i + 4]
  {
    TimeSlotMinutes();
    forall i | 0 <= i < 16
      ensures && IsTimeOfDay(SlotAt(i).value) && MinutesOf(SlotAt(i).value) == 480 + 30 * i
              && SlotAt(i).value == TimeSlots[i + 4]
    {
      MinutesDetermine(SlotAt(i).value, TimeSlots[i + 4]);
    }
  }

  /** The options run from 08:00 to 15:30, thirty minutes apart, so they are
      strictly increasing; the first eight are morning times. */
  lemma SlotOrder()
    ensures forall i, j | 0 <= i < 16 && j == i + 1 < 16 ::
      IsClock(SlotAt(i).value) && IsClock(SlotAt(j).value)
      && MinutesOf(SlotAt(j).value) == MinutesOf(SlotAt(i).value) + 30
    ensures forall i, j | 0 <= i < j < 16 ::
      IsClock(SlotAt(i).value) && IsClock(SlotAt(j).value)
      && MinutesOf(SlotAt(i).value) < MinutesOf(SlotAt(j).value)
    ensures forall i | 0 <= i < 16 :: (8 + i / 2 < 12 <==> i < 8)
  {
    SlotValues();
    forall i, j | 0 <= i < j < 16
      ensures IsClock(SlotAt(i).value) && IsClock(SlotAt(j).value)
      ensures MinutesOf(SlotAt(i).value) < MinutesOf(SlotAt(j).value)
    {
      assert MinutesOf(SlotAt(i).value) == 480 + 30 * i;
      assert MinutesOf(SlotAt(j).value) == 480 + 30 * j;
    }
  }

  // ---- Dwell time ----

  /** JavaScript's `%`, which keeps the sign of the dividend. */
  function JsRem(a: int, b: int): (r: int)
    requires b > 0
    ensures a >= 0 ==> 0 <= r < b && r == a % b
    ensures a < 0 ==> -b < r <= 0
  {
    if a >= 0 then a % b else -((-a) % b)
  }

  /** `formatDwellTime(minutes)`; `Math.floor(minutes / 60)` is Dafny's
      division by a positive divisor. */
  function FormatDwell(minutes: int): (r: string)
    ensures minutes >= 0 && minutes < 60 ==> r == NatToString(minutes) + "m"
    ensures minutes >= 60 ==>
      exists h: nat, m: nat | h >= 1 && m < 60 && h * 60 + m == minutes ::
        r == NatToString(h) + "h " + NatToString(m) + "m"
  {
    var hours := minutes / 60;
    var mins := JsRem(minutes, 60);
    assert minutes >= 60 ==> hours >= 1 && mins < 60 && hours * 60 + mins == minutes;
    if hours == 0 then IntToString(mins) + "m"
    else IntToString(hours) + "h " + IntToString(mins) + "m"
  }

  /** Distinct non-negative dwell times get distinct labels. */
  lemma FormatDwellInjective(a: nat, b: nat)
    requires FormatDwell(a) == FormatDwell(b)
    ensures a == b
  {
    var ha, ma := a / 60, a % 60;
    var hb, mb := b / 60, b % 60;
    var sa := FormatDwell(a);
    if a < 60 && b < 60 {
      assert NatToString(a) == sa[..|sa| - 1] == NatToString(b);
      NatToStringInjective(a, b);
    } else if a >= 60 && b >= 60 {
      var u := NatToString(ha);
      var v := NatToString(hb);
      assert sa == u + "h " + NatToString(ma) + "m";
      assert sa == v + "h " + NatToString(mb) + "m";
      HoursPrefix(u, v, NatToString(ma), NatToString(mb));
      NatToStringInjective(ha, hb);
      assert NatToString(ma) == NatToString(mb);
      NatToStringInjective(ma, mb);
    } else {
      assert false;
    }
  }

  /** The number of leading digits of `s`. */
  function LeadingDigits(s: string): nat {
    if s == [] || !IsDigit(s[0]) then 0 else 1 + LeadingDigits(s[1..])
  }

  lemma {:induction false} LeadingDigitsOf(u: string, rest: string)
    requires AllDigits(u) && rest != [] && !IsDigit(rest[0])
    ensures LeadingDigits(u + rest) == |u|
  {
    if u != [] {
      assert (u + rest)[1..] == u[1..] + rest;
      LeadingDigitsOf(u[1..], rest);
    } else {
      assert u + rest == rest;
    }
  }

  /** Two labels "Uh Xm" and "Vh Ym" with digit-only U and V have equal hour
      and minute parts when they are equal. */
  lemma HoursPrefix(u: string, v: string, x: string, y: string)
    requires AllDigits(u) && AllDigits(v)
    requires u + "h " + x + "m" == v + "h " + y + "m"
    ensures u == v && x == y
  {
    var s := u + "h " + x + "m";
    LeadingDigitsOf(u, "h " + x + "m");
    LeadingDigitsOf(v, "h " + y + "m");
    assert u + "h " + x + "m" == u + ("h " + x + "m");
    assert v + "h " + y + "m" == v + ("h " + y + "m");
    assert u == s[..|u|] == v;
    assert x == s[|u| + 2..|s| - 1] == y;
  }

  /** A check-in stamped up to an hour after "now" (a clock ahead of the
      browser's) shows as "-1h" and the negative remainder. */
  lemma FormatDwellJustNegative(minutes: int)
    requires -60 < minutes < 0
    ensures FormatDwell(minutes) == "-1h " + IntToString(minutes) + "m"
  {
  }

  datatype DwellColor = Green | Yellow | Red

  /** `getDwellTimeColor`. */
  function ColorOf(dwellMinutes: int): (c: DwellColor)
    ensures c == Green <==> dwellMinutes < 60
    ensures c == Red <==> dwellMinutes >= 120
  {
    if dwellMinutes < 60 then Green
    else if dwellMinutes < 120 then Yellow
    else Red
  }

  function Severity(c: DwellColor): nat {
    match c
    case Green => 0
    case Yellow => 1
    case Red => 2
  }

  /** A longer wait never shows a milder colour. */
  lemma ColorMonotone(a: int, b: int)
    requires a <= b
    ensures Severity(ColorOf(a)) <= Severity(ColorOf(b))
  {
  }

  /** The Tailwind classes of each colour. */
  function ColorClass(c: DwellColor): string {
    match c
    case Green => "text-green-600 font-semibold"
    case Yellow => "text-yellow-600 font-semibold"
    case Red => "text-red-600 font-semibold"
  }

  // ---- Check-ins ----

  datatype Status = Pending | Assigned | Loading | Completed | Departed

  /** A check-in row; an empty `appointmentTime` or `notes` is null. */
  datatype CheckIn = CheckIn(
    id: string,
    status: Status,
    checkInTime: int,
    appointmentTime: string,
    dockNumber: string,
    notes: string)

  /** `isEarlyArrival`; `appointmentAt` is the instant `parseISO` reads from
      the appointment time. */
  function IsEarlyArrival(c: CheckIn, appointmentAt: int): (early: bool)
    ensures c.appointmentTime == "" ==> !early
    ensures c.appointmentTime != "" ==> (early <==> c.checkInTime < appointmentAt)
  {
    if c.appointmentTime == "" then false else c.checkInTime < appointmentAt
  }

  function CountStatus(cs: seq<CheckIn>, s: Status): (n: nat)
    ensures n <= |cs|
  {
    if cs == [] then 0
    else CountStatus(cs[..|cs| - 1], s) + (if cs[|cs| - 1].status == s then 1 else 0)
  }

  datatype Stats = Stats(pendingCount: nat, assignedCount: nat, loadingCount: nat, completedCount: nat)

  /** `stats`. */
  function StatsOf(cs: seq<CheckIn>): Stats {
    Stats(CountStatus(cs, Pending), CountStatus(cs, Assigned), CountStatus(cs, Loading), CountStatus(cs, Completed))
  }

  /** Every check-in is counted once, except the departed ones, which no tile
      counts. */
  lemma {:induction false} StatsCoverAllButDeparted(cs: seq<CheckIn>)
    ensures var st := StatsOf(cs);
      st.pendingCount + st.assignedCount + st.loadingCount + st.completedCount + CountStatus(cs, Departed) == |cs|
  {
    if cs != [] {
      StatsCoverAllButDeparted(cs[..|cs| - 1]);
    }
  }

  // ---- assignDock ----

  /** `${today}T${appointmentTime}:00`, or null when no time was chosen. */
  function AppointmentDateTime(today: string, slot: string): (r: string)
    ensures slot == "" <==> r == ""
    ensures slot != "" ==> r == today + "T" + slot + ":00"
  {
    if slot != "" then today + "T" + slot + ":00" else ""
  }

  /** For a ten-character date and a chosen slot the stored value is the local
      date-time "YYYY-MM-DDTHH:MM:00", from which the date and the slot read
      back. */
  lemma AppointmentDateTimeParts(today: string, slot: string)
    requires |today| == 10 && IsTimeOfDay(slot)
    ensures var r := AppointmentDateTime(today, slot);
      |r| == 19 && r[..10] == today && r[10] == 'T' && r[11..16] == slot && r[16..] == ":00"
  {
  }

  /** The update `assignDock` sends for the selected check-in. */
  function Assign(c: CheckIn, dockNumber: string, appointmentTime: string, notes: string, selectedNotes: string)
    : (r: CheckIn)
    ensures r.status == Assigned && r.dockNumber == dockNumber && r.appointmentTime == appointmentTime
    ensures r.notes == if notes != "" then notes else selectedNotes
    ensures r.(dockNumber := c.dockNumber, appointmentTime := c.appointmentTime,
               status := c.status, notes := c.notes) == c
  {
    c.(dockNumber := dockNumber, appointmentTime := appointmentTime, status := Assigned,
       notes := if notes != "" then notes else selectedNotes)
  }

  /** The check-ins after the update on the row with id `id`. */
  function AssignRows(cs: seq<CheckIn>, id: string, dockNumber: string, appointmentTime: string, notes: string,
                      selectedNotes: string): (r: seq<CheckIn>)
    ensures |r| == |cs|
    ensures forall i | 0 <= i < |cs| && cs[i].id != id :: r[i] == cs[i]
    ensures forall i | 0 <= i < |cs| && cs[i].id == id ::
      && r[i].status == Assigned && r[i].dockNumber == dockNumber && r[i].appointmentTime == appointmentTime
      && r[i].notes == (if notes != "" then notes else selectedNotes)
      && r[i].id == id && r[i].checkInTime == cs[i].checkInTime
  {
    seq(|cs|, i requires 0 <= i < |cs| =>
      if cs[i].id == id then Assign(cs[i], dockNumber, appointmentTime, notes, selectedNotes) else cs[i])
  }

  /** Assigning moves the check-in from its tile to "assigned": with unique
      ids the assigned count grows by one, or stays for a row already
      assigned. */
  lemma {:induction false} AssignCountsOne(cs: seq<CheckIn>, k: nat, id: string, dock: string, time: string,
                                           notes: string, selectedNotes: string)
    requires k < |cs|
    requires forall i | 0 <= i < |cs| :: cs[i].id == id <==> i == k
    ensures CountStatus(AssignRows(cs, id, dock, time, notes, selectedNotes), Assigned)
      == CountStatus(cs, Assigned) + (if cs[k].status == Assigned then 0 else 1)
    decreases |cs|
  {
    var n := |cs|;
    var r := AssignRows(cs, id, dock, time, notes, selectedNotes);
    var init := cs[..n - 1];
    if k == n - 1 {
      assert r[..n - 1] == init;
    } else {
      AssignCountsOne(init, k, id, dock, time, notes, selectedNotes);
      assert r[..n - 1] == AssignRows(init, id, dock, time, notes, selectedNotes);
    }
  }

  datatype AssignResult = NeedDock | Failed | Done

  class Dashboard {
    var checkIns: seq<CheckIn>
    var selected: Option<CheckIn>
    var dockNumber: string
    var appointmentTime: string
    var notes: string

    constructor (checkIns: seq<CheckIn>)
      ensures this.checkIns == checkIns && selected == None
      ensures dockNumber == "" && appointmentTime == "" && notes == ""
    {
      this.checkIns := checkIns;
      selected := None;
      dockNumber := "";
      appointmentTime := "";
      notes := "";
    }

    /** `assignDock`; `today` is the Indianapolis date "yyyy-MM-dd" and
        `writeOk` says whether the update succeeded. The list is the table as
        the refetch reads it back. */
    method AssignDock(today: string, writeOk: bool) returns (result: AssignResult)
      modifies this
      ensures old(selected).None? || old(dockNumber) == "" ==> result == NeedDock && unchanged(this)
      ensures old(selected).Some? && old(dockNumber) != "" && !writeOk ==> result == Failed && unchanged(this)
      ensures old(selected).Some? && old(dockNumber) != "" && writeOk ==>
        && result == Done
        && checkIns == AssignRows(old(checkIns), old(selected).value.id, old(dockNumber),
                                  AppointmentDateTime(today, old(appointmentTime)), old(notes),
                                  old(selected).value.notes)
        && selected == None && dockNumber == "" && appointmentTime == "" && notes == ""
    {
      if selected.None? || dockNumber == "" {
        return NeedDock;
      }
      var appointmentDateTime := "";
      if appointmentTime != "" {
        appointmentDateTime := today + "T" + appointmentTime + ":00";
      }
      if !writeOk {
        return Failed;
      }
      checkIns := AssignRows(checkIns, selected.value.id, dockNumber, appointmentDateTime, notes, selected.value.notes);
      selected := None;
      dockNumber := "";
      appointmentTime := "";
      notes := "";
      result := Done;
    }
  }
}
