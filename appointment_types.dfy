/** The appointment record shared by the parsers and the scheduling pages, and
    the fixed list of half-hour slots offered for booking
    (src/types/appointments.ts). */
module AppointmentTypes {
  import opened Text
  import opened Clock

  /** `AppointmentInput`: the fields a parsed or typed appointment carries. */
  datatype AppointmentInput = AppointmentInput(
    appointmentDate: string,
    scheduledTime: string,
    salesOrder: string,
    delivery: string,
    carrier: string,
    notes: string)

  /** `TIME_SLOTS`. */
  const TimeSlots: seq<string> := [
    "06:00", "06:30", "07:00", "07:30", "08:00", "08:30",
    "09:00", "09:30", "10:00", "10:30", "11:00", "11:30",
    "12:00", "12:30", "13:00", "13:30", "14:00", "14:30",
    "15:00", "15:30", "16:00"]

  /** The minute of the day a clock string names, digit by digit. */
  lemma {:induction false} MinutesOfDigits(s: string)
    requires IsClock(s)
    ensures MinutesOf(s) == (DigitValue(s[0]) * 10 + DigitValue(s[1])) * 60
                            + DigitValue(s[3]) * 10 + DigitValue(s[4])
  {
    TwoDigitValue(s[..2]);
    TwoDigitValue(s[3..]);
  }

  /** A clock string spelled out digit by digit. */
  lemma ClockLiteral(h1: char, h0: char, m1: char, m0: char)
    requires IsDigit(h1) && IsDigit(h0) && IsDigit(m1) && IsDigit(m0)
    ensures var s := [h1, h0, ':', m1, m0];
      IsClock(s) && HourOf(s) == DigitValue(h1) * 10 + DigitValue(h0)
      && MinuteOf(s) == DigitValue(m1) * 10 + DigitValue(m0)
  {
    var s := [h1, h0, ':', m1, m0];
    TwoDigitValue(s[..2]);
    TwoDigitValue(s[3..]);
  }

  lemma TimeSlotsPart0(i: nat)
    requires 0 <= i < 7
    ensures IsTimeOfDay(TimeSlots[i]) && MinutesOf(TimeSlots[i]) == 360 + 30 * i
    ensures MinuteOf(TimeSlots[i]) == if i % 2 == 0 then 0 else 30
  {
    if i == 0 { assert TimeSlots[i] == "06:00"; ClockLiteral('0', '6', '0', '0'); }
    else if i == 1 { assert TimeSlots[i] == "06:30"; ClockLiteral('0', '6', '3', '0'); }
    else if i == 2 { assert TimeSlots[i] == "07:00"; ClockLiteral('0', '7', '0', '0'); }
    else if i == 3 { assert TimeSlots[i] == "07:30"; ClockLiteral('0', '7', '3', '0'); }
    else if i == 4 { assert TimeSlots[i] == "08:00"; ClockLiteral('0', '8', '0', '0'); }
    else if i == 5 { assert TimeSlots[i] == "08:30"; ClockLiteral('0', '8', '3', '0'); }
    else { assert TimeSlots[i] == "09:00"; ClockLiteral('0', '9', '0', '0'); }
  }

  lemma TimeSlotsPart1(i: nat)
    requires 7 <= i < 14
    ensures IsTimeOfDay(TimeSlots[i]) && MinutesOf(TimeSlots[i]) == 360 + 30 * i
    ensures MinuteOf(TimeSlots[i]) == if i % 2 == 0 then 0 else 30
  {
    if i == 7 { assert TimeSlots[i] == "09:30"; ClockLiteral('0', '9', '3', '0'); }
    else if i == 8 { assert TimeSlots[i] == "10:00"; ClockLiteral('1', '0', '0', '0'); }
    else if i == 9 { assert TimeSlots[i] == "10:30"; ClockLiteral('1', '0', '3', '0'); }
    else if i == 10 { assert TimeSlots[i] == "11:00"; ClockLiteral('1', '1', '0', '0'); }
    else if i == 11 { assert TimeSlots[i] == "11:30"; ClockLiteral('1', '1', '3', '0'); }
    else if i == 12 { assert TimeSlots[i] == "12:00"; ClockLiteral('1', '2', '0', '0'); }
    else { assert TimeSlots[i] == "12:30"; ClockLiteral('1', '2', '3', '0'); }
  }

  lemma TimeSlotsPart2(i: nat)
    requires 14 <= i < 21
    ensures IsTimeOfDay(TimeSlots[i]) && MinutesOf(TimeSlots[i]) == 360 + 30 * i
    ensures MinuteOf(TimeSlots[i]) == if i % 2 == 0 then 0 else 30
  {
    if i == 14 { assert TimeSlots[i] == "13:00"; ClockLiteral('1', '3', '0', '0'); }
    else if i == 15 { assert TimeSlots[i] == "13:30"; ClockLiteral('1', '3', '3', '0'); }
    else if i == 16 { assert TimeSlots[i] == "14:00"; ClockLiteral('1', '4', '0', '0'); }
    else if i == 17 { assert TimeSlots[i] == "14:30"; ClockLiteral('1', '4', '3', '0'); }
    else if i == 18 { assert TimeSlots[i] == "15:00"; ClockLiteral('1', '5', '0', '0'); }
    else if i == 19 { assert TimeSlots[i] == "15:30"; ClockLiteral('1', '5', '3', '0'); }
    else { assert TimeSlots[i] == "16:00"; ClockLiteral('1', '6', '0', '0'); }
  }

  /** Slot i is the time of day 360 + 30 i minutes after midnight: the list
      runs from 06:00 to 16:00 in half hours. */
  lemma TimeSlotMinutes()
    ensures |TimeSlots| == 21
    ensures forall i | 0 <= i < |TimeSlots| ::
      IsTimeOfDay(TimeSlots[i]) && MinutesOf(TimeSlots[i]) == 360 + 30 * i
    ensures forall i | 0 <= i < |TimeSlots| :: MinuteOf(TimeSlots[i]) == if i % 2 == 0 then 0 else 30
  {
    forall i | 0 <= i < |TimeSlots|
      ensures IsTimeOfDay(TimeSlots[i]) && MinutesOf(TimeSlots[i]) == 360 + 30 * i
      ensures MinuteOf(TimeSlots[i]) == if i % 2 == 0 then 0 else 30
    {
      if i < 7 { TimeSlotsPart0(i); } else if i < 14 { TimeSlotsPart1(i); } else { TimeSlotsPart2(i); }
    }
  }

  /** The first slot is 06:00 and the last 16:00; every slot falls on the hour
      or on the half hour. */
  lemma TimeSlotsShape()
    ensures |TimeSlots| == 21 && TimeSlots[0] == "06:00" && TimeSlots[20] == "16:00"
    ensures forall i | 0 <= i < |TimeSlots| ::
      IsTimeOfDay(TimeSlots[i]) && (MinuteOf(TimeSlots[i]) == 0 || MinuteOf(TimeSlots[i]) == 30)
  {
    TimeSlotMinutes();
  }

  /** Consecutive slots are thirty minutes apart, so the list is strictly
      increasing and has no repeats. */
  lemma TimeSlotsStep()
    ensures forall i, j | 0 <= i < |TimeSlots| && j == i + 1 < |TimeSlots| ::
      IsClock(TimeSlots[i]) && IsClock(TimeSlots[j])
      && MinutesOf(TimeSlots[j]) == MinutesOf(TimeSlots[i]) + 30
    ensures forall i, j | 0 <= i < j < |TimeSlots| ::
      IsClock(TimeSlots[i]) && IsClock(TimeSlots[j]) && MinutesOf(TimeSlots[i]) < MinutesOf(TimeSlots[j])
    ensures forall i, j | 0 <= i < j < |TimeSlots| :: TimeSlots[i] != TimeSlots[j]
  {
    TimeSlotMinutes();
  }
}
