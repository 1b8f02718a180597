/** Wall-clock strings of the form "HH:MM" as the source builds them with
    `padStart(2, '0')`, and the minute of the day they stand for. */
module Clock {
  import opened Text

  /** Two digits, a colon and two digits. */
  predicate IsClock(s: string) {
    |s| == 5 && s[2] == ':' && IsDigit(s[0]) && IsDigit(s[1]) && IsDigit(s[3]) && IsDigit(s[4])
  }

  function HourOf(s: string): nat
    requires IsClock(s)
  {
    ParseDigits(s[..2])
  }

  function MinuteOf(s: string): nat
    requires IsClock(s)
  {
    ParseDigits(s[3..])
  }

  /** A clock string naming a real time of day: hour below 24, minute below 60. */
  predicate IsTimeOfDay(s: string) {
    IsClock(s) && HourOf(s) < 24 && MinuteOf(s) < 60
  }

  /** `${pad2(h)}:${pad2(m)}`. */
  function FormatClock(h: nat, m: nat): (r: string)
    requires h < 100 && m < 100
    ensures IsClock(r) && HourOf(r) == h && MinuteOf(r) == m
  {
    var r := Pad2(h) + ":" + Pad2(m);
    assert r[..2] == Pad2(h) && r[3..] == Pad2(m);
    r
  }

  /** Two two-digit strings joined by a colon make a clock string with those
      hour and minute digits. */
  lemma ClockOfParts(hh: string, mm: string)
    requires |hh| == 2 && |mm| == 2 && AllDigits(hh) && AllDigits(mm)
    ensures IsClock(hh + ":" + mm)
    ensures HourOf(hh + ":" + mm) == ParseDigits(hh) && MinuteOf(hh + ":" + mm) == ParseDigits(mm)
  {
    var s := hh + ":" + mm;
    assert s[..2] == hh;
    assert s[3..] == mm;
  }

  lemma TwoDigitValue(s: string)
    requires |s| == 2 && AllDigits(s)
    ensures ParseDigits(s) == DigitValue(s[0]) * 10 + DigitValue(s[1]) < 100
  {
    var p := s[..1];
    assert p[..0] == [];
    assert ParseDigits(p) == DigitValue(s[0]);
  }

  /** A string of two digits is the zero-padded form of the number it denotes. */
  lemma Pad2OfTwoDigits(s: string)
    requires |s| == 2 && AllDigits(s)
    ensures Pad2(ParseDigits(s)) == s
  {
    var v := ParseDigits(s);
    TwoDigitValue(s);
    if v >= 10 {
      assert v / 10 == DigitValue(s[0]) && v % 10 == DigitValue(s[1]);
      assert NatToString(v) == NatToString(v / 10) + [DigitChar(v % 10)];
    }
  }

  /** Every clock string is the formatted form of its own hour and minute. */
  lemma FormatClockOfParts(s: string)
    requires IsClock(s)
    ensures HourOf(s) < 100 && MinuteOf(s) < 100
    ensures FormatClock(HourOf(s), MinuteOf(s)) == s
  {
    TwoDigitValue(s[..2]);
    TwoDigitValue(s[3..]);
    Pad2OfTwoDigits(s[..2]);
    Pad2OfTwoDigits(s[3..]);
    assert s == s[..2] + ":" + s[3..];
  }

  /** Two clock strings are equal exactly when their hours and minutes are. */
  lemma ClockEquality(s: string, t: string)
    requires IsClock(s) && IsClock(t)
    ensures s == t <==> HourOf(s) == HourOf(t) && MinuteOf(s) == MinuteOf(t)
  {
    FormatClockOfParts(s);
    FormatClockOfParts(t);
  }

  /** Minutes since midnight for a clock string. */
  function MinutesOf(s: string): nat
    requires IsClock(s)
  {
    HourOf(s) * 60 + MinuteOf(s)
  }

  /** The "HH:MM" string of a minute of the day. */
  function ClockAt(t: nat): (r: string)
    requires t < 24 * 60
    ensures IsTimeOfDay(r) && MinutesOf(r) == t
  {
    FormatClock(t / 60, t % 60)
  }

  /** A time of day is determined by its minute of the day. */
  lemma MinutesDetermine(s: string, t: string)
    requires IsTimeOfDay(s) && IsTimeOfDay(t) && MinutesOf(s) == MinutesOf(t)
    ensures s == t
  {
    ClockEquality(s, t);
  }
}
