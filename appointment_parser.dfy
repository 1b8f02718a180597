/** The appointment file parser (src/lib/appointmentParser.ts): time notations
    normalised to "HH:MM", a line-based reader for tab, comma or pipe separated
    files, the per-item mapping of the JSON reader, and the record validator. */
module AppointmentParser {
  import opened Text
  import opened Clock
  import opened Optional
  import opened AppointmentTypes

  // ---- normalizeTime ----

  /** `c` starts with `k` digits (one or two) followed by a colon. */
  predicate HourColonAt(c: string, k: nat) {
    (k == 1 || k == 2) && k < |c| && c[k] == ':' && AllDigits(c[..k])
  }

  /** Where the colon of `\d{1,2}:` would be: after one digit or after two. */
  function ColonWidth(c: string): (k: nat)
    ensures k == 1 || k == 2
  {
    if HourColonAt(c, 1) then 1 else 2
  }

  /** `^(\d{2})(\d{2})$` */
  predicate IsFourDigits(c: string) {
    |c| == 4 && AllDigits(c)
  }

  /** `^(\d{1,2}):(\d{2})$` */
  predicate IsColonForm(c: string) {
    var k := ColonWidth(c);
    HourColonAt(c, k) && |c| == k + 3 && AllDigits(c[k + 1..])
  }

  /** `^(\d{1,2}):(\d{2})\s*(AM|PM)$` */
  predicate IsMeridiemForm(c: string) {
    var k := ColonWidth(c);
    && HourColonAt(c, k) && |c| >= k + 5 && AllDigits(c[k + 1..k + 3])
    && AllWhitespace(c[k + 3..|c| - 2])
    && (c[|c| - 2..] == "AM" || c[|c| - 2..] == "PM")
  }

  /** The 24-hour hour of a 12-hour clock reading: 12 AM is 0, 12 PM stays 12,
      any other PM hour gains 12 and any other AM hour is kept. */
  function Hour24(h: nat, pm: bool): (r: nat)
    ensures pm && h == 12 ==> r == 12
    ensures !pm && h == 12 ==> r == 0
    ensures h != 12 ==> r == if pm then h + 12 else h
  {
    if pm && h != 12 then h + 12
    else if !pm && h == 12 then 0
    else h
  }

  /** `timeSlotMap`. */
  const SlotNames: map<string, string> := map[
    "6AM" := "06:00", "7AM" := "07:00", "8AM" := "08:00", "9AM" := "09:00",
    "930AM" := "09:30", "10AM" := "10:00", "1030AM" := "10:30", "11AM" := "11:00",
    "1230PM" := "12:30", "1PM" := "13:00", "130PM" := "13:30", "2PM" := "14:00",
    "230PM" := "14:30", "3PM" := "15:00", "330PM" := "15:30"]

  /** Every slot name ends in "M" and has no colon. */
  lemma SlotNamesShape()
    ensures forall key | key in SlotNames :: ':' !in key && key != [] && key[|key| - 1] == 'M'
  {
  }

  /** Every slot name maps to a real time of day. */
  lemma SlotNamesValues()
    ensures forall key | key in SlotNames :: IsTimeOfDay(SlotNames[key])
  {
    forall key | key in SlotNames
      ensures IsTimeOfDay(SlotNames[key])
    {
      var v := SlotNames[key];
      MinutesOfDigits(v);
    }
  }

  /** `time.trim().toUpperCase()` */
  function Cleaned(time: string): string {
    ToUpper(Trim(time))
  }

  /** The normalisation cascade on the cleaned text. `strictMeridiem` adds the
      minute range check to the AM/PM rule: without it the cascade is the one
      written (`NormalizeTimeAsWritten`), with it the one intended
      (`NormalizeTime`). */
  function NormalizeCleaned(c: string, strictMeridiem: bool): (r: Option<string>)
    ensures r.Some? ==> r.value == "Work In" || (IsClock(r.value) && HourOf(r.value) < 24)
    ensures r.Some? && strictMeridiem ==> r.value == "Work In" || IsTimeOfDay(r.value)
  {
    if c == "WORK IN" || c == "WORKIN" then Some("Work In")
    else if IsFourDigits(c) && ParseDigits(c[..2]) < 24 && ParseDigits(c[2..]) < 60 then
      ClockOfParts(c[..2], c[2..]);
      Some(c[..2] + ":" + c[2..])
    else
      var k := ColonWidth(c);
      if IsColonForm(c) && ParseDigits(c[..k]) < 24 && ParseDigits(c[k + 1..]) < 60 then
        ClockOfParts(Pad2(ParseDigits(c[..k])), c[k + 1..]);
        Some(Pad2(ParseDigits(c[..k])) + ":" + c[k + 1..])
      else if IsMeridiemForm(c) && Hour24(ParseDigits(c[..k]), c[|c| - 2..] == "PM") < 24
              && (!strictMeridiem || ParseDigits(c[k + 1..k + 3]) < 60) then
        var h := Hour24(ParseDigits(c[..k]), c[|c| - 2..] == "PM");
        ClockOfParts(Pad2(h), c[k + 1..k + 3]);
        Some(Pad2(h) + ":" + c[k + 1..k + 3])
      else if c in SlotNames then
        SlotNamesValues();
        Some(SlotNames[c])
      else None
  }

  function Normalize(time: string, strictMeridiem: bool): (r: Option<string>)
    ensures r.Some? ==> r.value == "Work In" || (IsClock(r.value) && HourOf(r.value) < 24)
    ensures r.Some? && strictMeridiem ==> r.value == "Work In" || IsTimeOfDay(r.value)
  {
    if time == "" then None else NormalizeCleaned(Cleaned(time), strictMeridiem)
  }

  /** `normalizeTime` as written: "" stands for a missing value, `None` for
      `null`. */
  function NormalizeTimeAsWritten(time: string): (r: Option<string>)
    ensures r.Some? ==> r.value == "Work In" || (IsClock(r.value) && HourOf(r.value) < 24)
  {
    Normalize(time, false)
  }

  /** `normalizeTime` with the AM/PM minutes checked like the colon form's, as
      the source evidently intends; the readers below use the one written. */
  function NormalizeTime(time: string): (r: Option<string>)
    ensures r.Some? ==> r.value == "Work In" || IsTimeOfDay(r.value)
  {
    Normalize(time, true)
  }

  /** Letter case does not matter: inputs that upper-case alike normalise alike. */
  lemma NormalizeIgnoresCase(s: string, t: string, strict: bool)
    requires ToUpper(s) == ToUpper(t)
    ensures Normalize(s, strict) == Normalize(t, strict)
  {
    TrimUpper(s);
    TrimUpper(t);
  }

  /** "WORK IN" and "WORKIN", in any letter case and with white space around,
      become "Work In". */
  lemma WorkIn(pre: string, w: string, post: string, strict: bool)
    requires AllWhitespace(pre) && AllWhitespace(post)
    requires ToUpper(w) == "WORK IN" || ToUpper(w) == "WORKIN"
    ensures Normalize(pre + w + post, strict) == Some("Work In")
  {
    assert UpperChar(w[0]) == 'W' && UpperChar(w[|w| - 1]) == 'N';
    TrimFramed(pre, w, post);
  }

  /** A string free of white space and lower-case letters is its own cleaned form. */
  lemma CleanedIsItself(s: string)
    requires s != [] && NoLowerCase(s)
    requires !IsWhitespace(s[0]) && !IsWhitespace(s[|s| - 1])
    ensures Cleaned(s) == s
  {
    TrimOfTrimmed(s);
    UpperUnchanged(s);
  }

  /** For text that is already clean, normalising is the cascade on the text. */
  lemma NormalizeClean(c: string, strict: bool)
    requires c != [] && Cleaned(c) == c
    ensures Normalize(c, strict) == NormalizeCleaned(c, strict)
  {
  }

  /** The cleaned text has a colon after its first one or two digits, so it is
      neither "Work In", nor four digits, nor a slot name. */
  lemma {:induction false} ColonRulesOnly(c: string, k: nat, strict: bool)
    requires HourColonAt(c, k)
    ensures ColonWidth(c) == k
    ensures NormalizeCleaned(c, strict) ==
      if IsColonForm(c) && ParseDigits(c[..k]) < 24 && ParseDigits(c[k + 1..]) < 60 then
        Some(Pad2(ParseDigits(c[..k])) + ":" + c[k + 1..])
      else if IsMeridiemForm(c) && Hour24(ParseDigits(c[..k]), c[|c| - 2..] == "PM") < 24
              && (!strict || ParseDigits(c[k + 1..k + 3]) < 60) then
        Some(Pad2(Hour24(ParseDigits(c[..k]), c[|c| - 2..] == "PM")) + ":" + c[k + 1..k + 3])
      else None
  {
    assert c != "WORK IN" && c != "WORKIN" by {
      assert "WORK IN"[1] != ':' && "WORK IN"[2] != ':' && "WORKIN"[1] != ':' && "WORKIN"[2] != ':';
    }
    assert !IsFourDigits(c) by { assert !IsDigit(c[k]); }
    if k == 2 { assert !HourColonAt(c, 1) by { assert IsDigit(c[..2][1]); } }
    ColonNotSlot(c, k);
  }

  /** Text with a colon is no slot name. */
  lemma ColonNotSlot(c: string, k: nat)
    requires k < |c| && c[k] == ':'
    ensures c !in SlotNames
  {
    SlotNamesShape();
    assert c[k] in c;
  }

  /** The colon rule decides "H:MM" and "HH:MM". */
  lemma ColonRule(c: string, k: nat, strict: bool)
    requires HourColonAt(c, k) && IsColonForm(c)
    ensures NormalizeCleaned(c, strict) ==
      if ParseDigits(c[..k]) < 24 && ParseDigits(c[k + 1..]) < 60 then
        Some(Pad2(ParseDigits(c[..k])) + ":" + c[k + 1..])
      else None
  {
    ColonRulesOnly(c, k, strict);
    assert !IsMeridiemForm(c);
  }

  /** The AM/PM rule decides "H:MM AM" and "H:MM PM". */
  lemma MeridiemRule(c: string, k: nat, strict: bool)
    requires HourColonAt(c, k) && IsMeridiemForm(c)
    ensures var h := Hour24(ParseDigits(c[..k]), c[|c| - 2..] == "PM");
      NormalizeCleaned(c, strict) ==
        if h < 24 && (!strict || ParseDigits(c[k + 1..k + 3]) < 60) then
          Some(Pad2(h) + ":" + c[k + 1..k + 3])
        else None
  {
    ColonRulesOnly(c, k, strict);
  }

  /** Four digits are clean and are no slot name. */
  lemma FourDigitsClean(s: string)
    requires IsFourDigits(s)
    ensures Cleaned(s) == s && s !in SlotNames
    ensures !HourColonAt(s, 1) && !HourColonAt(s, 2)
    ensures s != "WORK IN" && s != "WORKIN"
  {
    CleanedIsItself(s);
    SlotNamesShape();
    assert s[|s| - 1] != 'M';
    assert s[0] != 'W';
  }

  /** "HHMM" with the hour below 24 and the minute below 60 gains a colon;
      any other four digits give nothing. */
  lemma FourDigitTime(s: string, strict: bool)
    requires IsFourDigits(s)
    ensures Normalize(s, strict) ==
      if ParseDigits(s[..2]) < 24 && ParseDigits(s[2..]) < 60 then Some(s[..2] + ":" + s[2..]) else None
  {
    FourDigitsClean(s);
    NormalizeClean(s, strict);
  }

  /** "H:MM" or "HH:MM" as the colon pattern sees it. */
  lemma ColonParts(c: string, hd: string, md: string)
    requires 1 <= |hd| <= 2 && |md| == 2 && AllDigits(hd) && AllDigits(md)
    requires c == hd + ":" + md
    ensures HourColonAt(c, |hd|) && IsColonForm(c) && c[..|hd|] == hd && c[|hd| + 1..] == md
  {
    assert c[|hd|] == ':' && c[..|hd|] == hd && c[|hd| + 1..] == md;
  }

  lemma ColonCleaned(c: string, hd: string, md: string)
    requires 1 <= |hd| <= 2 && |md| == 2 && AllDigits(hd) && AllDigits(md)
    requires c == hd + ":" + md
    ensures Cleaned(c) == c
  {
    CleanedIsItself(c);
  }

  /** "H:MM" or "HH:MM" with the hour below 24 and the minute below 60 comes
      back with the hour padded to two digits; out of range it gives nothing. */
  lemma ColonTime(hd: string, md: string, strict: bool)
    requires 1 <= |hd| <= 2 && |md| == 2 && AllDigits(hd) && AllDigits(md)
    ensures Normalize(hd + ":" + md, strict) ==
      if ParseDigits(hd) < 24 && ParseDigits(md) < 60 then Some(Pad2(ParseDigits(hd)) + ":" + md) else None
  {
    var c := hd + ":" + md;
    ColonParts(c, hd, md);
    ColonCleaned(c, hd, md);
    ColonRule(c, |hd|, strict);
    NormalizeClean(c, strict);
  }

  /** The pieces of "H:MM AM" as the AM/PM pattern sees them. */
  lemma MeridiemParts(c: string, hd: string, md: string, w: string, mer: string)
    requires 1 <= |hd| <= 2 && |md| == 2 && AllDigits(hd) && AllDigits(md)
    requires AllWhitespace(w) && (mer == "AM" || mer == "PM")
    requires c == hd + ":" + md + w + mer
    ensures HourColonAt(c, |hd|) && IsMeridiemForm(c) && !IsColonForm(c)
    ensures c[..|hd|] == hd && c[|hd| + 1..|hd| + 3] == md && c[|c| - 2..] == mer
  {
    var k := |hd|;
    assert c[..k] == hd && c[k] == ':' && c[k + 1..k + 3] == md;
    assert c[k + 3..|c| - 2] == w && c[|c| - 2..] == mer;
  }

  /** "H:MM AM" is its own cleaned form. */
  lemma MeridiemCleaned(c: string, hd: string, md: string, w: string, mer: string)
    requires 1 <= |hd| <= 2 && |md| == 2 && AllDigits(hd) && AllDigits(md)
    requires AllWhitespace(w) && (mer == "AM" || mer == "PM")
    requires c == hd + ":" + md + w + mer
    ensures Cleaned(c) == c
  {
    var k := |hd|;
    assert NoLowerCase(c) by {
      forall i | 0 <= i < |c| ensures !('a' <= c[i] <= 'z') {
        if k + 3 <= i < |c| - 2 { assert c[i] == w[i - k - 3]; }
      }
    }
    CleanedIsItself(c);
  }

  /** "H:MM AM" and "H:MM PM" (any white space between, or none) become the
      24-hour reading when that hour is below 24, and nothing otherwise; the
      minutes are copied without a range check unless `strict` asks for one. */
  lemma MeridiemTime(c: string, hd: string, md: string, w: string, mer: string, strict: bool)
    requires 1 <= |hd| <= 2 && |md| == 2 && AllDigits(hd) && AllDigits(md)
    requires AllWhitespace(w) && (mer == "AM" || mer == "PM")
    requires c == hd + ":" + md + w + mer
    ensures var h := Hour24(ParseDigits(hd), mer == "PM");
      Normalize(c, strict) ==
        if h < 24 && (!strict || ParseDigits(md) < 60) then Some(Pad2(h) + ":" + md) else None
  {
    MeridiemCleaned(c, hd, md, w, mer);
    MeridiemValue(c, hd, md, w, mer, strict);
    NormalizeClean(c, strict);
  }

  lemma MeridiemValue(c: string, hd: string, md: string, w: string, mer: string, strict: bool)
    requires 1 <= |hd| <= 2 && |md| == 2 && AllDigits(hd) && AllDigits(md)
    requires AllWhitespace(w) && (mer == "AM" || mer == "PM")
    requires c == hd + ":" + md + w + mer
    ensures var h := Hour24(ParseDigits(hd), mer == "PM");
      NormalizeCleaned(c, strict) ==
        if h < 24 && (!strict || ParseDigits(md) < 60) then Some(Pad2(h) + ":" + md) else None
  {
    MeridiemParts(c, hd, md, w, mer);
    MeridiemRule(c, |hd|, strict);
  }

  /** Empty input gives nothing. */
  lemma EmptyTime()
    ensures NormalizeTime("") == None
  {
  }

  /** Normalising a real time of day gives it back. */
  lemma ClockStable(r: string, strict: bool)
    requires IsTimeOfDay(r)
    ensures Normalize(r, strict) == Some(r)
  {
    FormatClockOfParts(r);
    assert r == r[..2] + ":" + r[3..];
    TwoDigitValue(r[..2]);
    ColonTime(r[..2], r[3..], strict);
    Pad2OfTwoDigits(r[..2]);
  }

  /** Normalising a "Work In" or a real time of day gives it back. */
  lemma NormalizeStable(r: string, strict: bool)
    requires r == "Work In" || IsTimeOfDay(r)
    ensures Normalize(r, strict) == Some(r)
  {
    if r == "Work In" {
      WorkIn([], r, [], strict);
      assert [] + r + [] == r;
    } else {
      ClockStable(r, strict);
    }
  }

  /** As written, normalising a result again gives the same result only when
      its minute is a real minute (see `MeridiemMinutesUnchecked`). */
  lemma AsWrittenIdempotent(time: string)
    requires NormalizeTimeAsWritten(time).Some?
    requires var r := NormalizeTimeAsWritten(time).value; r == "Work In" || MinuteOf(r) < 60
    ensures NormalizeTimeAsWritten(NormalizeTimeAsWritten(time).value) == NormalizeTimeAsWritten(time)
  {
    NormalizeStable(NormalizeTimeAsWritten(time).value, false);
  }

  // ---- Finding: the AM/PM rule does not range-check the minutes ----

  /** As written: an AM/PM reading whose minutes are 60 or more, such as
      "8:75 AM", comes out as a clock string with that minute ("08:75"), while
      the colon rule refuses the same minutes ("8:75" gives nothing). */
  lemma MeridiemMinutesUnchecked(hd: string, md: string, mer: string)
    requires 1 <= |hd| <= 2 && |md| == 2 && AllDigits(hd) && AllDigits(md)
    requires mer == "AM" || mer == "PM"
    requires 1 <= ParseDigits(hd) <= 11 && ParseDigits(md) >= 60
    ensures var r := NormalizeTimeAsWritten(hd + ":" + md + " " + mer);
      r.Some? && IsClock(r.value) && MinuteOf(r.value) == ParseDigits(md) >= 60
    ensures NormalizeTimeAsWritten(hd + ":" + md) == None
  {
    MeridiemTime(hd + ":" + md + " " + mer, hd, md, " ", mer, false);
    var h := Hour24(ParseDigits(hd), mer == "PM");
    ClockOfParts(Pad2(h), md);
    ColonTime(hd, md, false);
  }

  /** With the minute check the AM/PM rule evidently intends, every result is
      "Work In" or a real time of day, and normalising is idempotent. */
  lemma NormalizeIdempotent(time: string)
    requires NormalizeTime(time).Some?
    ensures var r := NormalizeTime(time).value; r == "Work In" || IsTimeOfDay(r)
    ensures NormalizeTime(NormalizeTime(time).value) == NormalizeTime(time)
  {
    NormalizeStable(NormalizeTime(time).value, true);
  }

  /** ... and the AM/PM reading with minutes of 60 or more gives nothing, as
      the colon form does. */
  lemma MeridiemRefusesMinutes(hd: string, md: string, mer: string)
    requires 1 <= |hd| <= 2 && |md| == 2 && AllDigits(hd) && AllDigits(md)
    requires mer == "AM" || mer == "PM"
    requires ParseDigits(md) >= 60
    ensures NormalizeTime(hd + ":" + md + " " + mer) == None
  {
    MeridiemTime(hd + ":" + md + " " + mer, hd, md, " ", mer, true);
  }

  /** The intended normaliser is the written one with every result whose
      minute is 60 or more dropped: the two differ only on those inputs. */
  lemma StrictDropsBadMinutes(time: string)
    ensures NormalizeTime(time) ==
      var r := NormalizeTimeAsWritten(time);
      if r.Some? && (r.value == "Work In" || MinuteOf(r.value) < 60) then r else None
  {
    if time != "" {
      StrictCleanedDropsBadMinutes(Cleaned(time));
    }
  }

  lemma StrictCleanedDropsBadMinutes(c: string)
    ensures NormalizeCleaned(c, true) ==
      var r := NormalizeCleaned(c, false);
      if r.Some? && (r.value == "Work In" || MinuteOf(r.value) < 60) then r else None
  {
    var k := ColonWidth(c);
    if c == "WORK IN" || c == "WORKIN" {
    } else if IsFourDigits(c) && ParseDigits(c[..2]) < 24 && ParseDigits(c[2..]) < 60 {
      ClockOfParts(c[..2], c[2..]);
    } else if IsColonForm(c) && ParseDigits(c[..k]) < 24 && ParseDigits(c[k + 1..]) < 60 {
      ClockOfParts(Pad2(ParseDigits(c[..k])), c[k + 1..]);
    } else if IsMeridiemForm(c) && Hour24(ParseDigits(c[..k]), c[|c| - 2..] == "PM") < 24 {
      var h := Hour24(ParseDigits(c[..k]), c[|c| - 2..] == "PM");
      ClockOfParts(Pad2(h), c[k + 1..k + 3]);
      SlotNamesShape();
      assert c !in SlotNames by { assert c[k] == ':'; }
    } else if c in SlotNames {
      SlotNamesValues();
    }
  }

  /** Every slot name is upper case with no white space at either end. */
  lemma SlotNamesClean()
    ensures forall key | key in SlotNames :: NoLowerCase(key) && !IsWhitespace(key[0])
  {
    forall key | key in SlotNames
      ensures NoLowerCase(key) && !IsWhitespace(key[0])
    {
      if key == "6AM" || key == "7AM" || key == "8AM" || key == "9AM" || key == "930AM" {
        MorningKeysClean(key);
      } else if key == "10AM" || key == "1030AM" || key == "11AM" || key == "1230PM" || key == "1PM" {
        MiddayKeysClean(key);
      } else {
        AfternoonKeysClean(key);
      }
    }
  }

  lemma MorningKeysClean(key: string)
    requires key == "6AM" || key == "7AM" || key == "8AM" || key == "9AM" || key == "930AM"
    ensures NoLowerCase(key) && !IsWhitespace(key[0])
  {
  }

  lemma MiddayKeysClean(key: string)
    requires key == "10AM" || key == "1030AM" || key == "11AM" || key == "1230PM" || key == "1PM"
    ensures NoLowerCase(key) && !IsWhitespace(key[0])
  {
  }

  lemma AfternoonKeysClean(key: string)
    requires key == "130PM" || key == "2PM" || key == "230PM" || key == "3PM" || key == "330PM"
    ensures NoLowerCase(key) && !IsWhitespace(key[0])
  {
  }

  /** A slot name such as "930AM" becomes the time the slot table gives it
      ("09:30"): it has no colon and is not four digits, so only the slot
      table rule applies. */
  lemma SlotNameTime(key: string, strict: bool)
    requires key in SlotNames
    ensures Normalize(key, strict) == Some(SlotNames[key])
  {
    SlotKeyFacts(key);
    SlotKeyNormalize(key, strict);
  }

  lemma SlotKeyFacts(key: string)
    requires key in SlotNames
    ensures key != [] && ':' !in key && key[|key| - 1] == 'M'
    ensures NoLowerCase(key) && !IsWhitespace(key[0])
  {
    SlotNamesShape();
    SlotNamesClean();
  }

  /** Clean text with no colon that ends in "M" normalises by the slot table. */
  lemma SlotKeyNormalize(c: string, strict: bool)
    requires c != [] && ':' !in c && c[|c| - 1] == 'M'
    requires NoLowerCase(c) && !IsWhitespace(c[0])
    ensures Normalize(c, strict) == if c in SlotNames then Some(SlotNames[c]) else None
  {
    CleanedIsItself(c);
    SlotRuleOnly(c, strict);
  }

  /** Cleaned text with no colon that ends in "M" reaches the slot table rule. */
  lemma SlotRuleOnly(c: string, strict: bool)
    requires c != [] && ':' !in c && c[|c| - 1] == 'M'
    ensures NormalizeCleaned(c, strict) == if c in SlotNames then Some(SlotNames[c]) else None
  {
    var k := ColonWidth(c);
    assert !IsFourDigits(c) by { assert !IsDigit(c[|c| - 1]); }
    assert c != "WORK IN" && c != "WORKIN" by { assert "WORK IN"[6] == 'N' && "WORKIN"[5] == 'N'; }
  }

  /** Text that, once trimmed and upper-cased, matches none of the forms
      ("Work In", "HHMM", "H:MM", "H:MM AM", a slot name) gives nothing, and so
      does the empty text. */
  lemma NoFormIsNone(time: string, strict: bool)
    requires var c := Cleaned(time);
      && c != "WORK IN" && c != "WORKIN" && !IsFourDigits(c)
      && !IsColonForm(c) && !IsMeridiemForm(c) && c !in SlotNames
    ensures Normalize(time, strict) == None
    ensures Normalize("", strict) == None
  {
  }

  /** The pieces of "8:75 AM". */
  lemma EightSeventyFiveParts()
    ensures "8:75 AM" == "8" + ":" + "75" + " " + "AM"
    ensures ParseDigits("8") == 8 && ParseDigits("75") == 75
    ensures Pad2(8) + ":" + "75" == "08:75"
  {
    assert "8"[..0] == [] && "75"[..1] == "7";
    assert DigitChar(8) == '8';
  }

  /** As written, "8:75 AM" becomes "08:75"; the intended normaliser refuses it. */
  lemma EightSeventyFive()
    ensures NormalizeTimeAsWritten("8:75 AM") == Some("08:75")
    ensures NormalizeTime("8:75 AM") == None
  {
    EightSeventyFiveParts();
    MeridiemTime("8:75 AM", "8", "75", " ", "AM", false);
    MeridiemTime("8:75 AM", "8", "75", " ", "AM", true);
  }

  // ---- parseAppointments ----

  /** `^\d{4}-\d{2}-\d{2}$` */
  predicate IsIsoDate(s: string) {
    && |s| == 10 && s[4] == '-' && s[7] == '-'
    && AllDigits(s[..4]) && AllDigits(s[5..7]) && AllDigits(s[8..])
  }

  /** A line mentioning "appointment" or "date" in any letter case is a header. */
  predicate IsHeader(line: string) {
    Contains(ToLower(line), "appointment") || Contains(ToLower(line), "date")
  }

  /** `line.split(/[\t,|]/).map(p => p.trim())` */
  function Fields(line: string): (parts: seq<string>)
    ensures |parts| >= 1
    ensures forall i | 0 <= i < |parts| :: IsTrimmed(parts[i])
  {
    var raw := Split(line, {'\t', ',', '|'});
    seq(|raw|, i requires 0 <= i < |raw| => Trim(raw[i]))
  }

  /** `parts[i] || ''` */
  function FieldOr(parts: seq<string>, i: nat): (r: string)
    ensures i < |parts| ==> r == parts[i]
    ensures i >= |parts| ==> r == ""
  {
    if i < |parts| then parts[i] else ""
  }

  /** The fields after the fifth, joined with single spaces and trimmed. */
  function NotesOf(parts: seq<string>): (notes: string)
    ensures IsTrimmed(notes)
    ensures |parts| <= 5 ==> notes == ""
    ensures |parts| == 6 && IsTrimmed(parts[5]) ==> notes == parts[5]
  {
    if |parts| == 6 then
      assert parts[5..] == [parts[5]];
      TrimOfOne(parts[5]);
      Trim(Join(parts[5..], " "))
    else
      Trim(Join(if |parts| > 5 then parts[5..] else [], " "))
  }

  /** One trimmed field joined on its own is that field. */
  lemma TrimOfOne(p: string)
    ensures IsTrimmed(p) ==> Trim(Join([p], " ")) == p
  {
    if IsTrimmed(p) { TrimOfTrimmed(p); }
  }

  /** What one line of the file contributes: a record, or nothing. */
  function ParseLine(line: string): (r: Option<AppointmentInput>)
    ensures r.Some? <==>
      && !AllWhitespace(line) && !IsHeader(line)
      && |Fields(line)| >= 2 && IsIsoDate(Fields(line)[0])
      && NormalizeTimeAsWritten(Fields(line)[1]).Some?
    ensures r.Some? ==>
      && IsIsoDate(r.value.appointmentDate) && r.value.appointmentDate == Fields(line)[0]
      && Some(r.value.scheduledTime) == NormalizeTimeAsWritten(Fields(line)[1])
      && (r.value.scheduledTime == "Work In"
          || (IsClock(r.value.scheduledTime) && HourOf(r.value.scheduledTime) < 24))
      && IsTrimmed(r.value.salesOrder) && IsTrimmed(r.value.delivery)
      && IsTrimmed(r.value.carrier) && IsTrimmed(r.value.notes)
    ensures r.Some? ==>
      && r.value.salesOrder == FieldOr(Fields(line), 2) && r.value.delivery == FieldOr(Fields(line), 3)
      && r.value.carrier == FieldOr(Fields(line), 4) && r.value.notes == NotesOf(Fields(line))
  {
    if AllWhitespace(line) || IsHeader(line) then None
    else
      var parts := Fields(line);
      if |parts| < 2 || !IsIsoDate(parts[0]) then None
      else match NormalizeTimeAsWritten(parts[1])
        case None => None
        case Some(time) =>
          Some(AppointmentInput(parts[0], time, FieldOr(parts, 2), FieldOr(parts, 3),
                                FieldOr(parts, 4), NotesOf(parts)))
  }

  /** What each line contributes, line by line. */
  function ParseLines(lines: seq<string>): (r: seq<Option<AppointmentInput>>)
    ensures |r| == |lines|
  {
    seq(|lines|, i requires 0 <= i < |lines| => ParseLine(lines[i]))
  }

  lemma ParseLinesAppend(a: seq<string>, b: seq<string>)
    ensures ParseLines(a + b) == ParseLines(a) + ParseLines(b)
  {
    var l, r := ParseLines(a + b), ParseLines(a) + ParseLines(b);
    forall i | 0 <= i < |l| ensures l[i] == r[i] {
      if i < |a| { assert (a + b)[i] == a[i]; } else { assert (a + b)[i] == b[i - |a|]; }
    }
  }

  /** The records of the good lines, in line order. */
  function ParseAll(lines: seq<string>): (r: seq<AppointmentInput>)
    ensures |r| <= |lines|
  {
    Present(ParseLines(lines))
  }

  /** `.filter(line => line.trim())` */
  function NonBlank(lines: seq<string>): (r: seq<string>)
    ensures forall i | 0 <= i < |r| :: !AllWhitespace(r[i])
  {
    if lines == [] then []
    else
      var last := lines[|lines| - 1];
      NonBlank(lines[..|lines| - 1]) + (if AllWhitespace(last) then [] else [last])
  }

  /** `parseAppointments(text)`. */
  method ParseAppointments(text: string) returns (appointments: seq<AppointmentInput>)
    ensures appointments == ParseAll(NonBlank(Split(text, {'\n'})))
  {
    var lines := NonBlank(Split(text, {'\n'}));
    appointments := [];
    for i := 0 to |lines|
      invariant appointments == ParseAll(lines[..i])
    {
      var line := lines[i];
      assert lines[..i + 1] == lines[..i] + [line];
      ParseLinesAppend(lines[..i], [line]);
      PresentAppend(ParseLines(lines[..i]), ParseLines([line]));
      assert Present(ParseLines([line])) == if ParseLine(line).Some? then [ParseLine(line).value] else [] by {
        assert ParseLines([line]) == [ParseLine(line)];
        assert [ParseLine(line)][..0] == [];
      }
      if AllWhitespace(line) || IsHeader(line) {
        continue;
      }
      var parts := Fields(line);
      if |parts| < 2 {
        continue;
      }
      var date := parts[0];
      if !IsIsoDate(date) {
        continue;
      }
      var normalizedTime := NormalizeTimeAsWritten(parts[1]);
      if normalizedTime.None? {
        continue;
      }
      var appointment := AppointmentInput(date, normalizedTime.value, FieldOr(parts, 2),
                                          FieldOr(parts, 3), FieldOr(parts, 4), NotesOf(parts));
      appointments := appointments + [appointment];
    }
    assert lines[..|lines|] == lines;
  }

  /** Parsing a file is parsing its parts one after the other: lines keep their
      order and a bad line never stops the lines after it. */
  lemma ParseAllAppend(a: seq<string>, b: seq<string>)
    ensures ParseAll(a + b) == ParseAll(a) + ParseAll(b)
  {
    ParseLinesAppend(a, b);
    PresentAppend(ParseLines(a), ParseLines(b));
  }

  /** A record comes out exactly when some line parses to it. */
  lemma ParseAllMembers(lines: seq<string>, x: AppointmentInput)
    ensures x in ParseAll(lines) <==> exists i | 0 <= i < |lines| :: ParseLines(lines)[i] == Some(x)
  {
    PresentMembers(ParseLines(lines), x);
  }

  /** A blank line contributes nothing. */
  lemma BlankLineSkipped(line: string)
    requires AllWhitespace(line)
    ensures ParseAll([line]) == []
  {
    assert ParseLines([line]) == [ParseLine(line)];
    assert [ParseLine(line)][..0] == [];
  }

  /** Dropping blank lines first changes nothing. */
  lemma {:induction false} ParseAllNonBlank(lines: seq<string>)
    ensures ParseAll(NonBlank(lines)) == ParseAll(lines)
  {
    if lines != [] {
      var init := lines[..|lines| - 1];
      var last := lines[|lines| - 1];
      var kept := if AllWhitespace(last) then [] else [last];
      ParseAllNonBlank(init);
      assert init + [last] == lines;
      assert NonBlank(lines) == NonBlank(init) + kept;
      ParseAllAppend(init, [last]);
      ParseAllAppend(NonBlank(init), kept);
      KeptLine(last);
    }
  }

  /** Keeping a line only when it is not blank parses to the same records. */
  lemma KeptLine(line: string)
    ensures ParseAll(if AllWhitespace(line) then [] else [line]) == ParseAll([line])
  {
    if AllWhitespace(line) { BlankLineSkipped(line); }
  }


  /** Every record the parser emits carries a YYYY-MM-DD date, a time that is
      "Work In" or "HH:MM" with the hour below 24 (the minute is not checked,
      see `MeridiemMinutesUnchecked` and `JsonKeepsBadMinutes`) and trimmed fields. */
  lemma ParsedRecordsWellFormed(text: string, x: AppointmentInput)
    requires x in ParseAll(NonBlank(Split(text, {'\n'})))
    ensures IsIsoDate(x.appointmentDate)
    ensures x.scheduledTime == "Work In" || (IsClock(x.scheduledTime) && HourOf(x.scheduledTime) < 24)
    ensures IsTrimmed(x.salesOrder) && IsTrimmed(x.delivery) && IsTrimmed(x.carrier) && IsTrimmed(x.notes)
  {
    var lines := NonBlank(Split(text, {'\n'}));
    ParseAllMembers(lines, x);
    var i :| 0 <= i < |lines| && ParseLine(lines[i]) == Some(x);
  }

  // ---- parseAppointmentsJSON, per item ----

  /** One element of the uploaded JSON array; "" stands for an absent or
      falsy property. */
  datatype JsonItem = JsonItem(
    appointmentDate: string, date: string,
    scheduledTime: string, time: string,
    salesOrder: string, salesOrderCamel: string,
    delivery: string, deliveryNumber: string,
    carrier: string, notes: string)

  /** `a || b` on strings. */
  function Or(a: string, b: string): (r: string)
    ensures r == "" <==> a == "" && b == ""
  {
    if a != "" then a else b
  }

  /** The time an item without a usable one gets. */
  lemma DefaultTimeIsClock()
    ensures IsTimeOfDay("08:00") && HourOf("08:00") == 8 && MinuteOf("08:00") == 0
  {
    ClockOfParts("08", "00");
    TwoDigitValue("08");
    TwoDigitValue("00");
  }

  /** The record built from one JSON item. */
  function MapItem(item: JsonItem): (a: AppointmentInput)
    ensures a.appointmentDate == Or(item.appointmentDate, item.date)
    ensures a.scheduledTime == NormalizeTimeAsWritten(Or(item.scheduledTime, item.time)).GetOr("08:00")
    ensures a.scheduledTime == "Work In" || (IsClock(a.scheduledTime) && HourOf(a.scheduledTime) < 24)
    ensures a.salesOrder == Or(item.salesOrder, item.salesOrderCamel)
    ensures a.delivery == Or(item.delivery, item.deliveryNumber)
    ensures a.carrier == item.carrier && a.notes == item.notes
  {
    DefaultTimeIsClock();
    AppointmentInput(
      Or(item.appointmentDate, item.date),
      NormalizeTimeAsWritten(Or(item.scheduledTime, item.time)).GetOr("08:00"),
      Or(item.salesOrder, item.salesOrderCamel),
      Or(item.delivery, item.deliveryNumber),
      Or(item.carrier, ""),
      Or(item.notes, ""))
  }

  /** `parseAppointmentsJSON`: `None` stands for text that is not JSON or not
      an array, both of which give the empty list. */
  function ParseAppointmentsJson(data: Option<seq<JsonItem>>): (r: seq<AppointmentInput>)
    ensures data.None? ==> r == []
    ensures data.Some? ==> |r| == |data.value|
    ensures data.Some? ==> forall i | 0 <= i < |r| :: r[i] == MapItem(data.value[i])
  {
    match data
    case None => []
    case Some(items) => seq(|items|, i requires 0 <= i < |items| => MapItem(items[i]))
  }

  // ---- validateAppointment ----

  const DateRequired := "Appointment date is required"
  const DateMalformed := "Invalid date format (expected YYYY-MM-DD)"
  const TimeRequired := "Scheduled time is required"
  const ReferenceRequired := "Either sales order or delivery number is required"

  /** A record the validator accepts. */
  predicate IsValid(a: AppointmentInput) {
    a.appointmentDate != "" && IsIsoDate(a.appointmentDate) && a.scheduledTime != ""
    && (a.salesOrder != "" || a.delivery != "")
  }

  /** `validateAppointment`: one message per failed rule, in rule order. */
  method ValidateAppointment(a: AppointmentInput) returns (errors: seq<string>)
    ensures errors == [] <==> IsValid(a)
    ensures DateRequired in errors <==> a.appointmentDate == ""
    ensures DateMalformed in errors <==> a.appointmentDate != "" && !IsIsoDate(a.appointmentDate)
    ensures TimeRequired in errors <==> a.scheduledTime == ""
    ensures ReferenceRequired in errors <==> a.salesOrder == "" && a.delivery == ""
    ensures |errors| <= 3
  {
    errors := [];
    if a.appointmentDate == "" {
      errors := errors + [DateRequired];
    } else if !IsIsoDate(a.appointmentDate) {
      errors := errors + [DateMalformed];
    }
    if a.scheduledTime == "" {
      errors := errors + [TimeRequired];
    }
    if a.salesOrder == "" && a.delivery == "" {
      errors := errors + [ReferenceRequired];
    }
  }

  /** A record read from a text file passes validation exactly when it names a
      sales order or a delivery: its date and time always pass. */
  lemma ParsedValidIffReference(text: string, x: AppointmentInput)
    requires x in ParseAll(NonBlank(Split(text, {'\n'})))
    ensures IsValid(x) <==> x.salesOrder != "" || x.delivery != ""
  {
    ParsedRecordsWellFormed(text, x);
  }

  /** As written, a JSON item timed "8:75 AM" is stored at "08:75", not at the
      08:00 fallback an unreadable time gets. */
  lemma JsonKeepsBadMinutes(item: JsonItem)
    requires item.scheduledTime == "8:75 AM"
    ensures MapItem(item).scheduledTime == "08:75"
  {
    EightSeventyFive();
  }

  /** A record from the JSON reader never fails for want of a time, because an
      unreadable time becomes 08:00. */
  lemma JsonTimeNeverMissing(item: JsonItem)
    ensures MapItem(item).scheduledTime != ""
  {
  }
}
