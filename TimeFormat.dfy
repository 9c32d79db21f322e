/**
 * The clock helpers of utils/exractSchedule.js: compact-digit parsing, hour/minute validation,
 * 24-hour to 12-hour rendering, compact-range normalisation and the sort key
 * `convertTimeToMinutes`, together with the canonical `H:MM AM|PM` form they produce.
 */
module TimeFormat {
  import opened Wrappers
  import opened JsText
  import opened Patterns

  /** The `{ h24, m }` object of `parseCompactDigitsToHM`. */
  datatype HM = HM(h24: int, m: int)

  /** `n % d` in JavaScript: the remainder takes the sign of the dividend. */
  function TruncRem(n: int, d: int): int
    requires d > 0
  {
    if n >= 0 then n % d else -((-n) % d)
  }

  /** `parseCompactDigitsToHM`: `"930"` is 9:30, `"1210"` is 12:10; `None` unless the hour is 0..23 and the minute 0..59. */
  function ParseCompactDigitsToHM(digits: string): (r: Option<HM>)
    ensures r.Some? ==> 0 <= r.value.h24 <= 23 && 0 <= r.value.m <= 59
  {
    match ParseInt(digits, false)
    case None => None
    case Some(n) =>
      var h := n / 100;  // Math.floor(n / 100): Dafny's division by a positive divisor rounds down
      var m := TruncRem(n, 100);
      if m >= 60 || h > 23 || h < 0 then None else Some(HM(h, m))
  }

  /** `isValidHM(hr, min, { format })`; `None` is `NaN`, which is not an integer. */
  predicate IsValidHM(hr: Option<int>, min: Option<int>, twelveHour: bool) {
    hr.Some? && min.Some? && 0 <= min.value <= 59
    && (if twelveHour then 1 <= hr.value <= 12 else 0 <= hr.value <= 23)
  }

  /** `toAmPm`. */
  function ToAmPm(h24: int, m: int): string {
    var hours := if h24 == 0 then 12 else if h24 > 12 then h24 - 12 else h24;
    var ampm := if h24 == 0 then "AM" else if h24 >= 12 then "PM" else "AM";
    IntToDecimal(hours) + ":" + PadTwo(IntToDecimal(m)) + " " + ampm
  }

  /** `normalizeDigitsRange`. */
  function NormalizeDigitsRange(a: string, b: string): Option<string> {
    var start := ParseCompactDigitsToHM(a);
    var end := ParseCompactDigitsToHM(b);
    if start.None? || end.None? then None
    else
      var startMins := start.value.h24 * 60 + start.value.m;
      var endMins := end.value.h24 * 60 + end.value.m;
      if endMins <= startMins then None
      else
        var dur := endMins - startMins;
        if dur < 15 || dur > 360 then None
        else Some(ToAmPm(start.value.h24, start.value.m) + " - " + ToAmPm(end.value.h24, end.value.m))
  }

  /** `convertTimeToMinutes`: the sort key of a schedule entry, read from the text before the first `-`. */
  function ConvertTimeToMinutes(timeStr: string): int {
    var start := Trim(BeforeFirst(timeStr, '-'));
    match FirstMatch(ClockMeridiem, start)
    case Some(ap) => MeridiemMinutes(ap)
    case None =>
      match FirstMatch(Clock, start)
      case Some(noap) => PlainMinutes(noap)
      case None => 0
  }

  /** The `h:mm AM|PM` branch of `convertTimeToMinutes` (12 AM is hour 0, a PM hour other than 12 gains 12). */
  function MeridiemMinutes(ap: Match): int {
    // the captures are digit strings, so parseInt(_, 10) is their decimal value
    MeridiemHour(ap) * 60 + DigitsValue(Cap(ap, 1))
  }

  /** The 24-hour hour of an `h:mm AM|PM` match: 12 AM is hour 0, and a PM hour other than 12 gains 12. */
  function MeridiemHour(ap: Match): int {
    var h := DigitsValue(Cap(ap, 0));
    var ampm := Upper(Cap(ap, 2));
    var h1 := if ampm == "PM" && h != 12 then h + 12 else h;
    if ampm == "AM" && h1 == 12 then 0 else h1
  }

  /** The match the `h:mm AM|PM` pattern makes of the whole canonical text of `c`. */
  function ClockMatch(c: ClockTime): Match {
    Match(0, |c.Text()|, [NatToDecimal(c.hour), PadTwo(NatToDecimal(c.minute)), if c.pm then "PM" else "AM"])
  }

  /** The `h:mm` branch of `convertTimeToMinutes` (an hour above 23 counts as 0). */
  function PlainMinutes(noap: Match): int {
    var h := DigitsValue(Cap(noap, 0));
    var m := DigitsValue(Cap(noap, 1));
    (if h > 23 then 0 else h) * 60 + m
  }

  /** A 12-hour clock reading as the extractor writes it: `H:MM AM` or `H:MM PM`. */
  datatype ClockTime = ClockTime(hour: nat, minute: nat, pm: bool) {

    predicate Valid() {
      1 <= hour <= 12 && minute <= 59
    }

    function Text(): string {
      NatToDecimal(hour) + ":" + PadTwo(NatToDecimal(minute)) + " " + (if pm then "PM" else "AM")
    }

    /** Minutes after midnight: 12 AM is hour 0 and 12 PM is hour 12. */
    function Minutes(): nat {
      ((hour % 12) + (if pm then 12 else 0)) * 60 + minute
    }
  }

  /** The reading of a 24-hour time on a 12-hour clock. */
  function ClockOf(h24: nat, m: nat): (c: ClockTime)
    requires h24 <= 23 && m <= 59
    ensures c.Valid() && c.Minutes() == h24 * 60 + m
  {
    ClockTime(if h24 == 0 then 12 else if h24 > 12 then h24 - 12 else h24, m, h24 >= 12)
  }

  /** A time of day in the canonical form. */
  ghost predicate IsClockText(t: string) {
    exists c: ClockTime :: c.Valid() && t == c.Text()
  }

  /** A range of two canonical times, 15 minutes to 6 hours long. */
  ghost predicate IsRangeText(t: string) {
    exists c1: ClockTime, c2: ClockTime ::
      c1.Valid() && c2.Valid() && t == c1.Text() + " - " + c2.Text()
      && 15 <= c2.Minutes() - c1.Minutes() <= 360
  }

  /** Every time string the extractor emits has one of the two canonical forms. */
  ghost predicate IsCanonicalTime(t: string) {
    IsClockText(t) || IsRangeText(t)
  }

  /** `toAmPm` writes the 12-hour reading of a valid 24-hour time, which stands for the same minute of the day. */
  lemma ToAmPmIsClock(h24: nat, m: nat)
    requires h24 <= 23 && m <= 59
    ensures ToAmPm(h24, m) == ClockOf(h24, m).Text()
  {
  }

  /** The characters of a canonical time: digits, `:`, a space and the meridiem letters, never `-`. */
  lemma ClockTextLayout(c: ClockTime)
    requires c.Valid()
    ensures var t := c.Text(); var n := |NatToDecimal(c.hour)|;
      && (n == 1 || n == 2) && |t| == n + 6
      && t[..n] == NatToDecimal(c.hour) && t[n] == ':' && t[n + 1..n + 3] == PadTwo(NatToDecimal(c.minute))
      && t[n + 3] == ' ' && t[n + 4..] == (if c.pm then "PM" else "AM")
      && AllDigits(t[..n]) && AllDigits(t[n + 1..n + 3])
      && '-' !in t && !IsSpace(t[0]) && !IsSpace(t[|t| - 1])
  {
    var t := c.Text();
    var n := |NatToDecimal(c.hour)|;
    TwoDigitMinute(c.minute);
    assert forall i :: 0 <= i < n ==> t[i] == NatToDecimal(c.hour)[i];
    assert t[n + 1..n + 3] == PadTwo(NatToDecimal(c.minute));
    assert forall i :: 0 <= i < |t| ==> t[i] != '-' by {
      forall i | 0 <= i < |t|
        ensures t[i] != '-'
      {
        if i < n {
          assert IsDigit(NatToDecimal(c.hour)[i]);
        } else if n + 1 <= i < n + 3 {
          assert IsDigit(t[n + 1..n + 3][i - n - 1]);
        }
      }
    }
    assert IsDigit(t[0]);
  }

  /** The `(\d{1,2}):(\d{2})\s*(AM|PM)` search finds the whole canonical text, with its hour, minute and meridiem as captures. */
  lemma ClockTextMatch(c: ClockTime)
    requires c.Valid()
    ensures FirstMatch(ClockMeridiem, c.Text()) == Some(ClockMatch(c))
  {
    ClockTextLayout(c);
    ClockShapeMatch(c.Text(), |NatToDecimal(c.hour)|);
  }

  /** `h:mm AM` or `hh:mm PM` laid out exactly is one whole `(\d{1,2}):(\d{2})\s*(AM|PM)` match. */
  lemma ClockShapeMatch(t: string, n: nat)
    requires (n == 1 || n == 2) && |t| == n + 6
    requires AllDigits(t[..n]) && t[n] == ':' && AllDigits(t[n + 1..n + 3]) && t[n + 3] == ' '
    requires t[n + 4..] == "AM" || t[n + 4..] == "PM"
    ensures MatchAt(ClockMeridiem, t, 0) == Some(Match(0, |t|, [t[..n], t[n + 1..n + 3], t[n + 4..]]))
  {
    if n == 2 {
      assert t[0] == t[..n][0] && t[1] == t[..n][1];
      assert DigitAt(t, 0) && DigitAt(t, 1) && t[2] == ':';
      assert HourThen(t, 0, Colon) == Some(2);
    } else {
      assert t[0] == t[..n][0];
      assert DigitAt(t, 0) && t[1] == ':';
      assert HourThen(t, 0, Colon) == Some(1);
    }
    assert DigitsAt(t, n + 1, 2) by {
      assert t[n + 1] == t[n + 1..n + 3][0] && t[n + 2] == t[n + 1..n + 3][1];
    }
    assert SkipSpaces(t, n + 4) == n + 4;
    assert SkipSpaces(t, n + 3) == n + 4;
    assert t[n + 4..n + 6] == t[n + 4..];
    assert t[n + 4] == t[n + 4..][0] && t[n + 5] == t[n + 4..][1];
    assert (t[n + 4] == 'A' || t[n + 4] == 'P') && t[n + 5] == 'M';
    assert MeridiemAt(t, n + 4);
  }

  /** The sort key of a canonical time is the minute of the day it stands for. */
  lemma ConvertClockText(c: ClockTime)
    requires c.Valid()
    ensures ConvertTimeToMinutes(c.Text()) == c.Minutes()
    ensures FirstMatch(ClockMeridiem, Trim(BeforeFirst(c.Text(), '-'))) == Some(ClockMatch(c))
  {
    var t := c.Text();
    ClockTextLayout(c);
    BeforeFirstAbsent(t, '-');
    TrimNoop(t);
    ClockTextMatch(c);
    MeridiemCaptures(c);
  }

  /** The `h:mm AM|PM` branch reads the captures of a canonical time as the minute of the day it stands for. */
  lemma MeridiemCaptures(c: ClockTime)
    requires c.Valid()
    ensures MeridiemHour(ClockMatch(c)) == c.hour % 12 + (if c.pm then 12 else 0)
    ensures DigitsValue(Cap(ClockMatch(c), 1)) == c.minute
    ensures MeridiemMinutes(ClockMatch(c)) == c.Minutes()
  {
    DecimalRoundTrip(c.hour);
    TwoDigitMinute(c.minute);
    var mer := if c.pm then "PM" else "AM";
    assert Upper(mer)[0] == mer[0] && Upper(mer)[1] == mer[1];
    assert Upper(mer) == mer;
    if c.hour == 12 {
      assert c.hour % 12 == 0;
    } else {
      assert c.hour % 12 == c.hour;
    }
  }

  /** Trimming one trailing space off a canonical time gives the time back. */
  lemma TrimClockSpace(c: ClockTime)
    requires c.Valid()
    ensures Trim(c.Text() + " ") == c.Text()
  {
    var t := c.Text();
    ClockTextLayout(c);
    var u := t + " ";
    assert u[0] == t[0] && u[|t| - 1] == t[|t| - 1];
    assert SkipWhitespace(u, 0) == 0;
    assert DropTrailing(u, |u|) == DropTrailing(u, |t|) == |t|;
    assert u[0..|t|] == t;
  }

  /** The sort key of a canonical range is the minute of the day its start stands for. */
  lemma ConvertRangeText(c1: ClockTime, c2: ClockTime)
    requires c1.Valid() && c2.Valid()
    ensures ConvertTimeToMinutes(c1.Text() + " - " + c2.Text()) == c1.Minutes()
    ensures FirstMatch(ClockMeridiem, Trim(BeforeFirst(c1.Text() + " - " + c2.Text(), '-'))) == Some(ClockMatch(c1))
  {
    var t := c1.Text() + " - " + c2.Text();
    var before := c1.Text() + " ";
    ClockTextLayout(c1);
    assert '-' !in before;
    assert t == before + ['-'] + (" " + c2.Text());
    BeforeFirstConcat(before, '-', " " + c2.Text());
    TrimClockSpace(c1);
    assert Trim(BeforeFirst(t, '-')) == c1.Text();
    ClockTextMatch(c1);
    MeridiemCaptures(c1);
  }

  /** Sorting by `convertTimeToMinutes` orders canonical times by the minute of the day they start at. */
  lemma ConvertCanonicalStart(t: string) returns (c: ClockTime)
    requires IsCanonicalTime(t)
    ensures c.Valid() && ConvertTimeToMinutes(t) == c.Minutes()
    ensures FirstMatch(ClockMeridiem, Trim(BeforeFirst(t, '-'))) == Some(ClockMatch(c))
    ensures t == c.Text() || exists c2: ClockTime :: c2.Valid() && t == c.Text() + " - " + c2.Text()
  {
    if IsClockText(t) {
      c :| c.Valid() && t == c.Text();
      ConvertClockText(c);
    } else {
      var c2: ClockTime;
      c, c2 :| c.Valid() && c2.Valid() && t == c.Text() + " - " + c2.Text() && 15 <= c2.Minutes() - c.Minutes() <= 360;
      ConvertRangeText(c, c2);
    }
  }

  /** `toAmPm` round trip: the sort key of its output is the minute of the day it was given. */
  lemma ToAmPmRoundTrip(h24: nat, m: nat)
    requires h24 <= 23 && m <= 59
    ensures ConvertTimeToMinutes(ToAmPm(h24, m)) == h24 * 60 + m
  {
    ToAmPmIsClock(h24, m);
    ConvertClockText(ClockOf(h24, m));
  }

  /** Writing a 24-hour time as compact digits (`h * 100 + m`) and parsing it back gives the time. */
  lemma CompactDigitsRoundTrip(h24: nat, m: nat)
    requires h24 <= 23 && m <= 59
    ensures ParseCompactDigitsToHM(NatToDecimal(h24 * 100 + m)) == Some(HM(h24, m))
  {
    ParseIntOfDecimal(h24 * 100 + m, false);
    assert (h24 * 100 + m) / 100 == h24;
    assert (h24 * 100 + m) % 100 == m;
  }

  /** Compact digits are read as hour `n / 100` and minute `n % 100`, and accepted exactly when both are in range. */
  lemma CompactDigitsMeaning(digits: string)
    requires digits != [] && AllDigits(digits)
    ensures var n := DigitsValue(digits);
      ParseCompactDigitsToHM(digits) == if n % 100 <= 59 && n / 100 <= 23 then Some(HM(n / 100, n % 100)) else None
  {
    ParseIntOfDigits(digits, false);
  }

  /** A normalised compact range is a canonical range: two valid clock times, 15 minutes to 6 hours apart. */
  lemma NormalizeDigitsRangeIsRange(a: string, b: string)
    requires NormalizeDigitsRange(a, b).Some?
    ensures IsRangeText(NormalizeDigitsRange(a, b).value)
  {
    var start := ParseCompactDigitsToHM(a).value;
    var end := ParseCompactDigitsToHM(b).value;
    var c1 := ClockOf(start.h24, start.m);
    var c2 := ClockOf(end.h24, end.m);
    ToAmPmIsClock(start.h24, start.m);
    ToAmPmIsClock(end.h24, end.m);
    assert NormalizeDigitsRange(a, b).value == c1.Text() + " - " + c2.Text();
  }

  /**
   * `normalizeDigitsRange` accepts exactly when both ends parse as valid times and the end
   * comes 15 minutes to 6 hours after the start, and then writes the two times' 12-hour readings.
   */
  lemma NormalizeDigitsRangeMeaning(a: string, b: string)
    ensures var start := ParseCompactDigitsToHM(a); var end := ParseCompactDigitsToHM(b);
      NormalizeDigitsRange(a, b).Some?
      <==> start.Some? && end.Some?
           && 15 <= (end.value.h24 * 60 + end.value.m) - (start.value.h24 * 60 + start.value.m) <= 360
    ensures NormalizeDigitsRange(a, b).Some? ==>
      var start := ParseCompactDigitsToHM(a).value; var end := ParseCompactDigitsToHM(b).value;
      NormalizeDigitsRange(a, b).value
        == ClockOf(start.h24, start.m).Text() + " - " + ClockOf(end.h24, end.m).Text()
  {
    if NormalizeDigitsRange(a, b).Some? {
      var start := ParseCompactDigitsToHM(a).value;
      var end := ParseCompactDigitsToHM(b).value;
      ToAmPmIsClock(start.h24, start.m);
      ToAmPmIsClock(end.h24, end.m);
    }
  }

  /** A compact range whose end is not after its start is dropped (OCR noise such as `1538-1025`). */
  lemma NormalizeRejectsBackwards(a: string, b: string)
    requires ParseCompactDigitsToHM(a).Some? && ParseCompactDigitsToHM(b).Some?
    requires var s := ParseCompactDigitsToHM(a).value; var e := ParseCompactDigitsToHM(b).value;
      e.h24 * 60 + e.m <= s.h24 * 60 + s.m
    ensures NormalizeDigitsRange(a, b).None?
  {
  }
}
