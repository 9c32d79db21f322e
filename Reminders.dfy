/**
 * The per-minute reminder tick of bot/reminder.js: reading a class's start minute
 * (`convertStartToMinutes`), matching its day against today (`dayMatchesToday`), and the body the
 * tick runs for each stored user, which sends the class notifications due now, sends the one-off
 * reminders due in the last minute and writes back the reminders still pending.
 *
 * The clock (`now` in milliseconds, the minute of the day, the weekday), the lead time, the
 * self-bot settings and the parsing of `dueAt` by `new Date` are parameters; a sent message is an
 * element of the result.
 */
module Reminders {
  import opened Wrappers
  import opened JsText
  import opened Patterns
  import opened TimeFormat
  import opened Sequences
  import opened Json
  import opened MockFirestore
  import ScheduleExtraction

  // ---------------------------------------------------------------- convertStartToMinutes

  /**
   * `convertStartToMinutes`: the minute of the day at which `h:mm AM|PM` before the first `-`
   * starts; `None` (`null`) for a falsy value, text without that shape, or an hour or minute out
   * of range once 12 AM has become 0 and a PM hour has gained 12.
   */
  function ConvertStartToMinutes(timeStr: Json): Option<int> {
    if !Truthy(timeStr) then None
    else
      match FirstMatch(ClockMeridiem, StartText(timeStr))
      case None => None
      case Some(m) => MinuteOfMatch(m)
  }

  /** `String(timeStr).split('-')[0].trim()`. */
  function StartText(timeStr: Json): string {
    Trim(BeforeFirst(ValueText(timeStr), '-'))
  }

  /** The minute of the day an `h:mm AM|PM` match stands for, unless its hour or minute is out of range. */
  function MinuteOfMatch(m: Match): Option<int> {
    var h := MeridiemHour(m);
    var min := DigitsValue(Cap(m, 1));
    if min < 0 || min > 59 || h < 0 || h > 23 then None else Some(h * 60 + min)
  }

  /** A start minute, when there is one, is a minute of the day. */
  lemma StartMinutesInDay(timeStr: Json)
    requires ConvertStartToMinutes(timeStr).Some?
    ensures 0 <= ConvertStartToMinutes(timeStr).value <= 24 * 60 - 1
  {
  }

  /**
   * On the times the schedule extractor writes, the tick reads the same start minute the
   * extractor sorts by, which is the minute of the day of the time's own start.
   */
  lemma CanonicalStartMinutes(t: string) returns (c: ClockTime)
    requires IsCanonicalTime(t)
    ensures c.Valid()
    ensures ConvertStartToMinutes(JStr(t)) == Some(c.Minutes())
    ensures ConvertStartToMinutes(JStr(t)) == Some(ConvertTimeToMinutes(t))
  {
    c := ConvertCanonicalStart(t);
    CanonicalNotEmpty(t, c);
    StartTextOfString(t);
    StartOfMatch(JStr(t), Trim(BeforeFirst(t, '-')), ClockMatch(c));
    ClockMatchMinutes(c);
  }

  /** The start text of a string value is the trimmed text before its first `-`. */
  lemma StartTextOfString(t: string)
    ensures StartText(JStr(t)) == Trim(BeforeFirst(t, '-'))
  {
  }

  /** When the start text matches `h:mm AM|PM`, the start minute is read from that match. */
  lemma StartOfMatch(timeStr: Json, start: string, m: Match)
    requires Truthy(timeStr) && StartText(timeStr) == start && FirstMatch(ClockMeridiem, start) == Some(m)
    ensures ConvertStartToMinutes(timeStr) == MinuteOfMatch(m)
  {
  }

  /** The match of a canonical time stands for its minute of the day. */
  lemma ClockMatchMinutes(c: ClockTime)
    requires c.Valid()
    ensures MinuteOfMatch(ClockMatch(c)) == Some(c.Minutes())
  {
    MeridiemCaptures(c);
  }

  lemma CanonicalNotEmpty(t: string, c: ClockTime)
    requires c.Valid()
    requires t == c.Text() || exists c2: ClockTime :: c2.Valid() && t == c.Text() + " - " + c2.Text()
    ensures t != []
  {
    ClockTextLayout(c);
    if t != c.Text() {
      var c2: ClockTime :| c2.Valid() && t == c.Text() + " - " + c2.Text();
      assert |t| >= |c.Text()|;
    }
  }

  /** The start minute of a canonical `h:mm AM|PM` time is the minute of the day it stands for. */
  lemma ClockStartMinutes(c: ClockTime)
    requires c.Valid()
    ensures ConvertStartToMinutes(JStr(c.Text())) == Some(c.Minutes())
  {
    assert IsCanonicalTime(c.Text());
    var c1 := CanonicalStartMinutes(c.Text());
    ConvertClockText(c);
  }

  /** Midnight and noon: `12:00 AM` starts at minute 0 and `12:00 PM` at minute 720. */
  lemma TwelveOClock()
    ensures ConvertStartToMinutes(JStr("12:00 AM")) == Some(0)
    ensures ConvertStartToMinutes(JStr("12:00 PM")) == Some(12 * 60)
  {
    var midnight := ClockTime(12, 0, false);
    var noon := ClockTime(12, 0, true);
    assert NatToDecimal(12) == "12" && PadTwo(NatToDecimal(0)) == "00";
    assert midnight.Text() == "12:00 AM" && noon.Text() == "12:00 PM";
    ClockStartMinutes(midnight);
    ClockStartMinutes(noon);
  }

  // ---------------------------------------------------------------- dayMatchesToday

  /** `names`, indexed by `getDay()` (0 is Sunday). */
  const WeekdayNames: seq<string> := ["Sun", "Mon", "Tue", "Wed", "Thu", "Fri", "Sat"]

  /** The keys of the `two` table, indexed by their weekday; the lookup is case-sensitive. */
  const TwoLetterNames: seq<string> := ["Su", "Mo", "Tu", "We", "Th", "Fr", "Sa"]

  /** The weekday names in lower case, which is how the extractor's day patterns spell them. */
  const LowerWeekdayNames: seq<string> := ["sun", "mon", "tue", "wed", "thu", "fri", "sat"]

  /** `two[d2]`: the weekday of a two-letter form, `None` for any other key. */
  function TwoLetterDay(d2: string): Option<int> {
    var i := FirstIndex(TwoLetterNames, d2);
    if i >= 0 then Some(i) else None
  }

  /**
   * `dayMatchesToday(day)` on weekday `todayIdx`: no day, a blank day and `daily` in any case
   * match every day; otherwise the first three letters, capitalised, are looked up among the
   * weekday names, and failing that the first two letters, exactly as written, among the
   * two-letter forms.
   */
  function DayMatchesToday(day: Option<Json>, todayIdx: nat): bool {
    !Present(day) || TrimmedDayMatches(Trim(ValueText(day.value)), todayIdx)
  }

  /** The test on the trimmed day text `d`. */
  function TrimmedDayMatches(d: string, todayIdx: nat): bool {
    if d == [] || Lower(d) == "daily" then true
    else
      var up := [UpperChar(d[0])] + Lower(Slice(d, 1, 3));
      if FirstIndex(WeekdayNames, up) == todayIdx then true
      else
        match TwoLetterDay(Slice(d, 0, 2))
        case Some(k) => k == todayIdx
        case None => false
  }

  /** A non-empty day string is tested on its trim. */
  lemma DayMatchesAsWritten(d: string, todayIdx: nat)
    requires d != []
    ensures DayMatchesToday(Some(JStr(d)), todayIdx) == TrimmedDayMatches(Trim(d), todayIdx)
  {
    assert Present(Some(JStr(d)));
  }

  /** A missing, blank or `daily` day (in any case) matches every weekday. */
  lemma DailyMatchesEveryDay(day: Option<Json>, todayIdx: nat)
    requires !Present(day) || Trim(ValueText(day.value)) == [] || Lower(Trim(ValueText(day.value))) == "daily"
    ensures DayMatchesToday(day, todayIdx)
  {
  }

  /** The weekday names are distinct three-letter words; the two-letter forms are their first two letters, also distinct. */
  lemma WeekdayTables()
    ensures |WeekdayNames| == 7 && |TwoLetterNames| == 7
    ensures forall k :: 0 <= k < 7 ==> |WeekdayNames[k]| == 3 && TwoLetterNames[k] == WeekdayNames[k][..2]
    ensures NoDuplicates(WeekdayNames) && NoDuplicates(TwoLetterNames)
    ensures forall k :: 0 <= k < 7 ==> 'A' <= WeekdayNames[k][0] <= 'Z' && 'a' <= WeekdayNames[k][1] <= 'z' && 'a' <= WeekdayNames[k][2] <= 'z'
  {
  }

  /** In a sequence without duplicates, the first index of an element is its index. */
  lemma FirstIndexOfDistinct<T>(s: seq<T>, k: nat)
    requires NoDuplicates(s) && k < |s|
    ensures FirstIndex(s, s[k]) == k
  {
  }

  /** A word of another length than every element is at no index. */
  lemma FirstIndexOfOtherLength(s: seq<string>, x: string, n: nat)
    requires |x| != n && forall i :: 0 <= i < |s| ==> |s[i]| == n
    ensures FirstIndex(s, x) == -1
  {
  }

  /**
   * A day whose first three letters spell a weekday name, in any mix of case, matches that
   * weekday and no other: a full name such as `monday` or `MONDAY`, or a three-letter form.
   */
  lemma NameMatchesItsWeekday(d: string, k: nat, todayIdx: nat)
    requires k < 7 && |d| >= 3 && Trim(d) == d
    requires Lower(d[..3]) == Lower(WeekdayNames[k])
    ensures DayMatchesToday(Some(JStr(d)), todayIdx) <==> todayIdx == k
  {
    DayMatchesAsWritten(d, todayIdx);
    TrimmedNameMatches(d, k, todayIdx);
  }

  /** The same test on the trimmed text. */
  lemma TrimmedNameMatches(d: string, k: nat, todayIdx: nat)
    requires k < 7 && |d| >= 3
    requires Lower(d[..3]) == Lower(WeekdayNames[k])
    ensures TrimmedDayMatches(d, todayIdx) <==> todayIdx == k
  {
    WeekdayTables();
    CapitalisedName(d, k);
    FirstIndexOfDistinct(WeekdayNames, k);
    assert Lower(d)[0] != 'd';
    TwoLetterOfName(d, k);
  }

  /** The first three letters of such a day, capitalised, are the weekday name. */
  lemma CapitalisedName(d: string, k: nat)
    requires k < 7 && |d| >= 3 && Lower(d[..3]) == Lower(WeekdayNames[k])
    ensures [UpperChar(d[0])] + Lower(Slice(d, 1, 3)) == WeekdayNames[k]
    ensures LowerChar(d[0]) == LowerChar(WeekdayNames[k][0]) && LowerChar(d[1]) == WeekdayNames[k][1]
  {
    WeekdayTables();
    var name := WeekdayNames[k];
    assert Lower(d[..3])[0] == LowerChar(d[0]) && Lower(d[..3])[1] == LowerChar(d[1]) && Lower(d[..3])[2] == LowerChar(d[2]);
    assert Lower(name)[1] == name[1] && Lower(name)[2] == name[2];
  }

  /** The first two letters of such a day, as written, are the two-letter form of that weekday or of none. */
  lemma TwoLetterOfName(d: string, k: nat)
    requires k < 7 && |d| >= 2 && LowerChar(d[0]) == LowerChar(WeekdayNames[k][0]) && LowerChar(d[1]) == WeekdayNames[k][1]
    ensures TwoLetterDay(Slice(d, 0, 2)).Some? ==> TwoLetterDay(Slice(d, 0, 2)).value == k
  {
    WeekdayTables();
    var d2 := Slice(d, 0, 2);
    if TwoLetterDay(d2).Some? {
      var j := TwoLetterDay(d2).value;
      assert TwoLetterNames[j] == d2;
      assert WeekdayNames[j][0] == d[0] && WeekdayNames[j][1] == d[1];
      assert TwoLetterNames[j] == TwoLetterNames[k];
    }
  }

  /** A two-letter form written as in the `two` table matches its weekday and no other. */
  lemma TwoLetterMatchesItsWeekday(k: nat, todayIdx: nat)
    requires k < 7
    ensures DayMatchesToday(Some(JStr(TwoLetterNames[k])), todayIdx) <==> todayIdx == k
  {
    var d := TwoLetterNames[k];
    TwoLetterShape(d);
    DayMatchesAsWritten(d, todayIdx);
    TrimmedTwoLetterMatches(k, todayIdx);
  }

  /** The same test on the trimmed text. */
  lemma TrimmedTwoLetterMatches(k: nat, todayIdx: nat)
    requires k < 7
    ensures TrimmedDayMatches(TwoLetterNames[k], todayIdx) <==> todayIdx == k
  {
    WeekdayTables();
    var d := TwoLetterNames[k];
    assert Lower(d) != "daily";
    var up := [UpperChar(d[0])] + Lower(Slice(d, 1, 3));
    FirstIndexOfOtherLength(WeekdayNames, up, 3);
    assert Slice(d, 0, 2) == d;
    FirstIndexOfDistinct(TwoLetterNames, k);
  }

  /** A two-letter day in capitals, such as `MO`, matches no weekday: the two-letter lookup is case-sensitive. */
  lemma CapitalTwoLetterMatchesNothing(d: string, todayIdx: nat)
    requires |d| == 2 && 'A' <= d[0] <= 'Z' && 'A' <= d[1] <= 'Z'
    ensures !DayMatchesToday(Some(JStr(d)), todayIdx)
  {
    TwoLetterShape(d);
    DayMatchesAsWritten(d, todayIdx);
    TrimmedCapitalTwoLetter(d, todayIdx);
  }

  /** Two letters are their own trim. */
  lemma TwoLetterShape(d: string)
    requires |d| == 2 && IsAsciiLetter(d[0]) && IsAsciiLetter(d[1])
    ensures d != [] && Trim(d) == d
  {
    TrimLetters(d);
  }

  /** The same test on the trimmed text. */
  lemma TrimmedCapitalTwoLetter(d: string, todayIdx: nat)
    requires |d| == 2 && 'A' <= d[0] <= 'Z' && 'A' <= d[1] <= 'Z'
    ensures !TrimmedDayMatches(d, todayIdx)
  {
    WeekdayTables();
    assert Lower(d) != "daily";
    var up := [UpperChar(d[0])] + Lower(Slice(d, 1, 3));
    FirstIndexOfOtherLength(WeekdayNames, up, 3);
    assert Slice(d, 0, 2) == d;
    forall i | 0 <= i < 7
      ensures TwoLetterNames[i] != d
    {
      assert TwoLetterNames[i][1] == WeekdayNames[i][1];
    }
  }

  /**
   * The days the schedule extractor writes, read back by the tick: a name found by one of the
   * seven weekday patterns (Monday first) matches exactly that weekday, whose `getDay()` index is
   * one more, modulo 7; a two-letter abbreviation, which the extractor writes in capitals, matches
   * no weekday. (`Daily`, the extractor's default, matches every weekday by `DailyMatchesEveryDay`.)
   */
  lemma ExtractedDayMatches(k: nat, j: nat, todayIdx: nat)
    requires k < |ScheduleExtraction.DayPatterns| && j < |ScheduleExtraction.DayPatterns[k].alternatives|
    ensures var d := ScheduleExtraction.FormatDay(ScheduleExtraction.DayPatterns[k].alternatives[j]);
      DayMatchesToday(Some(JStr(d)), todayIdx) <==> k < 7 && todayIdx == (k + 1) % 7
  {
    var w := ScheduleExtraction.DayPatterns[k].alternatives[j];
    DayPatternWords(k, j);
    if k < 7 {
      FormattedNameMatches(w, (k + 1) % 7, todayIdx);
    } else {
      CapitalTwoLetterMatchesNothing(ScheduleExtraction.FormatDay(w), todayIdx);
    }
  }

  predicate IsLowerWord(w: string) {
    forall i :: 0 <= i < |w| ==> 'a' <= w[i] <= 'z'
  }

  /** The words of the day patterns: those of weekday pattern `k` begin with the name of weekday `k + 1`, modulo 7, in lower case; the last pattern's are two letters long. */
  lemma DayPatternWords(k: nat, j: nat)
    requires k < |ScheduleExtraction.DayPatterns| && j < |ScheduleExtraction.DayPatterns[k].alternatives|
    ensures IsLowerWord(ScheduleExtraction.DayPatterns[k].alternatives[j])
    ensures var w := ScheduleExtraction.DayPatterns[k].alternatives[j];
      if k < 7 then |w| >= 3 && w[..3] == LowerWeekdayNames[(k + 1) % 7] else |w| == 2
  {
    DayPatternWordsLower(k);
    var w := ScheduleExtraction.DayPatterns[k].alternatives[j];
    if k < 7 {
      assert w == ["monday", "tuesday", "wednesday", "thursday", "friday", "saturday", "sunday"][k] || w == LowerWeekdayNames[(k + 1) % 7];
    } else {
      assert w in ["mo", "tu", "we", "th", "fr", "sa", "su"];
    }
  }

  /** Every word of a day pattern is a lower-case word. */
  lemma DayPatternWordsLower(k: nat)
    requires k < |ScheduleExtraction.DayPatterns|
    ensures forall j :: 0 <= j < |ScheduleExtraction.DayPatterns[k].alternatives| ==> IsLowerWord(ScheduleExtraction.DayPatterns[k].alternatives[j])
  {
    if k == 0 { assert IsLowerWord("monday") && IsLowerWord("mon"); }
    else if k == 1 { assert IsLowerWord("tuesday") && IsLowerWord("tue"); }
    else if k == 2 { assert IsLowerWord("wednesday") && IsLowerWord("wed"); }
    else if k == 3 { assert IsLowerWord("thursday") && IsLowerWord("thu"); }
    else if k == 4 { assert IsLowerWord("friday") && IsLowerWord("fri"); }
    else if k == 5 { assert IsLowerWord("saturday") && IsLowerWord("sat"); }
    else if k == 6 { assert IsLowerWord("sunday") && IsLowerWord("sun"); }
  }

  /** `LowerWeekdayNames` is the weekday table in lower case. */
  lemma LowerWeekdays(n: nat)
    requires n < 7
    ensures Lower(WeekdayNames[n]) == LowerWeekdayNames[n]
  {
    var name := WeekdayNames[n];
    assert Lower(name)[0] == LowerChar(name[0]);
  }

  /** A lower-case word beginning with the name of weekday `n`, as the extractor formats it, matches weekday `n` alone. */
  lemma FormattedNameMatches(w: string, n: nat, todayIdx: nat)
    requires n < 7 && IsLowerWord(w) && |w| >= 3 && w[..3] == LowerWeekdayNames[n]
    ensures DayMatchesToday(Some(JStr(ScheduleExtraction.FormatDay(w))), todayIdx) <==> todayIdx == n
  {
    FormattedName(w, n);
    NameMatchesItsWeekday(ScheduleExtraction.FormatDay(w), n, todayIdx);
  }

  /** Such a word, capitalised, is its own trim and still begins with the weekday name in some case. */
  lemma FormattedName(w: string, n: nat)
    requires n < 7 && IsLowerWord(w) && |w| >= 3 && w[..3] == LowerWeekdayNames[n]
    ensures var d := ScheduleExtraction.FormatDay(w);
      |d| >= 3 && Trim(d) == d && Lower(d[..3]) == Lower(WeekdayNames[n])
  {
    FormattedLetters(w);
    FormattedPrefix(w, n);
  }

  /** A lower-case word of three or more letters, capitalised, begins and ends with a letter. */
  lemma FormattedLetters(w: string)
    requires IsLowerWord(w) && |w| >= 3
    ensures var d := ScheduleExtraction.FormatDay(w);
      |d| == |w| && Trim(d) == d && d == [UpperChar(w[0])] + Lower(w[1..])
  {
    var d := ScheduleExtraction.FormatDay(w);
    assert Lower(w[1..]) == w[1..];
    assert IsAsciiLetter(d[0]) && IsAsciiLetter(d[|d| - 1]);
    TrimLetters(d);
  }

  /** Its first three letters are the weekday name in some case. */
  lemma FormattedPrefix(w: string, n: nat)
    requires n < 7 && IsLowerWord(w) && |w| >= 3 && w[..3] == LowerWeekdayNames[n]
    ensures var d := ScheduleExtraction.FormatDay(w);
      |d| >= 3 && Lower(d[..3]) == Lower(WeekdayNames[n])
  {
    var d := ScheduleExtraction.FormatDay(w);
    LowerWeekdays(n);
    assert Lower(w[1..]) == w[1..];
    assert d == [UpperChar(w[0])] + w[1..];
    assert Lower(d[..3]) == w[..3];
  }

  /** Text that begins and ends with a letter is its own trim. */
  lemma TrimLetters(d: string)
    requires |d| > 0 && IsAsciiLetter(d[0]) && IsAsciiLetter(d[|d| - 1])
    ensures Trim(d) == d
  {
    TrimNoop(d);
  }

  // ---------------------------------------------------------------- one schedule item

  /** `s.time || s.start || s.startTime || ''`. */
  function ItemTime(s: Json): Json {
    Or(Or(Or(Get(s, "time"), Get(s, "start")), Get(s, "startTime")), Some(JStr(""))).GetOr(JStr(""))
  }

  /** `s.day || s.dayName || s.dayShort`. */
  function ItemDay(s: Json): Option<Json> {
    Or(Or(Get(s, "day"), Get(s, "dayName")), Get(s, "dayShort"))
  }

  /** The class notification: lead time, subject (or `class`), location or room when there is one, and the item's `time`. */
  function ClassText(s: Json, lead: int): string {
    var subj := Or(Or(Or(Get(s, "subject"), Get(s, "course")), Get(s, "title")), Some(JStr("class")));
    var where := Or(Or(Get(s, "location"), Get(s, "room")), Some(JStr("")));
    "⏰ Class in " + IntToDecimal(lead) + " min: " + Text(subj)
      + (if Present(where) then " (" + Text(where) + ")" else "")
      + "\n" + Text(Or(Get(s, "time"), Some(JStr(""))))
  }

  /** What one schedule item does: `Crash` when it is `null` (reading a field throws), else a notification or nothing. */
  datatype ItemStep = Crash | Quiet | Notify(text: string)

  function ItemStepOf(s: Json, nowMin: int, lead: int, todayIdx: nat): ItemStep {
    if s.JNull? then Crash
    else
      match ConvertStartToMinutes(ItemTime(s))
      case None => Quiet
      case Some(startMin) =>
        if !DayMatchesToday(ItemDay(s), todayIdx) then Quiet
        else if nowMin == startMin - lead then Notify(ClassText(s, lead))
        else Quiet
  }

  /**
   * A class notification is sent exactly when the item has a start minute, its day matches
   * today, and the current minute is the start minute less the lead time.
   */
  lemma NotifiesOnlyAtLead(s: Json, nowMin: int, lead: int, todayIdx: nat)
    ensures ItemStepOf(s, nowMin, lead, todayIdx).Notify? <==>
      !s.JNull? && ConvertStartToMinutes(ItemTime(s)).Some? && DayMatchesToday(ItemDay(s), todayIdx)
      && nowMin == ConvertStartToMinutes(ItemTime(s)).value - lead
    ensures ItemStepOf(s, nowMin, lead, todayIdx).Crash? <==> s.JNull?
  {
  }

  /** A class that starts less than `lead` minutes after midnight is never announced. */
  lemma EarlyClassNeverNotifies(s: Json, nowMin: int, lead: int, todayIdx: nat)
    requires 0 <= nowMin
    requires ConvertStartToMinutes(ItemTime(s)).Some? && ConvertStartToMinutes(ItemTime(s)).value < lead
    ensures !ItemStepOf(s, nowMin, lead, todayIdx).Notify?
  {
    NotifiesOnlyAtLead(s, nowMin, lead, todayIdx);
  }

  // ---------------------------------------------------------------- the schedule loop

  /** `schedule: [ ... ]`. */
  predicate ListShaped(data: Doc) {
    "schedule" in data && data["schedule"].JArr?
  }

  /** `schedule: { items: [ ... ] }`. */
  predicate ItemsShaped(data: Doc) {
    "schedule" in data && data["schedule"].JObj? && "items" in data["schedule"].fields
    && data["schedule"].fields["items"].JArr?
  }

  /**
   * The items of `data.schedule` when it is an array, else of `data.schedule.items` when that
   * is an array, else none.
   */
  function ScheduleItems(data: Doc): (items: seq<Json>)
    ensures ListShaped(data) ==> items == data["schedule"].items
    ensures ItemsShaped(data) ==> items == data["schedule"].fields["items"].items
    ensures !ListShaped(data) && !ItemsShaped(data) ==> items == []
  {
    if "schedule" in data && data["schedule"].JArr? then data["schedule"].items
    else if "schedule" in data && Truthy(data["schedule"]) then
      match Get(data["schedule"], "items")
      case Some(JArr(xs)) => xs
      case _ => []
    else []
  }

  /** The notifications the schedule loop sends, and whether it stopped on a `null` item. */
  datatype Sends = Sends(texts: seq<string>, crashed: bool)

  /** The step of each schedule item, in order. */
  function ItemSteps(items: seq<Json>, nowMin: int, lead: int, todayIdx: nat): (steps: seq<ItemStep>)
    ensures |steps| == |items|
    ensures forall i :: 0 <= i < |items| ==> steps[i] == ItemStepOf(items[i], nowMin, lead, todayIdx)
  {
    seq(|items|, i requires 0 <= i < |items| => ItemStepOf(items[i], nowMin, lead, todayIdx))
  }

  /** Taking the steps in order: each `Notify` sends its text, and the first `Crash` ends the loop. */
  function RunSteps(steps: seq<ItemStep>): Sends
    decreases |steps|
  {
    if steps == [] then Sends([], false)
    else
      var rest := RunSteps(steps[1..]);
      match steps[0]
      case Crash => Sends([], true)
      case Quiet => rest
      case Notify(t) => Sends([t] + rest.texts, rest.crashed)
  }

  /** The schedule loop over `items`. */
  function ScheduleRun(items: seq<Json>, nowMin: int, lead: int, todayIdx: nat): Sends {
    RunSteps(ItemSteps(items, nowMin, lead, todayIdx))
  }

  /**
   * The schedule loop stops exactly when some item is `null`; every notification it sends is
   * the text of an item that fires, and there are never more notifications than items.
   */
  lemma ScheduleRunFacts(items: seq<Json>, nowMin: int, lead: int, todayIdx: nat)
    ensures ScheduleRun(items, nowMin, lead, todayIdx).crashed <==> JNull in items
    ensures |ScheduleRun(items, nowMin, lead, todayIdx).texts| <= |items|
    ensures forall t :: t in ScheduleRun(items, nowMin, lead, todayIdx).texts ==>
      exists i :: 0 <= i < |items| && ItemStepOf(items[i], nowMin, lead, todayIdx) == Notify(t)
  {
    var steps := ItemSteps(items, nowMin, lead, todayIdx);
    RunStepsStops(steps);
    RunStepsTexts(steps);
    assert Crash in steps <==> JNull in items by {
      if Crash in steps {
        var i :| 0 <= i < |steps| && steps[i] == Crash;
        NotifiesOnlyAtLead(items[i], nowMin, lead, todayIdx);
        assert items[i] == JNull;
      }
      if JNull in items {
        var i :| 0 <= i < |items| && items[i] == JNull;
        NotifiesOnlyAtLead(items[i], nowMin, lead, todayIdx);
        assert steps[i] == Crash;
      }
    }
    forall t | t in RunSteps(steps).texts
      ensures exists i :: 0 <= i < |items| && ItemStepOf(items[i], nowMin, lead, todayIdx) == Notify(t)
    {
      var i :| 0 <= i < |steps| && steps[i] == Notify(t);
      assert ItemStepOf(items[i], nowMin, lead, todayIdx) == Notify(t);
    }
  }

  /** The run stops exactly at a `Crash`, and sends at most one text per step. */
  lemma {:induction false} RunStepsStops(steps: seq<ItemStep>)
    ensures RunSteps(steps).crashed <==> Crash in steps
    ensures |RunSteps(steps).texts| <= |steps|
    decreases |steps|
  {
    if steps != [] {
      RunStepsStops(steps[1..]);
      assert steps == [steps[0]] + steps[1..];
    }
  }

  /** Every text the run sends is the text of one of its `Notify` steps. */
  lemma {:induction false} RunStepsTexts(steps: seq<ItemStep>)
    ensures forall t :: t in RunSteps(steps).texts ==> exists i :: 0 <= i < |steps| && steps[i] == Notify(t)
    decreases |steps|
  {
    if steps != [] {
      RunStepsTexts(steps[1..]);
      forall t | t in RunSteps(steps[1..]).texts
        ensures exists i :: 0 <= i < |steps| && steps[i] == Notify(t)
      {
        var i :| 0 <= i < |steps[1..]| && steps[1..][i] == Notify(t);
        assert steps[i + 1] == Notify(t);
      }
    }
  }

  // ---------------------------------------------------------------- the reminders loop

  /** What happens to one reminder: it is sent, kept for later, or dropped. */
  datatype Fate = Fire | Keep | Drop

  /**
   * The fate of reminder `r` at time `now` (milliseconds): a `null` entry makes reading `dueAt`
   * throw and is kept; a due time in the last minute (`0 <= now - due < 60000`) sends it; a due
   * time still ahead keeps it; an elapsed or unparseable (`Invalid Date`) due time drops it.
   */
  function FateOf(r: Json, now: int, parseDate: Json -> Option<int>): Fate {
    if r.JNull? then Keep
    else
      match DueOf(r, parseDate)
      case None => Drop
      case Some(t) =>
        if now >= t && now - t < 60 * 1000 then Fire
        else if now < t then Keep
        else Drop
  }

  /** `new Date(r.dueAt)` in milliseconds, `None` for `Invalid Date` (which a missing `dueAt` gives). */
  function DueOf(r: Json, parseDate: Json -> Option<int>): Option<int> {
    match Get(r, "dueAt")
    case None => None
    case Some(v) => parseDate(v)
  }

  function ReminderText(r: Json): string {
    "🔔 Reminder: " + Text(Get(r, "text"))
  }

  /** The reminders sent and the reminders remaining after the loop over `reminders`. */
  datatype Partition = Partition(texts: seq<string>, remaining: seq<Json>)

  function ReminderRun(reminders: seq<Json>, now: int, parseDate: Json -> Option<int>): Partition
    decreases |reminders|
  {
    if reminders == [] then Partition([], [])
    else
      var rest := ReminderRun(reminders[1..], now, parseDate);
      var r := reminders[0];
      match FateOf(r, now, parseDate)
      case Fire => Partition([ReminderText(r)] + rest.texts, rest.remaining)
      case Keep => Partition(rest.texts, [r] + rest.remaining)
      case Drop => rest
  }

  /** `a` is `b` with some elements left out, the rest in their order. */
  predicate IsSubsequence<T(==)>(a: seq<T>, b: seq<T>)
    decreases |b|
  {
    a == [] || (b != [] && ((a[0] == b[0] && IsSubsequence(a[1..], b[1..])) || IsSubsequence(a, b[1..])))
  }

  /**
   * The reminders loop keeps exactly the reminders whose fate is `Keep`, each as many times as
   * it occurs, in their original order; it sends one text per reminder whose fate is `Fire`, so
   * a sent reminder is never kept to be sent again.
   */
  lemma ReminderPartition(reminders: seq<Json>, now: int, parseDate: Json -> Option<int>)
    ensures IsSubsequence(ReminderRun(reminders, now, parseDate).remaining, reminders)
    ensures forall r :: multiset(ReminderRun(reminders, now, parseDate).remaining)[r] == (if FateOf(r, now, parseDate) == Keep then multiset(reminders)[r] else 0)
    ensures |ReminderRun(reminders, now, parseDate).texts| + |ReminderRun(reminders, now, parseDate).remaining|
      + DropCount(reminders, now, parseDate) == |reminders|
    ensures forall t :: t in ReminderRun(reminders, now, parseDate).texts ==>
      exists i :: 0 <= i < |reminders| && FateOf(reminders[i], now, parseDate) == Fire && t == ReminderText(reminders[i])
  {
    RemainingInOrder(reminders, now, parseDate);
    RemainingCounts(reminders, now, parseDate);
    ReminderTexts(reminders, now, parseDate);
  }

  lemma {:induction false} RemainingInOrder(reminders: seq<Json>, now: int, parseDate: Json -> Option<int>)
    ensures IsSubsequence(ReminderRun(reminders, now, parseDate).remaining, reminders)
    ensures |ReminderRun(reminders, now, parseDate).texts| + |ReminderRun(reminders, now, parseDate).remaining|
      + DropCount(reminders, now, parseDate) == |reminders|
    decreases |reminders|
  {
    if reminders != [] {
      var tail := reminders[1..];
      RemainingInOrder(tail, now, parseDate);
      var rest := ReminderRun(tail, now, parseDate);
      var r := reminders[0];
      if FateOf(r, now, parseDate) == Keep {
        assert ([r] + rest.remaining)[1..] == rest.remaining;
      } else {
        SubsequenceOfTail(rest.remaining, reminders);
      }
    }
  }

  lemma {:induction false} RemainingCounts(reminders: seq<Json>, now: int, parseDate: Json -> Option<int>)
    ensures forall r :: multiset(ReminderRun(reminders, now, parseDate).remaining)[r] == (if FateOf(r, now, parseDate) == Keep then multiset(reminders)[r] else 0)
    decreases |reminders|
  {
    if reminders != [] {
      var tail := reminders[1..];
      RemainingCounts(tail, now, parseDate);
      var rest := ReminderRun(tail, now, parseDate);
      var r := reminders[0];
      assert reminders == [r] + tail;
      assert multiset(reminders) == multiset{r} + multiset(tail);
      if FateOf(r, now, parseDate) == Keep {
        assert multiset([r] + rest.remaining) == multiset{r} + multiset(rest.remaining);
      }
    }
  }

  lemma {:induction false} ReminderTexts(reminders: seq<Json>, now: int, parseDate: Json -> Option<int>)
    ensures forall t :: t in ReminderRun(reminders, now, parseDate).texts ==>
      exists i :: 0 <= i < |reminders| && FateOf(reminders[i], now, parseDate) == Fire && t == ReminderText(reminders[i])
    decreases |reminders|
  {
    if reminders != [] {
      var tail := reminders[1..];
      ReminderTexts(tail, now, parseDate);
      var rest := ReminderRun(tail, now, parseDate);
      forall t | t in rest.texts
        ensures exists i :: 0 <= i < |reminders| && FateOf(reminders[i], now, parseDate) == Fire && t == ReminderText(reminders[i])
      {
        var i :| 0 <= i < |tail| && FateOf(tail[i], now, parseDate) == Fire && t == ReminderText(tail[i]);
        assert reminders[i + 1] == tail[i];
      }
    }
  }

  /** The reminders whose fate is `Drop`. */
  function DropCount(reminders: seq<Json>, now: int, parseDate: Json -> Option<int>): nat
    decreases |reminders|
  {
    if reminders == [] then 0
    else (if FateOf(reminders[0], now, parseDate) == Drop then 1 else 0) + DropCount(reminders[1..], now, parseDate)
  }

  lemma SubsequenceOfTail<T>(a: seq<T>, b: seq<T>)
    requires b != [] && IsSubsequence(a, b[1..])
    ensures IsSubsequence(a, b)
  {
  }

  // ---------------------------------------------------------------- one user

  /** What the tick does for one user: the texts it sends, and the reminders it writes back, if any. */
  datatype Turn = Turn(texts: seq<string>, write: Option<seq<Json>>)

  /**
   * One user's turn: the schedule loop, then, unless it stopped on a `null` item, the reminders
   * loop when `reminders` is a non-empty array, whose remaining reminders are written back.
   * The throw on a `null` item is an unhandled rejection of the callback's promise; the model
   * ends only this user's turn.
   */
  function UserTurn(data: Doc, now: int, nowMin: int, lead: int, todayIdx: nat, parseDate: Json -> Option<int>): Turn {
    var sched := ScheduleRun(ScheduleItems(data), nowMin, lead, todayIdx);
    if sched.crashed then Turn(sched.texts, None)
    else if "reminders" in data && data["reminders"].JArr? && |data["reminders"].items| > 0 then
      var rem := ReminderRun(data["reminders"].items, now, parseDate);
      Turn(sched.texts + rem.texts, Some(rem.remaining))
    else Turn(sched.texts, None)
  }

  /**
   * A user's reminders are written back exactly when `reminders` is a non-empty array and no
   * schedule item is `null`, and what is written is the pending part of that array.
   */
  lemma WriteOnlyForReminders(data: Doc, now: int, nowMin: int, lead: int, todayIdx: nat, parseDate: Json -> Option<int>)
    ensures UserTurn(data, now, nowMin, lead, todayIdx, parseDate).write.Some? <==>
      JNull !in ScheduleItems(data) && "reminders" in data && data["reminders"].JArr? && |data["reminders"].items| > 0
    ensures UserTurn(data, now, nowMin, lead, todayIdx, parseDate).write.Some? ==>
      IsSubsequence(UserTurn(data, now, nowMin, lead, todayIdx, parseDate).write.value, data["reminders"].items)
  {
    ScheduleRunFacts(ScheduleItems(data), nowMin, lead, todayIdx);
    if "reminders" in data && data["reminders"].JArr? {
      ReminderPartition(data["reminders"].items, now, parseDate);
    }
  }

  /** The per-user body of the tick: the schedule loop, then the reminders loop and its write-back. */
  method ProcessUser(data: Doc, now: int, nowMin: int, lead: int, todayIdx: nat, parseDate: Json -> Option<int>)
    returns (texts: seq<string>, write: Option<seq<Json>>)
    ensures Turn(texts, write) == UserTurn(data, now, nowMin, lead, todayIdx, parseDate)
  {
    var items := ScheduleItems(data);
    var crashed;
    texts, crashed := NotifyClasses(items, nowMin, lead, todayIdx);
    write := None;
    if crashed {
      return;
    }
    if "reminders" in data && data["reminders"].JArr? && |data["reminders"].items| > 0 {
      var sent, remaining := PartitionReminders(data["reminders"].items, now, parseDate);
      texts := texts + sent;
      write := Some(remaining);
    }
  }

  /**
   * The loop over the schedule items. What each item does is the pure decision `ItemStepOf`
   * (its start minute, its day, the lead-time test); the loop takes those decisions in order and
   * stops at a `null` item, where reading `s.time` throws.
   */
  method NotifyClasses(items: seq<Json>, nowMin: int, lead: int, todayIdx: nat) returns (texts: seq<string>, crashed: bool)
    ensures Sends(texts, crashed) == ScheduleRun(items, nowMin, lead, todayIdx)
  {
    texts, crashed := TakeSteps(ItemSteps(items, nowMin, lead, todayIdx));
  }

  /** Sends the text of each `Notify` step in order, and stops at the first `Crash`. */
  method TakeSteps(steps: seq<ItemStep>) returns (texts: seq<string>, crashed: bool)
    ensures Sends(texts, crashed) == RunSteps(steps)
  {
    texts := [];
    crashed := false;
    for i := 0 to |steps|
      invariant RunSteps(steps) == Sends(texts + RunSteps(steps[i..]).texts, RunSteps(steps[i..]).crashed)
    {
      RunStepsStep(steps, i);
      match steps[i]
      case Crash =>
        crashed := true;
        return;
      case Quiet =>
      case Notify(t) =>
        ghost var rest := RunSteps(steps[i + 1..]);
        assert texts + [t] + rest.texts == texts + ([t] + rest.texts);
        texts := texts + [t];
    }
    assert steps[|steps|..] == [];
  }

  /** One more step of the schedule loop. */
  lemma RunStepsStep(steps: seq<ItemStep>, i: nat)
    requires i < |steps|
    ensures var rest := RunSteps(steps[i + 1..]);
      RunSteps(steps[i..]) ==
        match steps[i]
        case Crash => Sends([], true)
        case Quiet => rest
        case Notify(t) => Sends([t] + rest.texts, rest.crashed)
  {
    assert steps[i..][0] == steps[i] && steps[i..][1..] == steps[i + 1..];
  }

  /** One more reminder of the reminders loop. */
  lemma ReminderRunStep(reminders: seq<Json>, i: nat, now: int, parseDate: Json -> Option<int>)
    requires i < |reminders|
    ensures var rest := ReminderRun(reminders[i + 1..], now, parseDate);
      var r := reminders[i];
      ReminderRun(reminders[i..], now, parseDate) ==
        match FateOf(r, now, parseDate)
        case Fire => Partition([ReminderText(r)] + rest.texts, rest.remaining)
        case Keep => Partition(rest.texts, [r] + rest.remaining)
        case Drop => rest
  {
    assert reminders[i..][0] == reminders[i] && reminders[i..][1..] == reminders[i + 1..];
  }

  /** The loop over the reminders: each is sent, kept in `remaining`, or dropped. */
  method PartitionReminders(reminders: seq<Json>, now: int, parseDate: Json -> Option<int>) returns (sent: seq<string>, remaining: seq<Json>)
    ensures Partition(sent, remaining) == ReminderRun(reminders, now, parseDate)
  {
    remaining := [];
    sent := [];
    for i := 0 to |reminders|
      invariant ReminderRun(reminders, now, parseDate).texts == sent + ReminderRun(reminders[i..], now, parseDate).texts
      invariant ReminderRun(reminders, now, parseDate).remaining == remaining + ReminderRun(reminders[i..], now, parseDate).remaining
    {
      var r := reminders[i];
      var fate := CheckReminder(r, now, parseDate);
      ReminderRunStep(reminders, i, now, parseDate);
      ghost var rest := ReminderRun(reminders[i + 1..], now, parseDate);
      match fate
      case Fire =>
        assert sent + [ReminderText(r)] + rest.texts == sent + ([ReminderText(r)] + rest.texts);
        sent := sent + [ReminderText(r)];
      case Keep =>
        assert remaining + [r] + rest.remaining == remaining + ([r] + rest.remaining);
        remaining := remaining + [r];
      case Drop =>
    }
    assert reminders[|reminders|..] == [];
  }

  /**
   * The body of the reminders loop for reminder `r`: a `null` entry throws and the catch keeps
   * it; otherwise its due time decides.
   */
  method CheckReminder(r: Json, now: int, parseDate: Json -> Option<int>) returns (fate: Fate)
    ensures fate == FateOf(r, now, parseDate)
  {
    if r.JNull? {
      return Keep;
    }
    var due := DueOf(r, parseDate);
    if due.Some? && now >= due.value && now - due.value < 60 * 1000 {
      return Fire;
    } else if due.Some? && now < due.value {
      return Keep;
    }
    return Drop;
  }

  // ---------------------------------------------------------------- the tick

  /** A message sent to a user's chat. */
  datatype Message = Message(to: string, text: string)

  function Chat(id: string): string {
    id + "@s.whatsapp.net"
  }

  function Messages(id: string, texts: seq<string>): (ms: seq<Message>)
    ensures |ms| == |texts| && forall i :: 0 <= i < |ms| ==> ms[i] == Message(Chat(id), texts[i])
  {
    seq(|texts|, i requires 0 <= i < |texts| => Message(Chat(id), texts[i]))
  }

  /** `(process.env.SELF_BOT || '').toLowerCase() !== 'false'`. */
  function SelfMode(selfBot: Option<string>): bool {
    Lower(selfBot.GetOr("")) != "false"
  }

  /** Whether the tick processes user `id`: every user outside self mode, only the resolved self phone inside it. */
  predicate Selected(id: string, selfMode: bool, selfPhone: Option<string>) {
    !selfMode || (selfPhone.Some? && selfPhone.value != [] && id == selfPhone.value)
  }

  /** The settings one tick runs with. */
  datatype Clock = Clock(now: int, nowMin: int, lead: int, todayIdx: nat)

  function TurnOf(u: Snapshot, clock: Clock, parseDate: Json -> Option<int>): Turn {
    UserTurn(u.data.GetOr(map[]), clock.now, clock.nowMin, clock.lead, clock.todayIdx, parseDate)
  }

  /** The messages a tick sends for the users `users`, user by user. */
  function TickMessages(users: seq<Snapshot>, selfMode: bool, selfPhone: Option<string>, clock: Clock, parseDate: Json -> Option<int>): seq<Message> {
    if users == [] then []
    else
      TickMessages(users[..|users| - 1], selfMode, selfPhone, clock, parseDate)
        + UserMessages(users[|users| - 1], selfMode, selfPhone, clock, parseDate)
  }

  /** The messages of one user's turn, none for a user the tick skips. */
  function UserMessages(u: Snapshot, selfMode: bool, selfPhone: Option<string>, clock: Clock, parseDate: Json -> Option<int>): seq<Message> {
    if Selected(u.id, selfMode, selfPhone) then Messages(u.id, TurnOf(u, clock, parseDate).texts) else []
  }

  /** The `users` collection after a tick has written back the pending reminders of `users`. */
  function WriteBack(c: map<string, Doc>, users: seq<Snapshot>, selfMode: bool, selfPhone: Option<string>, clock: Clock, parseDate: Json -> Option<int>): map<string, Doc> {
    if users == [] then c
    else WriteOne(WriteBack(c, users[..|users| - 1], selfMode, selfPhone, clock, parseDate), users[|users| - 1], selfMode, selfPhone, clock, parseDate)
  }

  /** The collection after one user's write-back, `update({ reminders: remaining })`, if the turn makes one. */
  function WriteOne(c: map<string, Doc>, u: Snapshot, selfMode: bool, selfPhone: Option<string>, clock: Clock, parseDate: Json -> Option<int>): map<string, Doc> {
    var turn := TurnOf(u, clock, parseDate);
    if Selected(u.id, selfMode, selfPhone) && turn.write.Some? then
      c[u.id := Merged(if u.id in c then c[u.id] else map[], map["reminders" := JArr(turn.write.value)])]
    else c
  }

  /** The tick's results for the first `i + 1` users extend those for the first `i` by user `i`'s. */
  lemma TickStep(c: map<string, Doc>, users: seq<Snapshot>, i: nat, selfMode: bool, selfPhone: Option<string>, clock: Clock, parseDate: Json -> Option<int>)
    requires i < |users|
    ensures TickMessages(users[..i + 1], selfMode, selfPhone, clock, parseDate)
      == TickMessages(users[..i], selfMode, selfPhone, clock, parseDate) + UserMessages(users[i], selfMode, selfPhone, clock, parseDate)
    ensures WriteBack(c, users[..i + 1], selfMode, selfPhone, clock, parseDate)
      == WriteOne(WriteBack(c, users[..i], selfMode, selfPhone, clock, parseDate), users[i], selfMode, selfPhone, clock, parseDate)
  {
    assert users[..i + 1][..i] == users[..i] && users[..i + 1][i] == users[i];
  }

  /** Writing back `{ reminders }` replaces that one field, because an array is not merged into. */
  lemma MergeReminders(doc: Doc, rs: seq<Json>)
    ensures Merged(doc, map["reminders" := JArr(rs)]) == doc["reminders" := JArr(rs)]
  {
    MergedRules(doc, map["reminders" := JArr(rs)]);
  }

  /**
   * A tick changes no field other than `reminders` of any stored document, and leaves the
   * documents of the users it does not process untouched.
   */
  lemma {:induction false} WriteBackOnlyReminders(c: map<string, Doc>, users: seq<Snapshot>, selfMode: bool, selfPhone: Option<string>, clock: Clock, parseDate: Json -> Option<int>)
    ensures c.Keys <= WriteBack(c, users, selfMode, selfPhone, clock, parseDate).Keys
    ensures forall id :: id in c ==>
      WriteBack(c, users, selfMode, selfPhone, clock, parseDate)[id] - {"reminders"} == c[id] - {"reminders"}
    ensures forall id :: id in c && !Selected(id, selfMode, selfPhone) ==>
      WriteBack(c, users, selfMode, selfPhone, clock, parseDate)[id] == c[id]
  {
    if users != [] {
      var init := users[..|users| - 1];
      WriteBackOnlyReminders(c, init, selfMode, selfPhone, clock, parseDate);
      WriteOneOnlyReminders(WriteBack(c, init, selfMode, selfPhone, clock, parseDate), users[|users| - 1], selfMode, selfPhone, clock, parseDate);
    }
  }

  /** One user's write-back keeps every key, and changes only the `reminders` field of that user's document. */
  lemma WriteOneOnlyReminders(c: map<string, Doc>, u: Snapshot, selfMode: bool, selfPhone: Option<string>, clock: Clock, parseDate: Json -> Option<int>)
    ensures c.Keys <= WriteOne(c, u, selfMode, selfPhone, clock, parseDate).Keys
    ensures forall id :: id in c ==> WriteOne(c, u, selfMode, selfPhone, clock, parseDate)[id] - {"reminders"} == c[id] - {"reminders"}
    ensures forall id :: id in c && id != u.id ==> WriteOne(c, u, selfMode, selfPhone, clock, parseDate)[id] == c[id]
    ensures !Selected(u.id, selfMode, selfPhone) ==> WriteOne(c, u, selfMode, selfPhone, clock, parseDate) == c
  {
    var turn := TurnOf(u, clock, parseDate);
    if Selected(u.id, selfMode, selfPhone) && turn.write.Some? {
      ReplaceReminders(c, u.id, turn.write.value);
    }
  }

  /** Merging `{ reminders: rs }` into document `id` keeps every key and every other field. */
  lemma ReplaceReminders(c: map<string, Doc>, id: string, rs: seq<Json>)
    ensures var r := c[id := Merged(if id in c then c[id] else map[], map["reminders" := JArr(rs)])];
      c.Keys <= r.Keys
      && (forall k :: k in c ==> r[k] - {"reminders"} == c[k] - {"reminders"})
      && (forall k :: k in c && k != id ==> r[k] == c[k])
  {
    var base: Doc := if id in c then c[id] else map[];
    MergeReminders(base, rs);
    assert base["reminders" := JArr(rs)] - {"reminders"} == base - {"reminders"};
  }

  /** In self mode every message goes to the self chat, and none is sent when no self phone resolves. */
  lemma {:induction false} SelfModeOnlyOwner(users: seq<Snapshot>, selfPhone: Option<string>, clock: Clock, parseDate: Json -> Option<int>)
    ensures forall m :: m in TickMessages(users, true, selfPhone, clock, parseDate) ==>
      selfPhone.Some? && selfPhone.value != [] && m.to == Chat(selfPhone.value)
  {
    if users != [] {
      SelfModeOnlyOwner(users[..|users| - 1], selfPhone, clock, parseDate);
    }
  }

  /** The callback the tick runs for one listed user: skip it, or take its turn and write back its reminders. */
  method TickUser(db: MockDb, u: Snapshot, selfMode: bool, selfPhone: Option<string>, clock: Clock, parseDate: Json -> Option<int>)
    returns (msgs: seq<Message>)
    requires "users" in db.store
    modifies db
    ensures msgs == UserMessages(u, selfMode, selfPhone, clock, parseDate)
    ensures db.store == old(db.store)["users" := WriteOne(old(db.store)["users"], u, selfMode, selfPhone, clock, parseDate)]
  {
    msgs := [];
    if selfMode {
      if selfPhone.None? || selfPhone.value == [] {
        return;
      }
      if u.id != selfPhone.value {
        return;
      }
    }
    var data := u.data.GetOr(map[]);
    var texts, write := ProcessUser(data, clock.now, clock.nowMin, clock.lead, clock.todayIdx, parseDate);
    msgs := Messages(u.id, texts);
    if write.Some? {
      db.Update("users", u.id, map["reminders" := JArr(write.value)]);
    }
  }

  /** `db.collection("users").get()`: the collection is created if need be, and listed. */
  method ListUsers(db: MockDb) returns (users: seq<Snapshot>)
    modifies db
    ensures "users" in db.store
    ensures db.store["users"] == if "users" in old(db.store) then old(db.store)["users"] else map[]
    ensures db.store == old(db.store)["users" := db.store["users"]]
    ensures Lists(users, db.store["users"])
  {
    db.Collection("users");
    users := db.List("users");
  }

  /** The messages `sent` and the collection `after` are what the tick makes of collection `c` and its listing `users`. */
  predicate TickDone(c: map<string, Doc>, users: seq<Snapshot>, sent: seq<Message>, after: map<string, Doc>,
                     selfMode: bool, selfPhone: Option<string>, clock: Clock, parseDate: Json -> Option<int>) {
    && sent == TickMessages(users, selfMode, selfPhone, clock, parseDate)
    && after == WriteBack(c, users, selfMode, selfPhone, clock, parseDate)
  }

  /** `users.forEach(...)`: every listed user's callback, in listing order. */
  method TickUsers(db: MockDb, users: seq<Snapshot>, selfMode: bool, selfPhone: Option<string>, clock: Clock, parseDate: Json -> Option<int>)
    returns (sent: seq<Message>)
    requires "users" in db.store
    modifies db
    ensures "users" in db.store && db.store == old(db.store)["users" := db.store["users"]]
    ensures TickDone(old(db.store)["users"], users, sent, db.store["users"], selfMode, selfPhone, clock, parseDate)
  {
    ghost var c := db.store["users"];
    sent := [];
    for i := 0 to |users|
      invariant "users" in db.store
      invariant sent == TickMessages(users[..i], selfMode, selfPhone, clock, parseDate)
      invariant db.store == old(db.store)["users" := WriteBack(c, users[..i], selfMode, selfPhone, clock, parseDate)]
    {
      TickStep(c, users, i, selfMode, selfPhone, clock, parseDate);
      var msgs := TickUser(db, users[i], selfMode, selfPhone, clock, parseDate);
      sent := sent + msgs;
    }
    assert users[..|users|] == users;
  }

  /**
   * One tick: the `users` collection is listed, and each user the self-bot settings select gets
   * its turn; the messages of all turns are sent and the pending reminders written back with
   * `update({ reminders })`. Nothing but the `users` collection changes.
   */
  method RunTick(db: MockDb, selfBot: Option<string>, selfPhone: Option<string>, clock: Clock, parseDate: Json -> Option<int>)
    returns (users: seq<Snapshot>, sent: seq<Message>)
    modifies db
    ensures "users" in db.store && db.store == old(db.store)["users" := db.store["users"]]
    ensures Lists(users, if "users" in old(db.store) then old(db.store)["users"] else map[])
    ensures TickDone(if "users" in old(db.store) then old(db.store)["users"] else map[], users, sent, db.store["users"],
                     SelfMode(selfBot), selfPhone, clock, parseDate)
  {
    users := ListUsers(db);
    sent := TickUsers(db, users, SelfMode(selfBot), selfPhone, clock, parseDate);
  }
}
