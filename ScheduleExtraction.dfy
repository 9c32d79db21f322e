/**
 * `extractSchedule` of utils/exractSchedule.js: free text (PDF or OCR output) becomes a list of
 * `{ subject, time, day }` items. Each cleaned line is scanned for explicit `hh:mm - hh:mm`
 * ranges and then for five time patterns; every accepted time gets a subject and a day inferred
 * from the line and its neighbours. The items are de-duplicated and sorted by start time.
 */
module ScheduleExtraction {
  import opened Wrappers
  import opened JsText
  import opened Patterns
  import opened TimeFormat
  import opened Sequences

  /** One schedule item. */
  datatype Entry = Entry(subject: string, time: string, day: string)

  /** The line being scanned and its neighbours (`''` past either end of the text). */
  datatype Window = Window(prev: string, line: string, next: string) {

    /** `combinedLine`, where day names are looked for. */
    function Combined(): string {
      prev + " " + line + " " + next
    }
  }

  const SubjectKeywords: seq<string> := [
    "math", "mathematics", "calculus", "algebra", "geometry",
    "english", "literature", "writing", "grammar",
    "science", "physics", "chemistry", "biology",
    "history", "geography", "social", "studies",
    "computer", "programming", "coding", "it", "cs", "cse",
    "economics", "psychology", "philosophy",
    "language", "spanish", "french", "german",
    "lecture", "lab", "tutorial", "seminar",
    "class", "course", "subject"
  ]

  /** Monday to Sunday (full name or three letters), then the two-letter forms. */
  const DayPatterns: seq<Regex> := [
    Words(["monday", "mon"]),
    Words(["tuesday", "tue"]),
    Words(["wednesday", "wed"]),
    Words(["thursday", "thu"]),
    Words(["friday", "fri"]),
    Words(["saturday", "sat"]),
    Words(["sunday", "sun"]),
    Words(["mo", "tu", "we", "th", "fr", "sa", "su"])
  ]

  /** The day names removed from subject candidates. */
  const DayStrip: Regex :=
    Words(["mon", "tue", "wed", "thu", "fri", "sat", "sun", "mo", "tu", "we", "th", "fr", "sa", "su"])

  /** The five time patterns, scanned in this order. */
  datatype TimeKind = ClockMeridiemKind | ClockKind | HourMeridiemKind | DotClockKind | CompactRangeKind

  const TimeKinds: seq<TimeKind> := [ClockMeridiemKind, ClockKind, HourMeridiemKind, DotClockKind, CompactRangeKind]

  function KindRegex(kind: TimeKind): Regex {
    match kind
    case ClockMeridiemKind => ClockMeridiem
    case ClockKind => Clock
    case HourMeridiemKind => HourMeridiem
    case DotClockKind => DotClock
    case CompactRangeKind => CompactRange
  }

  // ---------------------------------------------------------------- lines

  /** Each piece of the text between newlines, with whitespace runs collapsed and trimmed; blank pieces are dropped. */
  function Lines(text: string): (lines: seq<string>)
    ensures forall i :: 0 <= i < |lines| ==> IsCleanLine(lines[i])
  {
    NonEmptyPieces(CleanLines(SplitOn(text, '\n')))
  }

  /** `CleanLine` on every piece. */
  function CleanLines(pieces: seq<string>): (r: seq<string>)
    requires forall i :: 0 <= i < |pieces| ==> '\n' !in pieces[i]
    ensures |r| == |pieces| && forall i :: 0 <= i < |r| ==> r[i] == CleanLine(pieces[i])
  {
    seq(|pieces|, i requires 0 <= i < |pieces| => CleanLine(pieces[i]))
  }

  /** Text without a newline gives its cleaned self as the one line, or no line when it is blank. */
  lemma LinesOfOne(piece: string)
    requires '\n' !in piece
    ensures Lines(piece) == if CleanLine(piece) == [] then [] else [CleanLine(piece)]
  {
    BeforeFirstAbsent(piece, '\n');
    assert SplitOn(piece, '\n') == [piece];
  }

  /** The lines of the text after a newline follow the line before it: every non-blank piece is kept, in order. */
  lemma LinesCons(piece: string, rest: string)
    requires '\n' !in piece
    ensures Lines(piece + "\n" + rest) == Lines(piece) + Lines(rest)
  {
    SplitOnCons(piece, '\n', rest);
    LinesOfOne(piece);
    var tail := CleanLines(SplitOn(rest, '\n'));
    CleanLinesCons(piece, SplitOn(rest, '\n'));
    NonEmptyPiecesAppend([CleanLine(piece)], tail);
  }

  lemma CleanLinesCons(piece: string, pieces: seq<string>)
    requires '\n' !in piece && forall i :: 0 <= i < |pieces| ==> '\n' !in pieces[i]
    ensures CleanLines([piece] + pieces) == [CleanLine(piece)] + CleanLines(pieces)
  {
  }

  /** A non-blank line without newlines and without whitespace at either end. */
  predicate IsCleanLine(line: string) {
    line != [] && '\n' !in line && !IsSpace(line[0]) && !IsSpace(line[|line| - 1])
  }

  /** `line.replace(/\s{2,}/g, ' ').trim()`. */
  function CleanLine(piece: string): (line: string)
    requires '\n' !in piece
    ensures line == [] || IsCleanLine(line)
  {
    CleanLineNoNewline(piece);
    Trim(CollapseSpaces(piece, 2))
  }

  lemma {:induction false} CleanLineNoNewline(piece: string)
    requires '\n' !in piece
    ensures var t := Trim(CollapseSpaces(piece, 2)); t == [] || IsCleanLine(t)
  {
    var c := CollapseSpaces(piece, 2);
    assert '\n' !in c by {
      assert forall i :: 0 <= i < |c| ==> c[i] != '\n';
    }
    var t := Trim(c);
    assert '\n' !in t by {
      TrimSlice(c);
      assert forall i :: 0 <= i < |t| ==> t[i] == c[TrimmedFront(c) + i];
    }
  }

  /**
   * A cleaned line keeps every non-whitespace character of its piece, in order, and has no two
   * whitespace characters side by side: each run of two or more became one space.
   */
  lemma CleanLineMeaning(piece: string)
    requires '\n' !in piece
    ensures NonSpace(CleanLine(piece)) == NonSpace(piece)
    ensures NoDoubleSpace(CleanLine(piece))
  {
    var c := CollapseSpaces(piece, 2);
    CollapseKeepsNonSpace(piece, 2);
    TrimKeepsNonSpace(c);
    CollapseNoDoubleSpace(piece, 2);
    TrimSlice(c);
    NoDoubleSpaceSlice(c, TrimmedFront(c), TrimmedFront(c) + |Trim(c)|);
  }

  lemma NoDoubleSpaceSlice(c: string, i: nat, j: nat)
    requires i <= j <= |c| && NoDoubleSpace(c)
    ensures NoDoubleSpace(c[i..j])
  {
    var t := c[i..j];
    assert forall k :: 0 <= k < |t| ==> t[k] == c[i + k];
  }

  /** `lines[i - 1] || ''`, `lines[i]` and `lines[i + 1] || ''`. */
  function WindowAt(lines: seq<string>, i: nat): Window
    requires i < |lines|
  {
    Window(if i > 0 then lines[i - 1] else "", lines[i], if i + 1 < |lines| then lines[i + 1] else "")
  }

  // ---------------------------------------------------------------- times

  /** The explicit-range pre-pass: both ends valid 24-hour times, the range 15 minutes to 6 hours long. */
  function RangeTime(rm: Match): Option<string> {
    var h1 := ParseInt(Cap(rm, 0), false);
    var m1 := ParseInt(Cap(rm, 1), false);
    var h2 := ParseInt(Cap(rm, 2), false);
    var m2 := ParseInt(Cap(rm, 3), false);
    if !IsValidHM(h1, m1, false) || !IsValidHM(h2, m2, false) then None
    else
      var startMins := (if h1.value > 23 then 0 else h1.value) * 60 + m1.value;
      var endMins := (if h2.value > 23 then 0 else h2.value) * 60 + m2.value;
      if endMins <= startMins then None
      else if endMins - startMins < 15 || endMins - startMins > 360 then None
      else Some(ToAmPm(h1.value, m1.value) + " - " + ToAmPm(h2.value, m2.value))
  }

  /** The inline 24-hour to 12-hour conversion of the `hh:mm` and `h.mm` branches. */
  function TwelveHour(hr24: int, min: int): string {
    var ampm := if hr24 >= 12 then "PM" else "AM";
    var hr12 := if hr24 > 12 then hr24 - 12 else if hr24 == 0 then 12 else hr24;
    IntToDecimal(hr12) + ":" + PadTwo(IntToDecimal(min)) + " " + ampm
  }

  /** The normalised time of one pattern match, or `None` when the branch skips it. */
  function NormalizedTime(kind: TimeKind, m: Match, w: Window): Option<string> {
    match kind
    case ClockMeridiemKind =>
      var hr := ParseInt(Cap(m, 0), false);
      var min := ParseInt(Cap(m, 1), false);
      if !IsValidHM(hr, min, true) then None
      else Some(IntToDecimal(hr.value) + ":" + PadTwo(IntToDecimal(min.value)) + " " + Upper(Cap(m, 2)))
    case ClockKind =>
      if Test(HourRange, w.line) then None
      else
        var hr24 := ParseInt(Cap(m, 0), false);
        var min := ParseInt(Cap(m, 1), false);
        if !IsValidHM(hr24, min, false) then None
        else if !HasDayContext(w.Combined()) then None
        else Some(TwelveHour(hr24.value, min.value))
    case HourMeridiemKind =>
      var hr := ParseInt(Cap(m, 0), false);
      if !IsValidHM(hr, Some(0), true) then None
      else Some(IntToDecimal(hr.value) + ":00 " + Upper(Cap(m, 1)))
    case DotClockKind =>
      var hr24 := ParseInt(Cap(m, 0), false);
      var min := ParseInt(Cap(m, 1), false);
      if !IsValidHM(hr24, min, false) then None
      else Some(TwelveHour(hr24.value, min.value))
    case CompactRangeKind =>
      NormalizeDigitsRange(Cap(m, 0), Cap(m, 1))
  }

  // ---------------------------------------------------------------- subject

  /** `words.findIndex(w => w.toLowerCase().includes(keyword))`. */
  function FindWordWith(words: seq<string>, keyword: string): (i: int)
    ensures -1 <= i < |words|
    ensures i >= 0 ==> Contains(Lower(words[i]), keyword)
    ensures forall j :: 0 <= j < |words| && (i == -1 || j < i) ==> !Contains(Lower(words[j]), keyword)
  {
    if words == [] then -1
    else if Contains(Lower(words[0]), keyword) then 0
    else
      var k := FindWordWith(words[1..], keyword);
      if k == -1 then -1 else k + 1
  }

  /** The keyword's word with the words before and after it, stripped of punctuation and trimmed. */
  function KeywordPhrase(words: seq<string>, idx: nat): string
    requires idx < |words|
  {
    var withPrev := if idx > 0 then words[idx - 1] + " " + words[idx] else words[idx];
    var phrase := if idx < |words| - 1 then withPrev + " " + words[idx + 1] else withPrev;
    Trim(Keep(phrase, c => IsWordChar(c) || IsSpace(c)))
  }

  /** The subject given by the first keyword, in list order, that some word of the line contains; `""` when there is none. */
  function KeywordSubject(line: string, keywords: seq<string>): string
    decreases |keywords|
  {
    if keywords == [] then ""
    else if Contains(Lower(line), keywords[0]) && FindWordWith(SplitWords(line), keywords[0]) != -1 then
      KeywordPhrase(SplitWords(line), FindWordWith(SplitWords(line), keywords[0]))
    else KeywordSubject(line, keywords[1..])
  }

  predicate HasAsciiLetter(s: string) {
    exists i :: 0 <= i < |s| && IsAsciiLetter(s[i])
  }

  /** A neighbouring text with day names, clock times and compact ranges removed, then punctuation other than `-`, then trimmed. */
  function CandidateText(s: string): string {
    var noDays := ReplaceAll(DayStrip, s, "");
    var noTimes := ReplaceAll(ClockToken, noDays, "");
    var noRanges := ReplaceAll(CompactRange, noTimes, "");
    Trim(Keep(noRanges, c => IsWordChar(c) || IsSpace(c) || c == '-'))
  }

  /** The non-empty texts, cleaned, that are 2 to 60 characters long. */
  function Candidates(texts: seq<string>): (r: seq<string>)
    ensures forall i :: 0 <= i < |r| ==> 1 < |r[i]| <= 60
  {
    if texts == [] then []
    else
      var rest := Candidates(texts[1..]);
      if texts[0] == [] then rest
      else
        var c := CandidateText(texts[0]);
        if 1 < |c| <= 60 then [c] + rest else rest
  }

  /** One text gives its cleaned form as a candidate exactly when it is non-empty and the cleaned form is 2 to 60 characters long. */
  lemma CandidatesOfOne(t: string)
    ensures Candidates([t]) == if t != [] && 1 < |CandidateText(t)| <= 60 then [CandidateText(t)] else []
  {
    assert [t][1..] == [];
  }

  /** Candidates are taken text by text, in order. */
  lemma {:induction false} CandidatesAppend(a: seq<string>, b: seq<string>)
    ensures Candidates(a + b) == Candidates(a) + Candidates(b)
    decreases |a|
  {
    if a == [] {
      assert a + b == b;
    } else {
      assert (a + b)[1..] == a[1..] + b;
      CandidatesAppend(a[1..], b);
    }
  }

  /** The index of the first candidate holding an ASCII letter, or -1. */
  function FirstLetterIndex(candidates: seq<string>): (i: int)
    ensures -1 <= i < |candidates|
    ensures i >= 0 ==> HasAsciiLetter(candidates[i])
    ensures forall j :: 0 <= j < |candidates| && (i == -1 || j < i) ==> !HasAsciiLetter(candidates[j])
  {
    if candidates == [] then -1
    else if HasAsciiLetter(candidates[0]) then 0
    else
      var k := FirstLetterIndex(candidates[1..]);
      if k == -1 then -1 else k + 1
  }

  /** `candidates.find(c => /[a-zA-Z]/.test(c)) || "Class"`: the first candidate holding an ASCII letter, or `"Class"` when none does. */
  function FirstWithLetter(candidates: seq<string>): (r: string)
    ensures var i := FirstLetterIndex(candidates);
      r == if i == -1 then "Class" else candidates[i]
  {
    if candidates == [] then "Class"
    else if HasAsciiLetter(candidates[0]) then candidates[0]
    else FirstWithLetter(candidates[1..])
  }

  /** The subject before clean-up: the keyword phrase, or else a nearby phrase that is not a day or a time. */
  function RawSubject(w: Window): string {
    var k := KeywordSubject(w.line, SubjectKeywords);
    if k != [] then k else FirstWithLetter(Candidates([w.prev, w.line, w.next]))
  }

  /** Punctuation becomes spaces, whitespace runs collapse to one space, and a result shorter than two characters becomes `"Class"`. */
  function CleanSubject(s: string): (r: string)
    ensures |r| >= 2
    ensures forall i :: 0 <= i < |r| ==> IsWordChar(r[i]) || r[i] == ' '
    ensures !IsSpace(r[0]) && !IsSpace(r[|r| - 1])
  {
    var t := Cleaned(s);
    if |t| < 2 then ClassWord(); "Class" else t
  }

  /** `s.replace(/[^\w\s]/g, ' ').replace(/\s+/g, ' ').trim()`. */
  function Cleaned(s: string): (t: string)
    ensures forall i :: 0 <= i < |t| ==> IsWordChar(t[i]) || t[i] == ' '
    ensures t == [] || (!IsSpace(t[0]) && !IsSpace(t[|t| - 1]))
  {
    var c := Collapsed(s);
    TrimmedWords(c);
    Trim(c)
  }

  lemma {:induction false} TrimmedWords(c: string)
    requires forall i :: 0 <= i < |c| ==> IsWordChar(c[i]) || c[i] == ' '
    ensures forall i :: 0 <= i < |Trim(c)| ==> IsWordChar(Trim(c)[i]) || Trim(c)[i] == ' '
  {
    var t := Trim(c);
    assert forall i :: 0 <= i < |t| ==> t[i] == c[TrimmedFront(c) + i];
  }

  /** Punctuation blanked and whitespace runs collapsed: only word characters and single spaces remain. */
  function Collapsed(s: string): (c: string)
    ensures forall i :: 0 <= i < |c| ==> IsWordChar(c[i]) || c[i] == ' '
  {
    CollapsedChars(s);
    CollapseSpaces(BlankPunctuation(s), 1)
  }

  /** The cleaned subject text is the words of the text, with punctuation blanked, one space apart. */
  lemma CleanedIsWords(s: string)
    ensures Cleaned(s) == Join(TextWords(BlankPunctuation(s)), " ")
  {
    TrimCollapseIsWords(BlankPunctuation(s));
  }

  /** Before the trim, it is the pieces between whitespace runs, one space apart. */
  lemma CollapsedIsJoin(s: string)
    ensures Collapsed(s) == Join(SplitWords(BlankPunctuation(s)), " ")
  {
    CollapseIsJoin(BlankPunctuation(s));
  }

  lemma ClassWord()
    ensures forall i :: 0 <= i < |"Class"| ==> IsAsciiLetter("Class"[i])
  {}

  lemma {:induction false} CollapsedChars(s: string)
    ensures var c := CollapseSpaces(BlankPunctuation(s), 1);
            forall i :: 0 <= i < |c| ==> IsWordChar(c[i]) || c[i] == ' '
  {
    var blanked := BlankPunctuation(s);
    var collapsed := CollapseSpaces(blanked, 1);
    forall i | 0 <= i < |collapsed|
      ensures IsWordChar(collapsed[i]) || collapsed[i] == ' '
    {
      if collapsed[i] != ' ' {
        var j :| 0 <= j < |blanked| && blanked[j] == collapsed[i];
      }
    }
  }

  function SubjectFor(w: Window): string {
    CleanSubject(RawSubject(w))
  }

  /** The subject detection and clean-up run for every accepted time. */
  method InferSubject(w: Window) returns (subject: string)
    ensures subject == SubjectFor(w)
  {
    subject := FindKeywordSubject(w.line, SubjectKeywords);
    if subject == [] {
      var candidates := Candidates([w.prev, w.line, w.next]);
      subject := FirstWithLetter(candidates);
    }
    subject := CleanSubject(subject);
  }

  /** The keyword loop: the first keyword found in the line that some word contains gives the subject. */
  method FindKeywordSubject(line: string, keywords: seq<string>) returns (subject: string)
    ensures subject == KeywordSubject(line, keywords)
  {
    subject := "";
    var lowerLine := Lower(line);
    for k := 0 to |keywords|
      invariant subject == []
      invariant KeywordSubject(line, keywords) == KeywordSubject(line, keywords[k..])
    {
      var keyword := keywords[k];
      assert keywords[k..][1..] == keywords[k + 1..];
      if Contains(lowerLine, keyword) {
        var words := SplitWords(line);
        var idx := FindWordWith(words, keyword);
        if idx != -1 {
          subject := KeywordPhrase(words, idx);
          break;
        }
      }
    }
  }

  // ---------------------------------------------------------------- day

  /** `d.toUpperCase()` for a two-letter hit, otherwise the first letter upper-cased and the rest lower-cased. */
  function FormatDay(d: string): string {
    if |d| <= 2 then Upper(d) else [UpperChar(d[0])] + Lower(d[1..])
  }

  /** Day pattern `k` occurs in `combined`. */
  predicate DayOccurs(k: nat, combined: string)
    requires k < |DayPatterns|
  {
    Test(DayPatterns[k], combined)
  }

  /** The first day pattern at or after `k` that occurs in `combined`. */
  function FirstDayPattern(combined: string, k: nat): (r: Option<nat>)
    ensures r.Some? ==> k <= r.value < |DayPatterns| && DayOccurs(r.value, combined)
    ensures forall j :: k <= j < |DayPatterns| && (r.None? || j < r.value) ==> !DayOccurs(j, combined)
    decreases |DayPatterns| - k
  {
    if k >= |DayPatterns| then None
    else if DayOccurs(k, combined) then Some(k)
    else FirstDayPattern(combined, k + 1)
  }

  /** `dayPatterns.some(dp => dp.test(combinedLine))`. */
  predicate HasDayContext(combined: string) {
    exists k :: 0 <= k < |DayPatterns| && DayOccurs(k, combined)
  }

  /** The first hit of the first day pattern that occurs, formatted; `""` when none occurs. */
  function DayOf(combined: string): string {
    match FirstDayPattern(combined, 0)
    case None => ""
    case Some(k) =>
      var hit := FirstMatch(DayPatterns[k], combined).value;
      FormatDay(combined[hit.start..hit.end])
  }

  /** The day detection run for every accepted time. */
  method InferDay(combined: string) returns (day: string)
    ensures day == DayOf(combined)
  {
    day := "";
    for k := 0 to |DayPatterns|
      invariant day == []
      invariant FirstDayPattern(combined, 0) == FirstDayPattern(combined, k)
    {
      var hit := FirstMatch(DayPatterns[k], combined);
      if hit.Some? {
        var d := combined[hit.value.start..hit.value.end];
        day := if |d| <= 2 then Upper(d) else [UpperChar(d[0])] + Lower(d[1..]);
        break;
      }
    }
  }

  // ---------------------------------------------------------------- entries

  function EntryFor(w: Window, time: string): Entry {
    var day := DayOf(w.Combined());
    Entry(SubjectFor(w), time, if day == [] then "Daily" else day)
  }

  /** The item for an accepted time, nothing for a skipped one. */
  function EntriesOf(w: Window, time: Option<string>): seq<Entry> {
    match time
    case Some(t) => [EntryFor(w, t)]
    case None => []
  }

  /** The items the pre-pass adds for the given range matches, in order. */
  function RangeEntries(w: Window, ms: seq<Match>): seq<Entry>
    decreases |ms|
  {
    if ms == [] then []
    else
      RangeEntries(w, ms[..|ms| - 1])
      + EntriesOf(w, RangeTime(ms[|ms| - 1]))
  }

  /** The items one time pattern adds for the given matches, in order. */
  function KindEntries(w: Window, kind: TimeKind, ms: seq<Match>): seq<Entry>
    decreases |ms|
  {
    if ms == [] then []
    else
      KindEntries(w, kind, ms[..|ms| - 1])
      + EntriesOf(w, NormalizedTime(kind, ms[|ms| - 1], w))
  }

  /** The items the given time patterns add, pattern by pattern. */
  function PatternEntries(w: Window, kinds: seq<TimeKind>): seq<Entry>
    decreases |kinds|
  {
    if kinds == [] then []
    else
      var kind := kinds[|kinds| - 1];
      PatternEntries(w, kinds[..|kinds| - 1]) + KindEntries(w, kind, AllMatches(KindRegex(kind), w.line))
  }

  /** Everything one line contributes: explicit ranges first, then the five patterns. */
  function LineEntries(w: Window): seq<Entry> {
    RangeEntries(w, AllMatches(HourRange, w.line)) + PatternEntries(w, TimeKinds)
  }

  /** The items of the first `n` lines, before de-duplication. */
  function RawSchedule(lines: seq<string>, n: nat): seq<Entry>
    requires n <= |lines|
  {
    if n == 0 then [] else RawSchedule(lines, n - 1) + LineEntries(WindowAt(lines, n - 1))
  }

  /** The sort key `convertTimeToMinutes(item.time)`. */
  function StartMinutes(e: Entry): int {
    ConvertTimeToMinutes(e.time)
  }

  /** What `extractSchedule` returns for `text`. */
  function Extracted(text: string): seq<Entry> {
    if Trim(text) == [] then []
    else
      var lines := Lines(text);
      SortBy(Dedup(RawSchedule(lines, |lines|)), StartMinutes)
  }

  /** The de-duplication pass: an item is kept when no earlier item has the same subject, time and day. */
  method Dedupe(schedule: seq<Entry>) returns (unique: seq<Entry>)
    ensures unique == Dedup(schedule)
  {
    unique := [];
    for i := 0 to |schedule|
      invariant unique == KeepFirst(schedule, i)
    {
      // `findIndex`: scan from the front for the first item equal to this one
      var first := 0;
      while schedule[first] != schedule[i]
        invariant 0 <= first <= i
        invariant forall m :: 0 <= m < first ==> schedule[m] != schedule[i]
        decreases i - first
      {
        first := first + 1;
      }
      assert first == FirstIndex(schedule, schedule[i]);
      if first == i {
        unique := unique + [schedule[i]];
      }
    }
  }

  /** The item for one accepted time: the subject and the day inferred from the window, `"Daily"` when no day is named. */
  method MakeEntry(w: Window, time: string) returns (entry: Entry)
    ensures entry == EntryFor(w, time)
  {
    var subject := InferSubject(w);
    var day := InferDay(w.Combined());
    entry := Entry(subject, time, if day == [] then "Daily" else day);
  }

  /** Adds an item when the time was accepted. */
  method EmitEntries(w: Window, time: Option<string>) returns (entries: seq<Entry>)
    ensures entries == EntriesOf(w, time)
  {
    entries := [];
    if time.Some? {
      var entry := MakeEntry(w, time.value);
      entries := [entry];
    }
  }

  /** The pre-pass over one line's explicit ranges. */
  method ScanRanges(w: Window, rangeMatches: seq<Match>) returns (entries: seq<Entry>)
    ensures entries == RangeEntries(w, rangeMatches)
  {
    entries := [];
    for j := 0 to |rangeMatches|
      invariant entries == RangeEntries(w, rangeMatches[..j])
    {
      RangeEntriesStep(w, rangeMatches, j);
      var timeStr := RangeTime(rangeMatches[j]);
      var more := EmitEntries(w, timeStr);
      entries := entries + more;
    }
    assert rangeMatches[..|rangeMatches|] == rangeMatches;
  }

  /** One more range match adds its own items after those of the matches before it. */
  lemma RangeEntriesStep(w: Window, ms: seq<Match>, j: nat)
    requires j < |ms|
    ensures RangeEntries(w, ms[..j + 1]) == RangeEntries(w, ms[..j]) + EntriesOf(w, RangeTime(ms[j]))
  {
    assert ms[..j + 1][..j] == ms[..j];
  }

  /** One more match of a time pattern adds its own items after those of the matches before it. */
  lemma KindEntriesStep(w: Window, kind: TimeKind, ms: seq<Match>, j: nat)
    requires j < |ms|
    ensures KindEntries(w, kind, ms[..j + 1]) == KindEntries(w, kind, ms[..j]) + EntriesOf(w, NormalizedTime(kind, ms[j], w))
  {
    assert ms[..j + 1][..j] == ms[..j];
  }

  /** One time pattern's pass over one line. */
  method ScanKind(w: Window, kind: TimeKind, matches: seq<Match>) returns (entries: seq<Entry>)
    ensures entries == KindEntries(w, kind, matches)
  {
    entries := [];
    for j := 0 to |matches|
      invariant entries == KindEntries(w, kind, matches[..j])
    {
      KindEntriesStep(w, kind, matches, j);
      var timeStr := NormalizedTime(kind, matches[j], w);
      var more := EmitEntries(w, timeStr);
      entries := entries + more;
    }
    assert matches[..|matches|] == matches;
  }

  /** Everything one line contributes. */
  method ScanLine(w: Window) returns (entries: seq<Entry>)
    ensures entries == LineEntries(w)
  {
    var rangeMatches := AllMatches(HourRange, w.line);
    entries := ScanRanges(w, rangeMatches);
    var more := ScanKinds(w, TimeKinds);
    entries := entries + more;
  }

  /** The given time patterns' passes over one line, in order. */
  method ScanKinds(w: Window, kinds: seq<TimeKind>) returns (entries: seq<Entry>)
    ensures entries == PatternEntries(w, kinds)
  {
    entries := [];
    for p := 0 to |kinds|
      invariant entries == PatternEntries(w, kinds[..p])
    {
      assert kinds[..p + 1][..p] == kinds[..p];
      var matches := AllMatches(KindRegex(kinds[p]), w.line);
      var more := ScanKind(w, kinds[p], matches);
      entries := entries + more;
    }
    assert kinds[..|kinds|] == kinds;
  }

  /** `extractSchedule(text)`. */
  method ExtractSchedule(text: string) returns (schedule: seq<Entry>)
    ensures schedule == Extracted(text)
  {
    if Trim(text) == [] {
      return [];
    }
    var lines := Lines(text);
    var raw: seq<Entry> := [];
    for i := 0 to |lines|
      invariant raw == RawSchedule(lines, i)
    {
      var entries := ScanLine(WindowAt(lines, i));
      raw := raw + entries;
    }
    var unique := Dedupe(raw);
    schedule := SortBy(unique, StartMinutes);
  }

  // ---------------------------------------------------------------- properties

  /** What `CleanSubject` leaves: two or more word characters and single spaces, trimmed. */
  predicate IsSubjectText(s: string) {
    |s| >= 2
    && (forall i :: 0 <= i < |s| ==> IsWordChar(s[i]) || s[i] == ' ')
    && !IsSpace(s[0]) && !IsSpace(s[|s| - 1])
  }

  /** A day pattern's alternative written as the extractor writes a hit of it. */
  ghost predicate IsDayName(d: string) {
    exists k, j :: 0 <= k < |DayPatterns| && 0 <= j < |DayPatterns[k].alternatives|
      && d == FormatDay(DayPatterns[k].alternatives[j])
  }

  /** An item as the extractor emits it: canonical time, cleaned subject, `"Daily"` or a formatted day name. */
  ghost predicate WellFormedEntry(e: Entry) {
    IsCanonicalTime(e.time) && IsSubjectText(e.subject) && (e.day == "Daily" || IsDayName(e.day))
  }

  ghost predicate AllWellFormed(es: seq<Entry>) {
    forall i :: 0 <= i < |es| ==> WellFormedEntry(es[i])
  }

  /** A hit is formatted the same whatever its case, so only the matched alternative decides the day text. */
  lemma FormatDayIgnoresCase(d: string)
    ensures FormatDay(d) == FormatDay(Lower(d))
  {
    var l := Lower(d);
    if |d| <= 2 {
      assert forall i :: 0 <= i < |d| ==> UpperChar(l[i]) == UpperChar(d[i]);
    } else {
      assert UpperChar(l[0]) == UpperChar(d[0]);
      assert l[1..] == Lower(d[1..]);
      assert forall i :: 0 <= i < |d| - 1 ==> LowerChar(l[1..][i]) == LowerChar(d[1..][i]);
    }
  }

  lemma DayPatternsAreWords()
    ensures forall k :: 0 <= k < |DayPatterns| ==> DayPatterns[k].Words?
  {
  }

  /**
   * The day is `""` exactly when no day pattern occurs in the window; otherwise it is the
   * first pattern's hit, formatted, which is one of that pattern's alternatives.
   */
  lemma DayOfFacts(combined: string)
    ensures DayOf(combined) == [] <==> !HasDayContext(combined)
    ensures HasDayContext(combined) ==> IsDayName(DayOf(combined))
  {
    match FirstDayPattern(combined, 0)
    case None =>
    case Some(k) =>
      DayPatternsAreWords();
      var alternatives := DayPatterns[k].alternatives;
      var hit := FirstMatch(DayPatterns[k], combined).value;
      var d := combined[hit.start..hit.end];
      assert WordsAt(combined, hit.start, alternatives) == Some(hit);
      WordsAtShape(combined, hit.start, alternatives);
      assert Lower(d) in alternatives;
      var j :| 0 <= j < |alternatives| && Lower(d) == alternatives[j];
      FormatDayIgnoresCase(d);
      assert |FormatDay(d)| == |d| > 0;
  }

  /** The inline conversion of the `hh:mm` and `h.mm` branches writes the same text as `toAmPm`: the 12-hour reading of the time. */
  lemma TwelveHourIsClock(hr24: int, min: int)
    requires 0 <= hr24 <= 23 && 0 <= min <= 59
    ensures TwelveHour(hr24, min) == ClockOf(hr24, min).Text()
  {
    ToAmPmIsClock(hr24, min);
    assert TwelveHour(hr24, min) == ToAmPm(hr24, min);
  }

  /** An accepted explicit range is written as two canonical times 15 minutes to 6 hours apart. */
  lemma RangeTimeCanonical(rm: Match)
    requires RangeTime(rm).Some?
    ensures IsRangeText(RangeTime(rm).value)
  {
    var h1 := ParseInt(Cap(rm, 0), false).value;
    var m1 := ParseInt(Cap(rm, 1), false).value;
    var h2 := ParseInt(Cap(rm, 2), false).value;
    var m2 := ParseInt(Cap(rm, 3), false).value;
    ToAmPmIsClock(h1, m1);
    ToAmPmIsClock(h2, m2);
    var c1 := ClockOf(h1, m1);
    var c2 := ClockOf(h2, m2);
    assert RangeTime(rm).value == c1.Text() + " - " + c2.Text();
  }

  /**
   * The explicit-range pre-pass accepts a match exactly when both captured times are valid
   * 24-hour times and the end comes 15 minutes to 6 hours after the start, and then writes the
   * two times' 12-hour readings.
   */
  lemma RangeTimeMeaning(rm: Match)
    ensures var h1 := ParseInt(Cap(rm, 0), false); var m1 := ParseInt(Cap(rm, 1), false);
      var h2 := ParseInt(Cap(rm, 2), false); var m2 := ParseInt(Cap(rm, 3), false);
      RangeTime(rm).Some?
      <==> IsValidHM(h1, m1, false) && IsValidHM(h2, m2, false)
           && 15 <= (h2.value * 60 + m2.value) - (h1.value * 60 + m1.value) <= 360
    ensures RangeTime(rm).Some? ==>
      var h1 := ParseInt(Cap(rm, 0), false).value; var m1 := ParseInt(Cap(rm, 1), false).value;
      var h2 := ParseInt(Cap(rm, 2), false).value; var m2 := ParseInt(Cap(rm, 3), false).value;
      0 <= h1 <= 23 && 0 <= m1 <= 59 && 0 <= h2 <= 23 && 0 <= m2 <= 59
      && RangeTime(rm).value == ClockOf(h1, m1).Text() + " - " + ClockOf(h2, m2).Text()
  {
    if RangeTime(rm).Some? {
      var h1 := ParseInt(Cap(rm, 0), false).value;
      var m1 := ParseInt(Cap(rm, 1), false).value;
      var h2 := ParseInt(Cap(rm, 2), false).value;
      var m2 := ParseInt(Cap(rm, 3), false).value;
      ToAmPmIsClock(h1, m1);
      ToAmPmIsClock(h2, m2);
    }
  }

  /** Every time a pattern branch accepts is written in canonical form; the meridiem branches upper-case the captured `am`/`pm`. */
  lemma NormalizedTimeCanonical(kind: TimeKind, m: Match, w: Window)
    requires MatchAt(KindRegex(kind), w.line, m.start) == Some(m)
    requires NormalizedTime(kind, m, w).Some?
    ensures IsCanonicalTime(NormalizedTime(kind, m, w).value)
  {
    match kind
    case ClockMeridiemKind =>
      ClockMeridiemCanonical(m, w);
    case ClockKind =>
      TwelveHourIsClock(ParseInt(Cap(m, 0), false).value, ParseInt(Cap(m, 1), false).value);
    case HourMeridiemKind =>
      HourMeridiemCanonical(m, w);
    case DotClockKind =>
      TwelveHourIsClock(ParseInt(Cap(m, 0), false).value, ParseInt(Cap(m, 1), false).value);
    case CompactRangeKind =>
      NormalizeDigitsRangeIsRange(Cap(m, 0), Cap(m, 1));
  }

  lemma ClockMeridiemCanonical(m: Match, w: Window)
    requires MatchAt(ClockMeridiem, w.line, m.start) == Some(m)
    requires NormalizedTime(ClockMeridiemKind, m, w).Some?
    ensures IsClockText(NormalizedTime(ClockMeridiemKind, m, w).value)
  {
    ClockMeridiemAtShape(w.line, m.start);
    var hr := ParseInt(Cap(m, 0), false).value;
    var min := ParseInt(Cap(m, 1), false).value;
    MeridiemClockText(hr, min, Cap(m, 2));
  }

  /** The `h:mm` text with an upper-cased captured meridiem is the canonical form of that time. */
  lemma MeridiemClockText(hr: int, min: int, mer: string)
    requires 1 <= hr <= 12 && 0 <= min <= 59 && IsMeridiemText(mer)
    ensures IsClockText(IntToDecimal(hr) + ":" + PadTwo(IntToDecimal(min)) + " " + Upper(mer))
  {
    MeridiemUpper(mer);
    var c := ClockTime(hr, min, Lower(mer) == "pm");
    assert c.Valid() && IntToDecimal(hr) + ":" + PadTwo(IntToDecimal(min)) + " " + Upper(mer) == c.Text();
  }

  lemma HourMeridiemCanonical(m: Match, w: Window)
    requires MatchAt(HourMeridiem, w.line, m.start) == Some(m)
    requires NormalizedTime(HourMeridiemKind, m, w).Some?
    ensures IsClockText(NormalizedTime(HourMeridiemKind, m, w).value)
  {
    HourMeridiemAtShape(w.line, m.start);
    MeridiemUpper(Cap(m, 1));
    var hr := ParseInt(Cap(m, 0), false).value;
    var c := ClockTime(hr, 0, Lower(Cap(m, 1)) == "pm");
    var mer := if c.pm then "PM" else "AM";
    assert NormalizedTime(HourMeridiemKind, m, w).value == NatToDecimal(hr) + ":00 " + mer;
    OnTheHour(NatToDecimal(hr), mer);
    assert c.Valid() && NormalizedTime(HourMeridiemKind, m, w).value == c.Text();
  }

  /** `:00` is the minute field of the canonical form for minute 0. */
  lemma OnTheHour(h: string, mer: string)
    ensures h + ":" + PadTwo(NatToDecimal(0)) + " " + mer == h + ":00 " + mer
  {
    assert NatToDecimal(0) == "0";
    assert PadTwo("0") == "00";
  }

  /** A captured meridiem, upper-cased, is `AM` or `PM`. */
  lemma MeridiemUpper(x: string)
    requires IsMeridiemText(x)
    ensures Upper(x) == (if Lower(x) == "pm" then "PM" else "AM")
  {
    assert Lower(x)[0] == LowerChar(x[0]) && Lower(x)[1] == LowerChar(x[1]);
  }

  /** The item for a canonical time is well formed. */
  lemma EntryWellFormed(w: Window, time: string)
    requires IsCanonicalTime(time)
    ensures WellFormedEntry(EntryFor(w, time))
  {
    DayOfFacts(w.Combined());
  }

  /** Well-formedness survives concatenation. */
  lemma AllWellFormedAppend(a: seq<Entry>, b: seq<Entry>)
    requires AllWellFormed(a) && AllWellFormed(b)
    ensures AllWellFormed(a + b)
  {
    forall i | 0 <= i < |a + b|
      ensures WellFormedEntry((a + b)[i])
    {
      if i >= |a| {
        assert (a + b)[i] == b[i - |a|];
      }
    }
  }

  /** The item an accepted range match adds, if any, is well formed. */
  lemma RangeEntryWellFormed(w: Window, m: Match)
    ensures AllWellFormed(EntriesOf(w, RangeTime(m)))
  {
    var t := RangeTime(m);
    if t.Some? {
      RangeTimeCanonical(m);
      EntryWellFormed(w, t.value);
    }
  }

  lemma {:induction false} RangeEntriesWellFormed(w: Window, ms: seq<Match>)
    ensures AllWellFormed(RangeEntries(w, ms))
    decreases |ms|
  {
    if ms != [] {
      RangeEntriesWellFormed(w, ms[..|ms| - 1]);
      RangeEntryWellFormed(w, ms[|ms| - 1]);
      AllWellFormedAppend(RangeEntries(w, ms[..|ms| - 1]), EntriesOf(w, RangeTime(ms[|ms| - 1])));
    }
  }

  /** The item a pattern match adds, if any, is well formed. */
  lemma KindEntryWellFormed(w: Window, kind: TimeKind, m: Match)
    requires MatchAt(KindRegex(kind), w.line, m.start) == Some(m)
    ensures AllWellFormed(EntriesOf(w, NormalizedTime(kind, m, w)))
  {
    var t := NormalizedTime(kind, m, w);
    if t.Some? {
      NormalizedTimeCanonical(kind, m, w);
      EntryWellFormed(w, t.value);
    }
  }

  lemma {:induction false} KindEntriesWellFormed(w: Window, kind: TimeKind, ms: seq<Match>)
    requires forall i :: 0 <= i < |ms| ==> MatchAt(KindRegex(kind), w.line, ms[i].start) == Some(ms[i])
    ensures AllWellFormed(KindEntries(w, kind, ms))
    decreases |ms|
  {
    if ms != [] {
      var init := ms[..|ms| - 1];
      assert forall i :: 0 <= i < |init| ==> init[i] == ms[i];
      KindEntriesWellFormed(w, kind, init);
      KindEntryWellFormed(w, kind, ms[|ms| - 1]);
      AllWellFormedAppend(KindEntries(w, kind, init), EntriesOf(w, NormalizedTime(kind, ms[|ms| - 1], w)));
    }
  }

  lemma {:induction false} PatternEntriesWellFormed(w: Window, kinds: seq<TimeKind>)
    ensures AllWellFormed(PatternEntries(w, kinds))
    decreases |kinds|
  {
    if kinds != [] {
      PatternEntriesWellFormed(w, kinds[..|kinds| - 1]);
      var kind := kinds[|kinds| - 1];
      KindEntriesWellFormed(w, kind, AllMatches(KindRegex(kind), w.line));
    }
  }

  /** Every item a line contributes is well formed. */
  lemma LineEntriesWellFormed(w: Window)
    ensures AllWellFormed(LineEntries(w))
  {
    RangeEntriesWellFormed(w, AllMatches(HourRange, w.line));
    PatternEntriesWellFormed(w, TimeKinds);
  }

  lemma {:induction false} RawScheduleWellFormed(lines: seq<string>, n: nat)
    requires n <= |lines|
    ensures AllWellFormed(RawSchedule(lines, n))
  {
    if n > 0 {
      RawScheduleWellFormed(lines, n - 1);
      LineEntriesWellFormed(WindowAt(lines, n - 1));
    }
  }

  /**
   * A bare `hh:mm` time is accepted only on a line without an `hh:mm - hh:mm` shape (even one
   * the pre-pass rejected) and when a day pattern occurs in the window, so its item always
   * carries a day name and never `"Daily"`'s default.
   */
  lemma BareClockNeedsDay(m: Match, w: Window)
    requires NormalizedTime(ClockKind, m, w).Some?
    ensures !Test(HourRange, w.line) && HasDayContext(w.Combined())
    ensures var e := EntryFor(w, NormalizedTime(ClockKind, m, w).value);
      e.day == DayOf(w.Combined()) && IsDayName(e.day)
  {
    DayOfFacts(w.Combined());
  }

  /** The sort key of a well-formed item is a minute of the day. */
  lemma StartMinutesInDay(e: Entry)
    requires WellFormedEntry(e)
    ensures 0 <= StartMinutes(e) < 24 * 60
  {
    var c := ConvertCanonicalStart(e.time);
  }

  /**
   * What `extractSchedule` promises: nothing for blank text; otherwise the first occurrences of
   * the items the lines produce, each once, well formed, in non-decreasing order of start time.
   */
  lemma ExtractedProperties(text: string)
    ensures Trim(text) == [] ==> Extracted(text) == []
    ensures NoDuplicates(Extracted(text))
    ensures SortedBy(Extracted(text), StartMinutes)
    ensures AllWellFormed(Extracted(text))
    ensures var lines := Lines(text);
      Trim(text) != [] ==> multiset(Extracted(text)) == multiset(Dedup(RawSchedule(lines, |lines|)))
  {
    if Trim(text) != [] {
      var lines := Lines(text);
      var raw := RawSchedule(lines, |lines|);
      var unique := Dedup(raw);
      var r := Extracted(text);
      assert r == SortBy(unique, StartMinutes);
      DedupKeepsFirstOccurrences(raw);
      PermutationKeepsDistinct(unique, r);
      RawScheduleWellFormed(lines, |lines|);
      SortedUniqueWellFormed(raw);
    }
  }

  lemma SortedUniqueWellFormed(raw: seq<Entry>)
    requires AllWellFormed(raw)
    ensures AllWellFormed(SortBy(Dedup(raw), StartMinutes))
  {
    var unique := Dedup(raw);
    DedupKeepsFirstOccurrences(raw);
    assert AllWellFormed(unique) by {
      forall k | 0 <= k < |unique|
        ensures WellFormedEntry(unique[k])
      {
        var j :| 0 <= j < |raw| && raw[j] == unique[k];
      }
    }
    PermutationWellFormed(unique, SortBy(unique, StartMinutes));
  }

  /** Reordering keeps every item well formed. */
  lemma PermutationWellFormed(a: seq<Entry>, b: seq<Entry>)
    requires AllWellFormed(a) && multiset(a) == multiset(b)
    ensures AllWellFormed(b)
  {
    forall i | 0 <= i < |b|
      ensures WellFormedEntry(b[i])
    {
      assert b[i] in multiset(a);
      var k :| 0 <= k < |a| && a[k] == b[i];
    }
  }
}
