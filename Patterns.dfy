/**
 * The regular expressions of the schedule extractor and the reminder loop, each written out
 * as a deterministic matcher that follows the regex engine's backtracking order, plus the
 * global-flag iteration behind `matchAll`, `test`, `match` and `replace`.
 */
module Patterns {
  import opened Wrappers
  import opened JsText

  /** One match: `s[start..end]` is `m[0]`, and `groups` holds `m[1]`, `m[2]`, ... */
  datatype Match = Match(start: nat, end: nat, groups: seq<string>)

  /** The capture `m[i + 1]`, or `""` when there is none. */
  function Cap(m: Match, i: nat): string {
    if i < |m.groups| then m.groups[i] else ""
  }

  datatype Regex =
      /** `(\d{1,2}):(\d{2})\s*(?:-|–|to)\s*(\d{1,2}):(\d{2})`, case-insensitive */
    | HourRange
      /** `(\d{1,2}):(\d{2})\s*(AM|PM)`, case-insensitive */
    | ClockMeridiem
      /** `(\d{1,2}):(\d{2})` */
    | Clock
      /** `(\d{1,2})\s*(AM|PM)`, case-insensitive */
    | HourMeridiem
      /** `(\d{1,2})\.(\d{2})` */
    | DotClock
      /** `\b(\d{3,4})\s*-\s*(\d{3,4})\b` */
    | CompactRange
      /** `\b(w1|w2|...)\b`, case-insensitive; the alternatives are given in lower case */
    | Words(alternatives: seq<string>)
      /** `\b\d{1,2}[:\.][\d]{2}\s*(AM|PM)?\b`, case-insensitive (no capture is used) */
    | ClockToken

  /** The first index at or after `p` that is not whitespace: where a greedy `\s*` stops. */
  function SkipSpaces(s: string, p: nat): (q: nat)
    requires p <= |s|
    ensures p <= q <= |s|
    ensures q == |s| || !IsSpace(s[q])
    ensures forall i :: p <= i < q ==> IsSpace(s[i])
    decreases |s| - p
  {
    if p < |s| && IsSpace(s[p]) then SkipSpaces(s, p + 1) else p
  }

  predicate DigitAt(s: string, i: nat) {
    i < |s| && IsDigit(s[i])
  }

  predicate DigitsAt(s: string, p: nat, n: nat) {
    p + n <= |s| && forall i :: p <= i < p + n ==> IsDigit(s[i])
  }

  /** The lower-case word `w` occurs at `p`, ignoring ASCII case. */
  predicate CiAt(s: string, p: nat, w: string) {
    p + |w| <= |s| && Lower(s[p..p + |w|]) == w
  }

  /** `AM|PM` at `p`, ignoring case. */
  predicate MeridiemAt(s: string, p: nat) {
    p + 2 <= |s| && (LowerChar(s[p]) == 'a' || LowerChar(s[p]) == 'p') && LowerChar(s[p + 1]) == 'm'
  }

  /** `\b` at `p`: exactly one of the characters around `p` is a word character. */
  predicate Boundary(s: string, p: nat) {
    (0 < p <= |s| && IsWordChar(s[p - 1])) != (p < |s| && IsWordChar(s[p]))
  }

  /** The characters allowed between the hour and the minute of a clock time. */
  datatype Seps = Colon | Dot | ColonOrDot

  predicate SepChar(c: char, seps: Seps) {
    match seps
    case Colon => c == ':'
    case Dot => c == '.'
    case ColonOrDot => c == ':' || c == '.'
  }

  /**
   * `(\d{1,2})` followed by one of the characters in `seps`: the index of that character.
   * Two digits are tried first; when they succeed the one-digit alternative cannot,
   * because its separator would be a digit, so no later failure can revive it.
   */
  function HourThen(s: string, p: nat, seps: Seps): (r: Option<nat>)
    ensures r.Some? ==> (r.value == p + 1 || r.value == p + 2) && r.value < |s| && SepChar(s[r.value], seps)
    ensures r.Some? ==> forall i :: p <= i < r.value ==> IsDigit(s[i])
  {
    if DigitAt(s, p) && DigitAt(s, p + 1) && p + 2 < |s| && SepChar(s[p + 2], seps) then Some(p + 2)
    else if DigitAt(s, p) && p + 1 < |s| && SepChar(s[p + 1], seps) then Some(p + 1)
    else None
  }

  /** `\d{n}`, a character of `seps` and `\d{2}` at `p`. */
  predicate ClockDigitsAt(s: string, p: nat, n: nat, seps: Seps) {
    DigitsAt(s, p, n) && p + n < |s| && SepChar(s[p + n], seps) && DigitsAt(s, p + n + 1, 2)
  }

  /** `s[i..j]` is whitespace only. */
  predicate SpacesOnly(s: string, i: nat, j: nat) {
    i <= j <= |s| && forall k :: i <= k < j ==> IsSpace(s[k])
  }

  /** At `p`: the hour group (one or two digits), a character of `seps`, then the two-digit minute group. */
  predicate ClockShapeAt(s: string, p: nat, seps: Seps, hour: string, minute: string) {
    1 <= |hour| <= 2 && |minute| == 2 && AllDigits(hour) && AllDigits(minute)
    && p + |hour| + 3 <= |s| && s[p..p + |hour|] == hour && SepChar(s[p + |hour|], seps)
    && s[p + |hour| + 1..p + |hour| + 3] == minute
  }

  /** `(?:-|–|to)` at `q`, ignoring case: where it ends. */
  function SepEnd(s: string, q: nat): (r: Option<nat>)
    ensures r.Some? ==> q < r.value <= |s|
  {
    if q < |s| && (s[q] == '-' || s[q] == '\U{2013}') then Some(q + 1)
    else if CiAt(s, q, "to") then Some(q + 2)
    else None
  }

  /** `\s*(?:-|–|to)\s*` takes exactly `s[i..j]`. */
  predicate RangeJoin(s: string, i: nat, j: nat)
    requires i <= |s|
  {
    var a := SepEnd(s, SkipSpaces(s, i));
    a.Some? && SkipSpaces(s, a.value) == j
  }

  /** `\s*-\s*` takes exactly `s[i..j]`. */
  predicate DashJoin(s: string, i: nat, j: nat)
    requires i <= |s|
  {
    var q := SkipSpaces(s, i);
    q < |s| && s[q] == '-' && SkipSpaces(s, q + 1) == j
  }

  /** `\s*(AM|PM)?` takes exactly `s[i..j]`. */
  predicate TokenTailShape(s: string, i: nat, j: nat) {
    SpacesOnly(s, i, j) || (i + 2 <= j && SpacesOnly(s, i, j - 2) && MeridiemAt(s, j - 2))
  }

  /** The alternative `w` of a `\b(w1|w2|...)\b` pattern fits at `p`. */
  predicate WordFits(s: string, p: nat, w: string) {
    w != [] && Boundary(s, p) && CiAt(s, p, w) && Boundary(s, p + |w|)
  }

  /** What the text of a match of `re` is made of: its captures, laid out as the pattern lays them out. */
  predicate Shaped(re: Regex, s: string, m: Match) {
    match re
    case HourRange => HourRangeShape(s, m)
    case ClockMeridiem => ClockMeridiemShape(s, m)
    case Clock => HourMinuteShape(s, m, Colon)
    case HourMeridiem => HourMeridiemShape(s, m)
    case DotClock => HourMinuteShape(s, m, Dot)
    case CompactRange => CompactRangeShape(s, m)
    case Words(alternatives) => WordsShape(s, m, alternatives)
    case ClockToken => ClockTokenShape(s, m)
  }

  /** Hour, `:`, minute; the separator; hour, `:`, minute. */
  predicate HourRangeShape(s: string, m: Match) {
    var g := m.groups;
    m.start < m.end <= |s| && |g| == 4 && ClockShapeAt(s, m.start, Colon, g[0], g[1]) && |g[2]| + 3 <= m.end
    && ClockShapeAt(s, m.end - |g[2]| - 3, Colon, g[2], g[3])
    && RangeJoin(s, m.start + |g[0]| + 3, m.end - |g[2]| - 3)
  }

  /** Hour, `:`, minute, whitespace, then `AM` or `PM` in any case. */
  predicate ClockMeridiemShape(s: string, m: Match) {
    var g := m.groups;
    m.start < m.end <= |s| && |g| == 3 && ClockShapeAt(s, m.start, Colon, g[0], g[1]) && IsMeridiemText(g[2])
    && 2 <= m.end && s[m.end - 2..m.end] == g[2] && SpacesOnly(s, m.start + |g[0]| + 3, m.end - 2)
  }

  /** Hour, `sep`, minute, and nothing more. */
  predicate HourMinuteShape(s: string, m: Match, sep: Seps) {
    var g := m.groups;
    m.start < m.end <= |s| && |g| == 2 && ClockShapeAt(s, m.start, sep, g[0], g[1]) && m.end == m.start + |g[0]| + 3
  }

  /** One or two hour digits, whitespace, then `AM` or `PM` in any case. */
  predicate HourMeridiemShape(s: string, m: Match) {
    var g := m.groups;
    m.start < m.end <= |s| && |g| == 2 && 1 <= |g[0]| <= 2 && AllDigits(g[0]) && m.start + |g[0]| <= |s|
    && s[m.start..m.start + |g[0]|] == g[0] && IsMeridiemText(g[1])
    && 2 <= m.end && s[m.end - 2..m.end] == g[1] && SpacesOnly(s, m.start + |g[0]|, m.end - 2)
  }

  /** Three or four digits, `-` between optional whitespace, three or four digits, with word boundaries around. */
  predicate CompactRangeShape(s: string, m: Match) {
    var g := m.groups;
    m.start < m.end <= |s| && |g| == 2 && 3 <= |g[0]| <= 4 && 3 <= |g[1]| <= 4 && AllDigits(g[0]) && AllDigits(g[1])
    && m.start + |g[0]| <= |s| && s[m.start..m.start + |g[0]|] == g[0]
    && |g[1]| <= m.end && s[m.end - |g[1]|..m.end] == g[1]
    && Boundary(s, m.start) && Boundary(s, m.end) && DashJoin(s, m.start + |g[0]|, m.end - |g[1]|)
  }

  /** One of the alternatives, ignoring case, with word boundaries around; the group is the matched text. */
  predicate WordsShape(s: string, m: Match, alternatives: seq<string>) {
    var g := m.groups;
    m.start < m.end <= |s| && |g| == 1 && g[0] == s[m.start..m.end] && Lower(g[0]) in alternatives
    && Boundary(s, m.start) && Boundary(s, m.end)
  }

  /** A clock time with `:` or `.`, optional whitespace and meridiem, with word boundaries around; no groups. */
  predicate ClockTokenShape(s: string, m: Match) {
    m.start < m.end <= |s| && m.groups == [] && Boundary(s, m.start) && Boundary(s, m.end)
    && exists n :: 1 <= n <= 2 && ClockDigitsAt(s, m.start, n, ColonOrDot) && TokenTailShape(s, m.start + n + 3, m.end)
  }

  /** `AM` or `PM` at `q` is a meridiem text. */
  lemma MeridiemText(s: string, q: nat)
    requires MeridiemAt(s, q)
    ensures IsMeridiemText(s[q..q + 2])
  {
    var x := s[q..q + 2];
    assert x[0] == s[q] && x[1] == s[q + 1];
    assert Lower(x) == [LowerChar(s[q]), LowerChar(s[q + 1])];
  }

  /** `n` digits at `p` are an all-digit slice of length `n`. */
  lemma DigitsSlice(s: string, p: nat, n: nat)
    requires DigitsAt(s, p, n)
    ensures |s[p..p + n]| == n && AllDigits(s[p..p + n])
  {
    assert forall i :: p <= i < p + n ==> s[p..p + n][i - p] == s[i];
  }

  /** When the separators hold no digit, the hour has only one possible length. */
  lemma HourThenUnique(s: string, p: nat, seps: Seps)
    ensures forall n :: 1 <= n <= 2 && DigitsAt(s, p, n) && p + n < |s| && SepChar(s[p + n], seps) ==> HourThen(s, p, seps) == Some(p + n)
  {
  }

  /** A successful `(\d{1,2})`, separator and `\d{2}` gives the clock layout with its two groups. */
  lemma ClockShapeOf(s: string, p: nat, c: nat, seps: Seps)
    requires HourThen(s, p, seps) == Some(c) && DigitsAt(s, c + 1, 2)
    ensures 1 <= c - p <= 2 && ClockDigitsAt(s, p, c - p, seps)
    ensures ClockShapeAt(s, p, seps, s[p..c], s[c + 1..c + 3])
  {
    DigitsSlice(s, p, c - p);
    DigitsSlice(s, c + 1, 2);
  }

  /** `(\d{1,2}):(\d{2})\s*(?:-|–|to)\s*(\d{1,2}):(\d{2})`, case-insensitive. */
  function HourRangeAt(s: string, p: nat): (r: Option<Match>)
    ensures r.Some? ==> r.value.start == p < r.value.end <= |s| && |r.value.groups| == 4
  {
    match HourMinuteAt(s, p, Colon)
    case None => None
    case Some(a) =>
      var afterSep := SepEnd(s, SkipSpaces(s, a.end));
      if afterSep.None? then None
      else
        var q := SkipSpaces(s, afterSep.value);
        match HourMinuteAt(s, q, Colon)
        case None => None
        case Some(b) => Some(Match(p, b.end, [a.groups[0], a.groups[1], b.groups[0], b.groups[1]]))
  }

  /** An hour range is two clock times joined by the separator; none is found only when no such text starts at `p`. */
  lemma HourRangeAtShape(s: string, p: nat)
    ensures HourRangeAt(s, p).Some? ==> HourRangeShape(s, HourRangeAt(s, p).value)
    ensures HourRangeAt(s, p).None? ==> forall n :: 1 <= n <= 2 ==> !ClockDigitsAt(s, p, n, Colon) || !RangeTail(s, p + n + 3)
  {
    if HourRangeAt(s, p).Some? {
      HourMinuteAtShape(s, p, Colon);
      var a := HourMinuteAt(s, p, Colon).value;
      var q := SkipSpaces(s, SepEnd(s, SkipSpaces(s, a.end)).value);
      HourMinuteAtShape(s, q, Colon);
      var b := HourMinuteAt(s, q, Colon).value;
      HourRangeJoin(s, a, b);
    } else {
      HourRangeAtNone(s, p);
    }
  }

  /** When no hour range starts at `p`, every way of reading a first clock time there fails to be followed by the separator and a second one. */
  lemma HourRangeAtNone(s: string, p: nat)
    requires HourRangeAt(s, p).None?
    ensures forall n :: 1 <= n <= 2 ==> !ClockDigitsAt(s, p, n, Colon) || !RangeTail(s, p + n + 3)
  {
    HourMinuteAtShape(s, p, Colon);
    forall n | 1 <= n <= 2 && ClockDigitsAt(s, p, n, Colon)
      ensures !RangeTail(s, p + n + 3)
    {
      var a := HourMinuteAt(s, p, Colon).value;
      assert a.end == p + n + 3;
      var afterSep := SepEnd(s, SkipSpaces(s, a.end));
      if afterSep.Some? {
        HourMinuteAtShape(s, SkipSpaces(s, afterSep.value), Colon);
      }
    }
  }

  /** Two clock times joined by `\s*(?:-|–|to)\s*` make the layout of an hour range. */
  lemma HourRangeJoin(s: string, a: Match, b: Match)
    requires HourMinuteShape(s, a, Colon) && HourMinuteShape(s, b, Colon)
    requires RangeJoin(s, a.end, b.start)
    ensures HourRangeShape(s, Match(a.start, b.end, [a.groups[0], a.groups[1], b.groups[0], b.groups[1]]))
  {
  }

  /** After the first time of a range ends at `i`: the separator and a second `\d{1,2}:\d{2}`. */
  predicate RangeTail(s: string, i: nat) {
    i <= |s|
    && var a := SepEnd(s, SkipSpaces(s, i));
       a.Some? && var j := SkipSpaces(s, a.value);
       (ClockDigitsAt(s, j, 1, Colon) || ClockDigitsAt(s, j, 2, Colon))
  }

  /** `(\d{1,2}):(\d{2})\s*(AM|PM)`, case-insensitive. */
  function ClockMeridiemAt(s: string, p: nat): (r: Option<Match>)
    ensures r.Some? ==> r.value.start == p < r.value.end <= |s| && |r.value.groups| == 3
  {
    match HourThen(s, p, Colon)
    case None => None
    case Some(c) =>
      if !DigitsAt(s, c + 1, 2) then None
      else
        if MeridiemAt(s, SkipSpaces(s, c + 3)) then Some(ClockMeridiemMatch(s, p, c))
        else None
  }

  /** The match of a clock time whose separator is at `c`, then whitespace and a meridiem, with hour, minute and meridiem as groups. */
  function ClockMeridiemMatch(s: string, p: nat, c: nat): (m: Match)
    requires p < c && c + 3 <= |s| && MeridiemAt(s, SkipSpaces(s, c + 3))
    ensures m.start == p < m.end <= |s| && |m.groups| == 3
  {
    var q := SkipSpaces(s, c + 3);
    Match(p, q + 2, [s[p..c], s[c + 1..c + 3], s[q..q + 2]])
  }

  /** A clock time with a meridiem has that layout; none is found only when no such text starts at `p`. */
  lemma ClockMeridiemAtShape(s: string, p: nat)
    ensures ClockMeridiemAt(s, p).Some? ==> ClockMeridiemShape(s, ClockMeridiemAt(s, p).value)
    ensures ClockMeridiemAt(s, p).None? ==>
      forall n :: 1 <= n <= 2 ==> !ClockDigitsAt(s, p, n, Colon) || !MeridiemAt(s, SkipSpaces(s, p + n + 3))
  {
    HourThenUnique(s, p, Colon);
    var c := HourThen(s, p, Colon);
    if c.Some? && DigitsAt(s, c.value + 1, 2) {
      var q := SkipSpaces(s, c.value + 3);
      if MeridiemAt(s, q) {
        ClockMeridiemShapeOf(s, p, c.value);
      }
    }
  }

  /** The clock time that `HourThen` found at `p`, then whitespace and a meridiem, has the layout of a `ClockMeridiem` match. */
  lemma ClockMeridiemShapeOf(s: string, p: nat, c: nat)
    requires HourThen(s, p, Colon) == Some(c) && DigitsAt(s, c + 1, 2) && MeridiemAt(s, SkipSpaces(s, c + 3))
    ensures ClockMeridiemShape(s, ClockMeridiemMatch(s, p, c))
  {
    ClockShapeOf(s, p, c, Colon);
    MeridiemText(s, SkipSpaces(s, c + 3));
  }

  /** `(\d{1,2}):(\d{2})` when `sep` is `:`, and `(\d{1,2})\.(\d{2})` when it is `.`. */
  function HourMinuteAt(s: string, p: nat, sep: Seps): (r: Option<Match>)
    ensures r.Some? ==> r.value.start == p < r.value.end <= |s| && |r.value.groups| == 2
  {
    match HourThen(s, p, sep)
    case None => None
    case Some(c) =>
      if DigitsAt(s, c + 1, 2) then Some(Match(p, c + 3, [s[p..c], s[c + 1..c + 3]]))
      else None
  }

  /** A clock time is hour, separator, minute; it is missing exactly when no such text starts at `p`, and its hour length is the only one that fits. */
  lemma HourMinuteAtShape(s: string, p: nat, sep: Seps)
    ensures HourMinuteAt(s, p, sep).Some? ==> HourMinuteShape(s, HourMinuteAt(s, p, sep).value, sep)
    ensures HourMinuteAt(s, p, sep).None? <==> forall n :: 1 <= n <= 2 ==> !ClockDigitsAt(s, p, n, sep)
    ensures HourMinuteAt(s, p, sep).Some? ==>
      forall n :: 1 <= n <= 2 && ClockDigitsAt(s, p, n, sep) ==> HourMinuteAt(s, p, sep).value.end == p + n + 3
  {
    HourThenUnique(s, p, sep);
    var c := HourThen(s, p, sep);
    if c.Some? && DigitsAt(s, c.value + 1, 2) {
      ClockShapeOf(s, p, c.value, sep);
    }
  }

  /** `(\d{1,2})\s*(AM|PM)`: two hour digits are tried first, then one. */
  function HourMeridiemAt(s: string, p: nat): (r: Option<Match>)
    ensures r.Some? ==> r.value.start == p < r.value.end <= |s| && |r.value.groups| == 2
  {
    if HourMeridiemFits(s, p, 2) then Some(HourMeridiemMatch(s, p, 2))
    else if HourMeridiemFits(s, p, 1) then Some(HourMeridiemMatch(s, p, 1))
    else None
  }

  /** `\d{n}\s*(AM|PM)` at `p`. */
  predicate HourMeridiemFits(s: string, p: nat, n: nat) {
    DigitsAt(s, p, n) && MeridiemAt(s, SkipSpaces(s, p + n))
  }

  /** The match `HourMeridiemFits(s, p, n)` describes, with the hour and the meridiem as groups. */
  function HourMeridiemMatch(s: string, p: nat, n: nat): (m: Match)
    requires HourMeridiemFits(s, p, n)
    ensures m.start == p < m.end <= |s| && |m.groups| == 2 && |m.groups[0]| == n
  {
    var q := SkipSpaces(s, p + n);
    Match(p, q + 2, [s[p..p + n], s[q..q + 2]])
  }

  /** A fitting hour and meridiem give the layout of an `HourMeridiem` match. */
  lemma HourMeridiemMatchShape(s: string, p: nat, n: nat)
    requires 1 <= n <= 2 && HourMeridiemFits(s, p, n)
    ensures HourMeridiemShape(s, HourMeridiemMatch(s, p, n))
  {
    DigitsSlice(s, p, n);
    MeridiemText(s, SkipSpaces(s, p + n));
  }

  /** An hour with a meridiem has that layout, takes two digits whenever two fit, and is missing only when neither length fits. */
  lemma HourMeridiemAtShape(s: string, p: nat)
    ensures HourMeridiemAt(s, p).Some? ==> HourMeridiemShape(s, HourMeridiemAt(s, p).value)
    ensures HourMeridiemAt(s, p).Some? && DigitsAt(s, p, 2) && MeridiemAt(s, SkipSpaces(s, p + 2)) ==>
      |HourMeridiemAt(s, p).value.groups[0]| == 2
    ensures HourMeridiemAt(s, p).None? <==> forall n :: 1 <= n <= 2 ==> !DigitsAt(s, p, n) || !MeridiemAt(s, SkipSpaces(s, p + n))
  {
    if HourMeridiemFits(s, p, 2) {
      HourMeridiemMatchShape(s, p, 2);
    } else if HourMeridiemFits(s, p, 1) {
      HourMeridiemMatchShape(s, p, 1);
    }
  }

  /** `\b(\d{3,4})\s*-\s*(\d{3,4})\b`: four leading digits are tried before three. */
  function CompactRangeAt(s: string, p: nat): (r: Option<Match>)
    ensures r.Some? ==> r.value.start == p < r.value.end <= |s| && |r.value.groups| == 2
  {
    if !Boundary(s, p) then None
    else
      match CompactRangeFrom(s, p, 4)
      case Some(m) => Some(m)
      case None => CompactRangeFrom(s, p, 3)
  }

  /** A compact range has that layout and is missing exactly when no digit counts fit. */
  lemma CompactRangeAtShape(s: string, p: nat)
    ensures CompactRangeAt(s, p).Some? ==> CompactRangeShape(s, CompactRangeAt(s, p).value)
    ensures CompactRangeAt(s, p).None? <==> forall n1, n2 :: 3 <= n1 <= 4 && 3 <= n2 <= 4 ==> !CompactFits(s, p, n1, n2)
  {
    CompactRangeFromShape(s, p, 4);
    CompactRangeFromShape(s, p, 3);
  }

  /** `\b\d{n1}\s*-\s*\d{n2}\b` at `p`. */
  predicate CompactFits(s: string, p: nat, n1: nat, n2: nat) {
    Boundary(s, p) && DigitsAt(s, p, n1)
    && var q := SkipSpaces(s, p + n1);
       q < |s| && s[q] == '-'
       && var r := SkipSpaces(s, q + 1);
          DigitsAt(s, r, n2) && Boundary(s, r + n2)
  }

  /** The rest of `CompactRange` once the first group has taken `n1` digits; the second group tries four digits, then three. */
  function CompactRangeFrom(s: string, p: nat, n1: nat): (r: Option<Match>)
    requires 3 <= n1 <= 4
    ensures r.Some? ==> r.value.start == p < r.value.end <= |s| && |r.value.groups| == 2
  {
    if CompactFits(s, p, n1, 4) then Some(CompactMatch(s, p, n1, 4))
    else if CompactFits(s, p, n1, 3) then Some(CompactMatch(s, p, n1, 3))
    else None
  }

  /** The match found after `n1` leading digits has that layout and is missing exactly when neither second length fits. */
  lemma CompactRangeFromShape(s: string, p: nat, n1: nat)
    requires 3 <= n1 <= 4
    ensures CompactRangeFrom(s, p, n1).Some? ==>
      CompactRangeShape(s, CompactRangeFrom(s, p, n1).value) && |CompactRangeFrom(s, p, n1).value.groups[0]| == n1
    ensures CompactRangeFrom(s, p, n1).None? <==> forall n2 :: 3 <= n2 <= 4 ==> !CompactFits(s, p, n1, n2)
  {
    if CompactFits(s, p, n1, 4) {
      CompactMatchShape(s, p, n1, 4);
    } else if CompactFits(s, p, n1, 3) {
      CompactMatchShape(s, p, n1, 3);
    }
  }

  /** The match `CompactFits(s, p, n1, n2)` describes, with its two digit groups. */
  function CompactMatch(s: string, p: nat, n1: nat, n2: nat): (m: Match)
    requires 3 <= n1 <= 4 && 3 <= n2 <= 4 && CompactFits(s, p, n1, n2)
    ensures m.start == p < m.end <= |s| && |m.groups| == 2 && |m.groups[0]| == n1 && |m.groups[1]| == n2
  {
    var r := SkipSpaces(s, SkipSpaces(s, p + n1) + 1);
    Match(p, r + n2, [s[p..p + n1], s[r..r + n2]])
  }

  /** Fitting digit counts give the layout of a `CompactRange` match. */
  lemma CompactMatchShape(s: string, p: nat, n1: nat, n2: nat)
    requires 3 <= n1 <= 4 && 3 <= n2 <= 4 && CompactFits(s, p, n1, n2)
    ensures CompactRangeShape(s, CompactMatch(s, p, n1, n2))
  {
    DigitsSlice(s, p, n1);
    DigitsSlice(s, SkipSpaces(s, SkipSpaces(s, p + n1) + 1), n2);
  }

  /** `\b(w1|w2|...)\b`: the first alternative, in order, that is followed by a word boundary. */
  function WordsAt(s: string, p: nat, alternatives: seq<string>): (r: Option<Match>)
    ensures r.Some? ==> r.value.start == p < r.value.end <= |s| && |r.value.groups| == 1
    decreases |alternatives|
  {
    if alternatives == [] || !Boundary(s, p) then None
    else
      var w := alternatives[0];
      // every alternative the sources use is a non-empty word
      if w != [] && CiAt(s, p, w) && Boundary(s, p + |w|) then Some(Match(p, p + |w|, [s[p..p + |w|]]))
      else WordsAt(s, p, alternatives[1..])
  }

  /** The match is the first alternative that fits, as the matched text; none is found exactly when no alternative fits. */
  lemma {:induction false} WordsAtShape(s: string, p: nat, alternatives: seq<string>)
    ensures WordsAt(s, p, alternatives).Some? ==>
      WordsShape(s, WordsAt(s, p, alternatives).value, alternatives) && FirstFit(s, p, alternatives, WordsAt(s, p, alternatives).value.end)
    ensures WordsAt(s, p, alternatives).None? <==> forall j :: 0 <= j < |alternatives| ==> !WordFits(s, p, alternatives[j])
    decreases |alternatives|
  {
    if alternatives != [] && Boundary(s, p) {
      var w := alternatives[0];
      if w != [] && CiAt(s, p, w) && Boundary(s, p + |w|) {
        assert WordFits(s, p, alternatives[0]);
        assert FirstFit(s, p, alternatives, p + |w|);
      } else {
        WordsAtShape(s, p, alternatives[1..]);
        WordsShift(s, p, alternatives, WordsAt(s, p, alternatives[1..]));
      }
    }
  }

  /** Alternative `j` is the first that fits at `p`, and the match ends at `e`. */
  predicate FirstFit(s: string, p: nat, alternatives: seq<string>, e: nat) {
    exists j :: 0 <= j < |alternatives| && WordFits(s, p, alternatives[j]) && e == p + |alternatives[j]|
      && forall k :: 0 <= k < j ==> !WordFits(s, p, alternatives[k])
  }

  /** When the first alternative does not fit, the match of the others is the match of all. */
  lemma WordsShift(s: string, p: nat, alternatives: seq<string>, r: Option<Match>)
    requires alternatives != [] && !WordFits(s, p, alternatives[0])
    requires r.Some? ==> r.value.start == p && WordsShape(s, r.value, alternatives[1..])
    requires r.Some? ==> FirstFit(s, p, alternatives[1..], r.value.end)
    requires r.None? <==> forall j :: 0 <= j < |alternatives[1..]| ==> !WordFits(s, p, alternatives[1..][j])
    ensures r.Some? ==> WordsShape(s, r.value, alternatives) && FirstFit(s, p, alternatives, r.value.end)
    ensures r.None? <==> forall j :: 0 <= j < |alternatives| ==> !WordFits(s, p, alternatives[j])
  {
    assert forall j :: 0 < j < |alternatives| ==> alternatives[j] == alternatives[1..][j - 1];
    if r.Some? {
      var j :| 0 <= j < |alternatives[1..]| && WordFits(s, p, alternatives[1..][j]) && r.value.end == p + |alternatives[1..][j]|
        && forall k :: 0 <= k < j ==> !WordFits(s, p, alternatives[1..][k]);
      assert WordFits(s, p, alternatives[j + 1]);
    }
  }

  /** `\b\d{1,2}[:\.][\d]{2}\s*(AM|PM)?\b`. */
  function ClockTokenAt(s: string, p: nat): (r: Option<Match>)
    ensures r.Some? ==> r.value.start == p < r.value.end <= |s| && r.value.groups == []
  {
    if !Boundary(s, p) then None
    else
      match HourThen(s, p, ColonOrDot)
      case None => None
      case Some(c) =>
        if !DigitsAt(s, c + 1, 2) then None
        else
          match TokenTail(s, c + 3, SkipSpaces(s, c + 3))
          case None => None
          case Some(e) => Some(Match(p, e, []))
  }

  /** A clock token is a clock time with `:` or `.`, then whitespace and an optional meridiem, between word boundaries. */
  lemma ClockTokenAtShape(s: string, p: nat)
    ensures ClockTokenAt(s, p).Some? ==> ClockTokenShape(s, ClockTokenAt(s, p).value)
  {
    var c := HourThen(s, p, ColonOrDot);
    if Boundary(s, p) && c.Some? && DigitsAt(s, c.value + 1, 2) {
      var k := SkipSpaces(s, c.value + 3);
      TokenTailShapeOf(s, c.value + 3, k);
      ClockShapeOf(s, p, c.value, ColonOrDot);
    }
  }

  /**
   * `\s*(AM|PM)?\b` after the minutes, which end at `m`: `\s*` gives back one character at a
   * time from the longest run (ending at `k`), and at each length `(AM|PM)` is tried before
   * the empty alternative.
   */
  function TokenTail(s: string, m: nat, k: nat): (r: Option<nat>)
    requires m <= k <= |s|
    ensures r.Some? ==> m <= r.value <= |s|
    decreases k - m
  {
    if MeridiemAt(s, k) && Boundary(s, k + 2) then Some(k + 2)
    else if Boundary(s, k) then Some(k)
    else if k == m then None
    else TokenTail(s, m, k - 1)
  }

  /** The tail `TokenTail` takes is whitespace and an optional meridiem, and a word boundary follows it. */
  lemma {:induction false} TokenTailShapeOf(s: string, m: nat, k: nat)
    requires m <= k <= |s| && SpacesOnly(s, m, k)
    ensures TokenTail(s, m, k).Some? ==> TokenTailShape(s, m, TokenTail(s, m, k).value) && Boundary(s, TokenTail(s, m, k).value)
    decreases k - m
  {
    if !(MeridiemAt(s, k) && Boundary(s, k + 2)) && !Boundary(s, k) && k != m {
      TokenTailShapeOf(s, m, k - 1);
    }
  }

  /** A match of `re` that starts exactly at `p`. */
  function MatchAt(re: Regex, s: string, p: nat): (r: Option<Match>)
    ensures r.Some? ==> r.value.start == p && p < r.value.end <= |s|
  {
    match re
    case HourRange => HourRangeAt(s, p)
    case ClockMeridiem => ClockMeridiemAt(s, p)
    case Clock => HourMinuteAt(s, p, Colon)
    case HourMeridiem => HourMeridiemAt(s, p)
    case DotClock => HourMinuteAt(s, p, Dot)
    case CompactRange => CompactRangeAt(s, p)
    case Words(alternatives) => WordsAt(s, p, alternatives)
    case ClockToken => ClockTokenAt(s, p)
  }

  /** Every match is made of the pattern's pieces, as `Shaped` lays them out. */
  lemma MatchAtShaped(re: Regex, s: string, p: nat)
    requires MatchAt(re, s, p).Some?
    ensures Shaped(re, s, MatchAt(re, s, p).value)
  {
    match re
    case HourRange => HourRangeAtShape(s, p);
    case ClockMeridiem => ClockMeridiemAtShape(s, p);
    case Clock => HourMinuteAtShape(s, p, Colon);
    case HourMeridiem => HourMeridiemAtShape(s, p);
    case DotClock => HourMinuteAtShape(s, p, Dot);
    case CompactRange => CompactRangeAtShape(s, p);
    case Words(alternatives) => WordsAtShape(s, p, alternatives);
    case ClockToken => ClockTokenAtShape(s, p);
  }

  /** `re` as a matcher over `s`: the match that starts exactly at each position. */
  function Matcher(re: Regex, s: string): nat -> Option<Match> {
    (q: nat) => MatchAt(re, s, q)
  }

  /** Every match `at` reports starts where it was asked for and ends after that, within the first `n` characters. */
  ghost predicate Anchored(at: nat -> Option<Match>, n: nat) {
    forall q: nat :: at(q).Some? ==> at(q).value.start == q < at(q).value.end <= n
  }

  lemma MatcherAnchored(re: Regex, s: string)
    ensures Anchored(Matcher(re, s), |s|)
  {
    forall q: nat | Matcher(re, s)(q).Some?
      ensures Matcher(re, s)(q).value.start == q < Matcher(re, s)(q).value.end <= |s|
    {
      assert Matcher(re, s)(q) == MatchAt(re, s, q);
    }
  }

  /** The scan behind every search: the first position from `p` to `n` where `at` reports a match. */
  function FirstAt(at: nat -> Option<Match>, n: nat, p: nat): (r: Option<nat>)
    ensures r.Some? ==> p <= r.value <= n && at(r.value).Some?
    ensures r.Some? ==> forall q :: p <= q < r.value ==> at(q).None?
    ensures r.None? <==> forall q :: p <= q <= n ==> at(q).None?
    decreases n + 1 - p
  {
    if p > n then None
    else if at(p).Some? then Some(p)
    else FirstAt(at, n, p + 1)
  }

  /** The leftmost match of `re` starting at or after `p`; `None` when no position from `p` on has one. */
  function FindFrom(re: Regex, s: string, p: nat): (r: Option<Match>)
    ensures r.Some? ==> p <= r.value.start < r.value.end <= |s| && MatchAt(re, s, r.value.start) == r
    ensures r.Some? ==> forall q :: p <= q < r.value.start ==> MatchAt(re, s, q).None?
    ensures r.None? <==> forall q :: p <= q <= |s| ==> MatchAt(re, s, q).None?
  {
    MatcherAnchored(re, s);
    match FirstAt(Matcher(re, s), |s|, p)
    case None =>
      assert forall q: nat :: p <= q <= |s| ==> MatchAt(re, s, q).None? by {
        forall q: nat | p <= q <= |s|
          ensures MatchAt(re, s, q).None?
        {
          assert Matcher(re, s)(q) == MatchAt(re, s, q);
        }
      }
      None
    case Some(q) =>
      assert Matcher(re, s)(q) == MatchAt(re, s, q);
      assert forall k: nat :: p <= k < q ==> MatchAt(re, s, k).None? by {
        forall k: nat | p <= k < q
          ensures MatchAt(re, s, k).None?
        {
          assert Matcher(re, s)(k) == MatchAt(re, s, k);
        }
      }
      MatchAt(re, s, q)
  }

  /** The matches the scan finds from `p` on, each scan resuming where the previous match ended. */
  function AllAt(at: nat -> Option<Match>, n: nat, p: nat): (ms: seq<Match>)
    requires Anchored(at, n)
    ensures forall i :: 0 <= i < |ms| ==> p <= ms[i].start < ms[i].end <= n && at(ms[i].start) == Some(ms[i])
    ensures forall i :: 0 <= i < |ms| - 1 ==> ms[i].end <= ms[i + 1].start
    ensures ms == [] <==> FirstAt(at, n, p).None?
    ensures ms != [] ==> FirstAt(at, n, p) == Some(ms[0].start)
    decreases n + 1 - p
  {
    match FirstAt(at, n, p)
    case None => []
    case Some(q) =>
      var rest := AllAt(at, n, at(q).value.end);
      assert forall i :: 0 < i < |rest| + 1 ==> ([at(q).value] + rest)[i] == rest[i - 1];
      [at(q).value] + rest
  }

  /** Each match after the first is where a scan from the end of the previous one stops, and a scan from the end of the last finds nothing. */
  lemma {:induction false} AllAtChain(at: nat -> Option<Match>, n: nat, p: nat)
    requires Anchored(at, n)
    ensures forall i :: 0 <= i < |AllAt(at, n, p)| - 1 ==> FirstAt(at, n, AllAt(at, n, p)[i].end) == Some(AllAt(at, n, p)[i + 1].start)
    ensures AllAt(at, n, p) != [] ==> FirstAt(at, n, AllAt(at, n, p)[|AllAt(at, n, p)| - 1].end).None?
    decreases n + 1 - p
  {
    var ms := AllAt(at, n, p);
    if ms != [] {
      var rest := AllAt(at, n, ms[0].end);
      AllAtChain(at, n, ms[0].end);
      assert ms == [ms[0]] + rest;
      forall i | 0 <= i < |ms| - 1
        ensures FirstAt(at, n, ms[i].end) == Some(ms[i + 1].start)
      {
        if i == 0 {
          assert ms[1] == rest[0];
        } else {
          assert ms[i] == rest[i - 1] && ms[i + 1] == rest[i];
        }
      }
      if rest != [] {
        assert ms[|ms| - 1] == rest[|rest| - 1];
      }
    }
  }

  /** No match is skipped: every position from `p` on where `at` reports a match lies inside one of the matches found. */
  lemma {:induction false} AllAtComplete(at: nat -> Option<Match>, n: nat, p: nat, q: nat)
    requires Anchored(at, n) && p <= q && at(q).Some?
    ensures exists i :: 0 <= i < |AllAt(at, n, p)| && AllAt(at, n, p)[i].start <= q < AllAt(at, n, p)[i].end
    decreases n + 1 - p
  {
    var ms := AllAt(at, n, p);
    var f := FirstAt(at, n, p);
    assert q <= n;
    assert f.Some?;
    var m := ms[0];
    assert m.start == f.value <= q;
    if m.end <= q {
      AllAtComplete(at, n, m.end, q);
      var rest := AllAt(at, n, m.end);
      assert ms == [m] + rest;
      var i :| 0 <= i < |rest| && rest[i].start <= q < rest[i].end;
      assert ms[i + 1] == rest[i];
    } else {
      assert ms[0].start <= q < ms[0].end;
    }
  }

  /** The matches the global-flag iteration finds from `p` on: each search resumes where the previous match ended. */
  function AllFrom(re: Regex, s: string, p: nat): (ms: seq<Match>)
    ensures forall i :: 0 <= i < |ms| ==> p <= ms[i].start < ms[i].end <= |s| && MatchAt(re, s, ms[i].start) == Some(ms[i])
    ensures forall i :: 0 <= i < |ms| - 1 ==> ms[i].end <= ms[i + 1].start
    ensures ms == [] <==> FindFrom(re, s, p).None?
    ensures ms != [] ==> FindFrom(re, s, p) == Some(ms[0])
  {
    MatcherAnchored(re, s);
    AllAt(Matcher(re, s), |s|, p)
  }

  /** Each match after the first is what a search from the end of the previous one finds, and a search from the end of the last finds nothing. */
  lemma AllFromChain(re: Regex, s: string, p: nat)
    ensures forall i :: 0 <= i < |AllFrom(re, s, p)| - 1 ==> FindFrom(re, s, AllFrom(re, s, p)[i].end) == Some(AllFrom(re, s, p)[i + 1])
    ensures AllFrom(re, s, p) != [] ==> FindFrom(re, s, AllFrom(re, s, p)[|AllFrom(re, s, p)| - 1].end).None?
  {
    AllFromNext(re, s, p);
    AllFromLast(re, s, p);
  }

  lemma AllFromNext(re: Regex, s: string, p: nat)
    ensures forall i :: 0 <= i < |AllFrom(re, s, p)| - 1 ==> FindFrom(re, s, AllFrom(re, s, p)[i].end) == Some(AllFrom(re, s, p)[i + 1])
  {
    MatcherAnchored(re, s);
    AllAtChain(Matcher(re, s), |s|, p);
    var ms := AllAt(Matcher(re, s), |s|, p);
    assert AllFrom(re, s, p) == ms;
    forall i | 0 <= i < |ms| - 1
      ensures FindFrom(re, s, ms[i].end) == Some(ms[i + 1])
    {
      FindFromScan(re, s, ms[i].end);
      assert Matcher(re, s)(ms[i + 1].start) == MatchAt(re, s, ms[i + 1].start);
    }
  }

  lemma AllFromLast(re: Regex, s: string, p: nat)
    ensures AllFrom(re, s, p) != [] ==> FindFrom(re, s, AllFrom(re, s, p)[|AllFrom(re, s, p)| - 1].end).None?
  {
    MatcherAnchored(re, s);
    AllAtChain(Matcher(re, s), |s|, p);
    var ms := AllAt(Matcher(re, s), |s|, p);
    assert AllFrom(re, s, p) == ms;
    if ms != [] {
      FindFromScan(re, s, ms[|ms| - 1].end);
    }
  }

  /** `FindFrom` is the match at the position the scan stops at. */
  lemma FindFromScan(re: Regex, s: string, p: nat)
    ensures FirstAt(Matcher(re, s), |s|, p).None? ==> FindFrom(re, s, p).None?
    ensures FirstAt(Matcher(re, s), |s|, p).Some? ==> FindFrom(re, s, p) == MatchAt(re, s, FirstAt(Matcher(re, s), |s|, p).value)
  {
  }

  /** No match is skipped: every position from `p` on where `re` matches lies inside one of the matches found. */
  lemma AllFromComplete(re: Regex, s: string, p: nat, q: nat)
    requires p <= q && MatchAt(re, s, q).Some?
    ensures exists i :: 0 <= i < |AllFrom(re, s, p)| && AllFrom(re, s, p)[i].start <= q < AllFrom(re, s, p)[i].end
  {
    MatcherAnchored(re, s);
    assert Matcher(re, s)(q).Some?;
    AllAtComplete(Matcher(re, s), |s|, p, q);
    var ms := AllAt(Matcher(re, s), |s|, p);
    assert AllFrom(re, s, p) == ms;
    var i :| 0 <= i < |ms| && ms[i].start <= q < ms[i].end;
    assert AllFrom(re, s, p)[i].start <= q < AllFrom(re, s, p)[i].end;
  }

  /** `s.matchAll(re)` for a global `re`. */
  function AllMatches(re: Regex, s: string): seq<Match> {
    AllFrom(re, s, 0)
  }

  /** `re.test(s)` (from the start of `s`). */
  predicate Test(re: Regex, s: string) {
    FindFrom(re, s, 0).Some?
  }

  /** `s.match(re)` without the global flag; for a global `re`, its first element is the text of this match. */
  function FirstMatch(re: Regex, s: string): Option<Match> {
    FindFrom(re, s, 0)
  }

  /** `s.replace(re, repl)` for a global `re`, from `p` on. */
  function ReplaceFrom(re: Regex, s: string, p: nat, repl: string): string
    requires p <= |s|
    decreases |s| - p
  {
    match FindFrom(re, s, p)
    case None => s[p..]
    case Some(m) => s[p..m.start] + repl + ReplaceFrom(re, s, m.end, repl)
  }

  /** `s.replace(re, repl)` for a global `re`. */
  function ReplaceAll(re: Regex, s: string, repl: string): string {
    ReplaceFrom(re, s, 0, repl)
  }

  /** Removing every match leaves a string no longer than the original. */
  lemma {:induction false} RemoveFromShrinks(re: Regex, s: string, p: nat)
    requires p <= |s|
    ensures |ReplaceFrom(re, s, p, "")| <= |s| - p
    decreases |s| - p
  {
    match FindFrom(re, s, p)
    case None =>
    case Some(m) => RemoveFromShrinks(re, s, m.end);
  }

  /** `AM` or `PM` in any case, as the `(AM|PM)` group captures it. */
  predicate IsMeridiemText(x: string) {
    |x| == 2 && (Lower(x) == "am" || Lower(x) == "pm")
  }
}
