/**
 * The JavaScript string built-ins the bot relies on, over strings of code points:
 * the `\s`, `\d` and `\w` character classes, ASCII case mapping, `trim`, `split`,
 * `includes`, the whitespace-collapsing `replace` calls, `parseInt` and number-to-string.
 */
module JsText {
  import opened Wrappers

  /** JavaScript's `\s`: WhiteSpace and LineTerminator code points (also what `trim` strips). */
  predicate IsSpace(c: char) {
    c == ' ' || c == '\t' || c == '\n' || c == '\r' || c == '\U{000B}' || c == '\U{000C}'
    || c == '\U{00A0}' || c == '\U{1680}' || ('\U{2000}' <= c <= '\U{200A}')
    || c == '\U{2028}' || c == '\U{2029}' || c == '\U{202F}' || c == '\U{205F}'
    || c == '\U{3000}' || c == '\U{FEFF}'
  }

  /** `s` holds no whitespace. */
  predicate NoSpace(s: string) {
    forall i :: 0 <= i < |s| ==> !IsSpace(s[i])
  }

  /** `s` is whitespace only. */
  predicate AllSpace(s: string) {
    forall i :: 0 <= i < |s| ==> IsSpace(s[i])
  }

  /** JavaScript's `\d`. */
  predicate IsDigit(c: char) {
    '0' <= c <= '9'
  }

  predicate IsAsciiLetter(c: char) {
    'a' <= c <= 'z' || 'A' <= c <= 'Z'
  }

  /** JavaScript's `\w` (without the `u` flag). */
  predicate IsWordChar(c: char) {
    IsAsciiLetter(c) || IsDigit(c) || c == '_'
  }

  predicate AllDigits(s: string) {
    forall i :: 0 <= i < |s| ==> IsDigit(s[i])
  }

  function LowerChar(c: char): char {
    if 'A' <= c <= 'Z' then (c as int + 32) as char else c
  }

  function UpperChar(c: char): char {
    if 'a' <= c <= 'z' then (c as int - 32) as char else c
  }

  /** `toLowerCase`, for ASCII letters. */
  function Lower(s: string): (r: string)
    ensures |r| == |s| && forall i :: 0 <= i < |s| ==> r[i] == LowerChar(s[i])
  {
    seq(|s|, i requires 0 <= i < |s| => LowerChar(s[i]))
  }

  /** `toUpperCase`, for ASCII letters. */
  function Upper(s: string): (r: string)
    ensures |r| == |s| && forall i :: 0 <= i < |s| ==> r[i] == UpperChar(s[i])
  {
    seq(|s|, i requires 0 <= i < |s| => UpperChar(s[i]))
  }

  lemma LowerAppend(a: string, b: string)
    ensures Lower(a + b) == Lower(a) + Lower(b)
  {
  }

  lemma UpperAppend(a: string, b: string)
    ensures Upper(a + b) == Upper(a) + Upper(b)
  {
  }

  /** `s.slice(i, j)`, with JavaScript's clamping of out-of-range ends. */
  function Slice(s: string, i: nat, j: nat): (r: string)
    ensures |r| <= |s|
  {
    var hi := if j <= |s| then j else |s|;
    var lo := if i <= hi then i else hi;
    s[lo..hi]
  }

  predicate StartsWith(s: string, prefix: string) {
    |prefix| <= |s| && s[..|prefix|] == prefix
  }

  /** `s.includes(t)`. */
  predicate Contains(s: string, t: string)
    decreases |s|
  {
    StartsWith(s, t) || (s != [] && Contains(s[1..], t))
  }

  /** Index of the first non-whitespace character at or after `i`, or `|s|`. */
  function SkipWhitespace(s: string, i: nat): (n: nat)
    requires i <= |s|
    ensures i <= n <= |s|
    ensures forall j :: i <= j < n ==> IsSpace(s[j])
    ensures n < |s| ==> !IsSpace(s[n])
    decreases |s| - i
  {
    if i < |s| && IsSpace(s[i]) then SkipWhitespace(s, i + 1) else i
  }

  /** Where `s[..j]` ends once its trailing whitespace is dropped. */
  function DropTrailing(s: string, j: nat): (n: nat)
    requires j <= |s|
    ensures n <= j
    ensures forall k :: n <= k < j ==> IsSpace(s[k])
    ensures n > 0 ==> !IsSpace(s[n - 1])
  {
    if j > 0 && IsSpace(s[j - 1]) then DropTrailing(s, j - 1) else j
  }

  /** `trimStart`. */
  function TrimStart(s: string): (r: string)
    ensures |r| <= |s| && r == s[|s| - |r|..]
    ensures r == [] || !IsSpace(r[0])
    ensures AllSpace(s[..|s| - |r|])
  {
    s[SkipWhitespace(s, 0)..]
  }

  /** `trimEnd`. */
  function TrimEnd(s: string): (r: string)
    ensures |r| <= |s| && r == s[..|r|]
    ensures r == [] || !IsSpace(r[|r| - 1])
    ensures AllSpace(s[|r|..])
  {
    var n := DropTrailing(s, |s|);
    assert forall k :: 0 <= k < |s| - n ==> s[n..][k] == s[n + k];
    s[..n]
  }

  /** How many characters `trim` removes from the front of `s`. */
  function TrimmedFront(s: string): nat {
    SkipWhitespace(s, 0)
  }

  /** `trim`: the piece of `s` between its leading and its trailing whitespace; empty exactly when `s` is blank. */
  function Trim(s: string): (r: string)
    ensures r == [] || (!IsSpace(r[0]) && !IsSpace(r[|r| - 1]))
    ensures r == [] <==> AllSpace(s)
  {
    var t := TrimStart(s);
    assert t == [] ==> s[..|s| - |t|] == s;
    assert t != [] ==> DropTrailing(t, |t|) > 0;
    TrimEnd(t)
  }

  /** What `trim` returns is the slice of `s` after the leading whitespace, and only whitespace follows it. */
  lemma TrimSlice(s: string)
    ensures TrimmedFront(s) + |Trim(s)| <= |s| && Trim(s) == s[TrimmedFront(s)..TrimmedFront(s) + |Trim(s)|]
    ensures AllSpace(s[TrimmedFront(s) + |Trim(s)|..])
  {
    var k, t := TrimmedFront(s), TrimStart(s);
    var r := TrimEnd(t);
    assert t == s[k..];
    assert s[k + |r|..] == t[|r|..];
  }

  /** Every character `trim` keeps comes from its input. */
  lemma {:induction false} TrimInside(s: string)
    ensures forall i :: 0 <= i < |Trim(s)| ==> Trim(s)[i] in s
  {
    var k := TrimmedFront(s);
    TrimSlice(s);
    assert forall i :: 0 <= i < |Trim(s)| ==> Trim(s)[i] == s[k + i];
  }

  /** `trim` drops whitespace only: the non-whitespace characters are all kept, in order. */
  lemma TrimKeepsNonSpace(s: string)
    ensures NonSpace(Trim(s)) == NonSpace(s)
  {
    var k := TrimmedFront(s);
    var r := Trim(s);
    TrimSlice(s);
    var front, back := s[..k], s[k + |r|..];
    assert s == front + r + back;
    NonSpaceBeforeSpaces(front + r, back);
    NonSpaceAfterSpaces(front, r);
  }

  /** A space in front of a text is trimmed away with the text's own leading whitespace. */
  lemma TrimLeadingSpace(y: string)
    ensures Trim(" " + y) == Trim(y)
  {
    var s := " " + y;
    assert SkipWhitespace(s, 0) == SkipWhitespace(s, 1);
    SkipWhitespaceShift(y, 0);
    assert TrimStart(s) == TrimStart(y);
  }

  /** Skipping whitespace in `" " + y` from `i + 1` is skipping it in `y` from `i`, one position later. */
  lemma {:induction false} SkipWhitespaceShift(y: string, i: nat)
    requires i <= |y|
    ensures SkipWhitespace(" " + y, i + 1) == SkipWhitespace(y, i) + 1
    decreases |y| - i
  {
    var s := " " + y;
    assert forall j :: 0 <= j < |y| ==> s[j + 1] == y[j];
    if i < |y| && IsSpace(y[i]) {
      SkipWhitespaceShift(y, i + 1);
    }
  }

  /** A text that starts with non-whitespace and is followed by another such text keeps its front when trimmed. */
  lemma TrimKeepsFront(a: string, b: string)
    requires a != [] && !IsSpace(a[0]) && b != [] && !IsSpace(b[0])
    ensures Trim(a + b) == a + Trim(b)
  {
    TrimStartNoop(a + b);
    TrimStartNoop(b);
    TrimEndAppend(a, b);
  }

  lemma TrimStartNoop(s: string)
    requires s == [] || !IsSpace(s[0])
    ensures TrimStart(s) == s
  {
    assert SkipWhitespace(s, 0) == 0;
  }

  lemma TrimEndAppend(a: string, b: string)
    requires b != [] && !IsSpace(b[0])
    ensures TrimEnd(a + b) == a + TrimEnd(b)
  {
    DropTrailingAppend(a, b, |b|);
    var n := DropTrailing(b, |b|);
    assert (a + b)[..|a| + n] == a + b[..n];
  }

  /** Trailing whitespace inside `b` is dropped from `a + b` at the same place, shifted by `|a|`, as long as `b` keeps a non-whitespace start. */
  lemma {:induction false} DropTrailingAppend(a: string, b: string, j: nat)
    requires b != [] && !IsSpace(b[0]) && 1 <= j <= |b|
    ensures DropTrailing(a + b, |a| + j) == |a| + DropTrailing(b, j)
    decreases j
  {
    var s := a + b;
    assert s[|a| + j - 1] == b[j - 1];
    if IsSpace(b[j - 1]) {
      DropTrailingAppend(a, b, j - 1);
    }
  }

  /** A space after a text is trimmed away with the text's own trailing whitespace. */
  lemma TrimTrailingSpace(y: string)
    ensures Trim(y + " ") == Trim(y)
  {
    var s := y + " ";
    SkipWhitespacePrefix(y, " ", 0);
    if SkipWhitespace(y, 0) == |y| {
      assert AllSpace(y[..|y| - |TrimStart(y)|]);
      assert y[..|y|] == y;
      assert AllSpace(s);
    } else {
      var t := TrimStart(y);
      assert TrimStart(s) == t + " ";
      TrimEndTrailingSpace(t);
    }
  }

  lemma TrimEndTrailingSpace(t: string)
    ensures TrimEnd(t + " ") == TrimEnd(t)
  {
    var u := t + " ";
    assert DropTrailing(u, |u|) == DropTrailing(u, |t|);
    DropTrailingPrefix(t, " ", |t|);
    assert u[..DropTrailing(t, |t|)] == t[..DropTrailing(t, |t|)];
  }

  lemma {:induction false} DropTrailingPrefix(y: string, z: string, j: nat)
    requires j <= |y|
    ensures DropTrailing(y + z, j) == DropTrailing(y, j)
    decreases j
  {
    if j > 0 {
      assert (y + z)[j - 1] == y[j - 1];
      DropTrailingPrefix(y, z, j - 1);
    }
  }

  /** Skipping whitespace in `y + z` stops where it stops in `y`, or at `|y|` or later. */
  lemma {:induction false} SkipWhitespacePrefix(y: string, z: string, i: nat)
    requires i <= |y|
    ensures SkipWhitespace(y, i) < |y| ==> SkipWhitespace(y + z, i) == SkipWhitespace(y, i)
    ensures SkipWhitespace(y, i) == |y| ==> SkipWhitespace(y + z, i) >= |y|
    decreases |y| - i
  {
    if i < |y| {
      assert (y + z)[i] == y[i];
      if IsSpace(y[i]) {
        SkipWhitespacePrefix(y, z, i + 1);
      }
    }
  }

  /** Trimming a string that already has no whitespace at either end changes nothing. */
  lemma TrimNoop(s: string)
    requires s == [] || (!IsSpace(s[0]) && !IsSpace(s[|s| - 1]))
    ensures Trim(s) == s
  {
  }

  /** Index of the first `c` in `s`, or `|s|` when there is none. */
  function IndexOfChar(s: string, c: char): (i: nat)
    ensures i <= |s|
    ensures i < |s| ==> s[i] == c
    ensures forall j :: 0 <= j < i ==> s[j] != c
  {
    if s == [] then 0
    else if s[0] == c then 0
    else 1 + IndexOfChar(s[1..], c)
  }

  /** `s.split(c)[0]`: the text before the first `c`. */
  function BeforeFirst(s: string, c: char): (r: string)
    ensures c !in r
    ensures |r| <= |s| && r == s[..|r|]
    ensures |r| < |s| ==> s[|r|] == c
  {
    s[..IndexOfChar(s, c)]
  }

  lemma BeforeFirstConcat(a: string, c: char, b: string)
    requires c !in a
    ensures BeforeFirst(a + [c] + b, c) == a
  {
    var s := a + [c] + b;
    assert forall j :: 0 <= j < |a| ==> s[j] == a[j];
    assert s[|a|] == c;
  }

  lemma BeforeFirstAbsent(s: string, c: char)
    requires c !in s
    ensures BeforeFirst(s, c) == s
  {
  }

  /** `s.split(sep)` with a one-character separator. */
  function SplitOn(s: string, sep: char): (r: seq<string>)
    ensures |r| >= 1
    ensures forall i :: 0 <= i < |r| ==> sep !in r[i]
    decreases |s|
  {
    var i := IndexOfChar(s, sep);
    if i == |s| then [s] else [s[..i]] + SplitOn(s[i + 1..], sep)
  }

  /** The text before the first separator is the first piece, and the rest is split on. */
  lemma SplitOnCons(a: string, c: char, b: string)
    requires c !in a
    ensures SplitOn(a + [c] + b, c) == [a] + SplitOn(b, c)
  {
    var s := a + [c] + b;
    BeforeFirstConcat(a, c, b);
    assert s[|a| + 1..] == b;
  }

  /** `parts.join(sep)`. */
  function Join(parts: seq<string>, sep: string): string {
    if parts == [] then []
    else if |parts| == 1 then parts[0]
    else parts[0] + sep + Join(parts[1..], sep)
  }

  /** Splitting at a character and joining with it again gives the original text back. */
  lemma {:induction false} SplitJoin(s: string, sep: char)
    ensures Join(SplitOn(s, sep), [sep]) == s
    decreases |s|
  {
    var i := IndexOfChar(s, sep);
    if i < |s| {
      var rest := s[i + 1..];
      var tail := SplitOn(rest, sep);
      assert SplitOn(s, sep) == [s[..i]] + tail;
      calc {
        Join(SplitOn(s, sep), [sep]);
      ==  { JoinCons(s[..i], tail, [sep]); }
        s[..i] + [sep] + Join(tail, [sep]);
      ==  { SplitJoin(rest, sep); }
        s[..i] + [sep] + rest;
      ==  { assert s == s[..i] + [s[i]] + s[i + 1..]; }
        s;
      }
    }
  }

  /** Joining one more leading piece puts it and the separator in front. */
  lemma JoinCons(head: string, tail: seq<string>, sep: string)
    requires tail != []
    ensures Join([head] + tail, sep) == head + sep + Join(tail, sep)
  {
    assert ([head] + tail)[1..] == tail;
  }

  /** Joining pieces that do not contain the separator and splitting again gives the pieces back. */
  lemma {:induction false} JoinSplit(parts: seq<string>, sep: char)
    requires parts != []
    requires forall i :: 0 <= i < |parts| ==> sep !in parts[i]
    ensures SplitOn(Join(parts, [sep]), sep) == parts
    decreases |parts|
  {
    if |parts| > 1 {
      var s := Join(parts, [sep]);
      JoinSplit(parts[1..], sep);
      assert s == parts[0] + [sep] + Join(parts[1..], [sep]);
      BeforeFirstConcat(parts[0], sep, Join(parts[1..], [sep]));
      assert IndexOfChar(s, sep) == |parts[0]|;
      assert s[|parts[0]| + 1..] == Join(parts[1..], [sep]);
    } else {
      BeforeFirstAbsent(parts[0], sep);
    }
  }

  /** Every character of `r` is a space or a character of `s`. */
  predicate CharsFrom(r: string, s: string) {
    forall i :: 0 <= i < |r| ==> r[i] == ' ' || r[i] in s
  }

  /** The only whitespace in `r` is the plain space. */
  predicate PlainSpaces(r: string) {
    forall i :: 0 <= i < |r| ==> r[i] == ' ' || !IsSpace(r[i])
  }

  /** No two whitespace characters of `r` are adjacent. */
  predicate NoDoubleSpace(r: string) {
    forall i :: 0 <= i < |r| - 1 ==> !(IsSpace(r[i]) && IsSpace(r[i + 1]))
  }

  /**
   * `s.replace(/\s{2,}/g, ' ')` when `atLeast == 2` and `s.replace(/\s+/g, ' ')` when `atLeast == 1`:
   * every maximal run of at least `atLeast` whitespace characters becomes one space.
   */
  function CollapseSpaces(s: string, atLeast: nat): (r: string)
    requires 1 <= atLeast <= 2
    ensures |r| <= |s|
    ensures CharsFrom(r, s)
    ensures atLeast == 1 ==> PlainSpaces(r)
    ensures s != [] && !IsSpace(s[0]) ==> r != [] && r[0] == s[0]
    decreases |s|
  {
    if s == [] then []
    else if IsSpace(s[0]) && (atLeast == 1 || (|s| >= 2 && IsSpace(s[1]))) then
      var rest := TrimStart(s);
      assert forall c :: c in rest ==> c in s;
      " " + CollapseSpaces(rest, atLeast)
    else
      assert forall c :: c in s[1..] ==> c in s;
      [s[0]] + CollapseSpaces(s[1..], atLeast)
  }

  /** No two whitespace characters are left side by side. */
  lemma {:induction false} CollapseNoDoubleSpace(s: string, atLeast: nat)
    requires 1 <= atLeast <= 2
    ensures NoDoubleSpace(CollapseSpaces(s, atLeast))
    decreases |s|
  {
    if s == [] {
    } else if IsSpace(s[0]) && (atLeast == 1 || (|s| >= 2 && IsSpace(s[1]))) {
      var rest := TrimStart(s);
      CollapseNoDoubleSpace(rest, atLeast);
      NoDoubleSpaceCons(' ', CollapseSpaces(rest, atLeast));
    } else {
      CollapseNoDoubleSpace(s[1..], atLeast);
      NoDoubleSpaceCons(s[0], CollapseSpaces(s[1..], atLeast));
    }
  }

  lemma NoDoubleSpaceCons(c: char, r: string)
    requires NoDoubleSpace(r) && (IsSpace(c) ==> r == [] || !IsSpace(r[0]))
    ensures NoDoubleSpace([c] + r)
  {
    var x := [c] + r;
    assert forall i :: 1 <= i < |x| ==> x[i] == r[i - 1];
  }

  /** A run of whitespace alone becomes one space when it is at least `atLeast` long and is kept otherwise. */
  lemma CollapseBlank(s: string, atLeast: nat)
    requires 1 <= atLeast <= 2
    requires s != [] && AllSpace(s)
    ensures CollapseSpaces(s, atLeast) == (if |s| >= atLeast then " " else s)
  {
    if IsSpace(s[0]) && (atLeast == 1 || (|s| >= 2 && IsSpace(s[1]))) {
      assert TrimStart(s) == [];
    } else {
      assert s[1..] == [];
    }
  }

  /** Text without whitespace is left as it is. */
  lemma CollapseNoSpace(s: string, atLeast: nat)
    requires 1 <= atLeast <= 2
    requires NoSpace(s)
    ensures CollapseSpaces(s, atLeast) == s
  {
    CollapsePrefix(s, [], atLeast);
    assert s + [] == s;
  }

  /** Collapsing whitespace keeps every non-whitespace character, in order. */
  lemma {:induction false} CollapseKeepsNonSpace(s: string, atLeast: nat)
    requires 1 <= atLeast <= 2
    ensures NonSpace(CollapseSpaces(s, atLeast)) == NonSpace(s)
    decreases |s|
  {
    if s == [] {
    } else if IsSpace(s[0]) && (atLeast == 1 || (|s| >= 2 && IsSpace(s[1]))) {
      var rest := TrimStart(s);
      CollapseKeepsNonSpace(rest, atLeast);
      TrimStartNonSpace(s);
      NonSpaceCons(' ', CollapseSpaces(rest, atLeast));
    } else {
      CollapseKeepsNonSpace(s[1..], atLeast);
      NonSpaceCons(s[0], CollapseSpaces(s[1..], atLeast));
      NonSpaceCons(s[0], s[1..]);
      assert [s[0]] + s[1..] == s;
    }
  }

  /** What one whitespace run becomes: one space when it is at least `atLeast` long, itself otherwise. */
  function CollapsedRun(sep: string, atLeast: nat): string {
    if |sep| >= atLeast then " " else sep
  }

  function CollapsedRuns(seps: seq<string>, atLeast: nat): (r: seq<string>)
    ensures |r| == |seps|
    ensures forall k :: 0 <= k < |r| ==> r[k] == CollapsedRun(seps[k], atLeast)
  {
    seq(|seps|, k requires 0 <= k < |seps| => CollapsedRun(seps[k], atLeast))
  }

  lemma CollapsedRunsCons(sep: string, seps: seq<string>, atLeast: nat)
    ensures CollapsedRuns([sep] + seps, atLeast) == [CollapsedRun(sep, atLeast)] + CollapsedRuns(seps, atLeast)
  {
  }

  /**
   * The rewrite works run by run: the text between whitespace runs is kept, and each run
   * becomes one space when it is at least `atLeast` long and is kept as it is otherwise.
   */
  lemma {:induction false} CollapseIsInterleave(s: string, atLeast: nat)
    requires 1 <= atLeast <= 2
    ensures |SplitSeps(s)| + 1 == |SplitWords(s)|
    ensures CollapseSpaces(s, atLeast) == Interleave(SplitWords(s), CollapsedRuns(SplitSeps(s), atLeast))
    decreases |s|
  {
    if FirstSpace(s) == |s| {
      CollapseNoSpace(s, atLeast);
    } else {
      var w, sep, t := SplitStep(s);
      CollapseStep(w, sep, t, atLeast);
      CollapseIsInterleave(t, atLeast);
      CollapsedRunsCons(sep, SplitSeps(t), atLeast);
      InterleaveCons(w, CollapsedRun(sep, atLeast), SplitWords(t), CollapsedRuns(SplitSeps(t), atLeast));
    }
  }

  /** `s.replace(/\s+/g, ' ')` is `s.split(/\s+/).join(' ')`: the pieces between whitespace runs, one space apart. */
  lemma {:induction false} CollapseIsJoin(s: string)
    ensures CollapseSpaces(s, 1) == Join(SplitWords(s), " ")
    decreases |s|
  {
    if FirstSpace(s) == |s| {
      CollapseNoSpace(s, 1);
    } else {
      var w, sep, t := SplitStep(s);
      CollapseStep(w, sep, t, 1);
      CollapseIsJoin(t);
      JoinCons(w, SplitWords(t), " ");
    }
  }

  /** A piece without whitespace, then a whitespace run, then the rest: the run is collapsed on its own. */
  lemma CollapseStep(w: string, sep: string, t: string, atLeast: nat)
    requires 1 <= atLeast <= 2
    requires NoSpace(w) && sep != [] && AllSpace(sep)
    requires t == [] || !IsSpace(t[0])
    ensures CollapseSpaces(w + sep + t, atLeast) == w + CollapsedRun(sep, atLeast) + CollapseSpaces(t, atLeast)
  {
    SeqAssoc(w, sep, t);
    CollapsePrefix(w, sep + t, atLeast);
    CollapseRun(sep, t, atLeast);
    SeqAssoc(w, CollapsedRun(sep, atLeast), CollapseSpaces(t, atLeast));
  }

  lemma SeqAssoc(a: string, b: string, c: string)
    ensures a + b + c == a + (b + c)
  {
  }

  /** A whitespace run in front of non-whitespace is collapsed on its own. */
  lemma CollapseRun(sep: string, t: string, atLeast: nat)
    requires 1 <= atLeast <= 2
    requires sep != [] && AllSpace(sep)
    requires t == [] || !IsSpace(t[0])
    ensures CollapseSpaces(sep + t, atLeast) == CollapsedRun(sep, atLeast) + CollapseSpaces(t, atLeast)
  {
    var rest := sep + t;
    if |sep| >= atLeast {
      SkipWhitespacePrefix(sep, t, 0);
      assert t != [] ==> !IsSpace(rest[|sep|]);
      assert TrimStart(rest) == t;
    } else {
      assert rest[1..] == t;
    }
  }

  /** Text without whitespace in front passes through the collapse unchanged. */
  lemma {:induction false} CollapsePrefix(w: string, b: string, atLeast: nat)
    requires 1 <= atLeast <= 2
    requires NoSpace(w)
    ensures CollapseSpaces(w + b, atLeast) == w + CollapseSpaces(b, atLeast)
    decreases |w|
  {
    if w == [] {
      assert w + b == b;
    } else {
      CollapseCopiesChar(w, b, atLeast);
      CollapsePrefix(w[1..], b, atLeast);
      ConsTail(w, CollapseSpaces(b, atLeast));
    }
  }

  lemma ConsTail(w: string, x: string)
    requires w != []
    ensures [w[0]] + (w[1..] + x) == w + x
  {
  }

  lemma CollapseCopiesChar(w: string, b: string, atLeast: nat)
    requires 1 <= atLeast <= 2
    requires w != [] && !IsSpace(w[0])
    ensures CollapseSpaces(w + b, atLeast) == [w[0]] + CollapseSpaces(w[1..] + b, atLeast)
  {
    assert (w + b)[1..] == w[1..] + b;
  }

  /**
   * `s.replace(/\s+/g, ' ').trim()` is the non-empty pieces of `s.split(/\s+/)` joined by
   * single spaces: the words of `s`, one space apart.
   */
  lemma {:induction false} TrimCollapseIsWords(s: string)
    ensures Trim(CollapseSpaces(s, 1)) == Join(TextWords(s), " ")
    decreases |s|
  {
    if FirstSpace(s) == |s| {
      CollapseNoSpace(s, 1);
      TrimNoop(s);
    } else {
      var w, sep, t := SplitStep(s);
      TrimCollapseIsWords(t);
      TrimCollapseStep(w, sep, t);
    }
  }

  lemma TrimCollapseStep(w: string, sep: string, t: string)
    requires NoSpace(w) && sep != [] && AllSpace(sep) && (t == [] || !IsSpace(t[0]))
    requires SplitWords(w + sep + t) == [w] + SplitWords(t)
    requires Trim(CollapseSpaces(t, 1)) == Join(TextWords(t), " ")
    ensures Trim(CollapseSpaces(w + sep + t, 1)) == Join(TextWords(w + sep + t), " ")
  {
    CollapseStep(w, sep, t, 1);
    TextWordsStep(w + sep + t, w, t);
    CollapsedFront(t);
    TrimJoinStep(w, CollapseSpaces(t, 1), TextWords(t));
  }

  lemma TextWordsStep(s: string, w: string, t: string)
    requires SplitWords(s) == [w] + SplitWords(t)
    ensures TextWords(s) == (if w == [] then [] else [w]) + TextWords(t)
  {
    assert ([w] + SplitWords(t))[1..] == SplitWords(t);
  }

  /** A collapsed text is empty exactly when it has no words, and starts with non-whitespace when the text does. */
  lemma CollapsedFront(t: string)
    requires t == [] || !IsSpace(t[0])
    ensures var c := CollapseSpaces(t, 1);
      (c == [] ==> TextWords(t) == []) && (c != [] ==> !IsSpace(c[0]) && TextWords(t) != [])
  {
    if t == [] {
      assert SplitWords(t) == [[]];
    } else {
      WordsFront(t);
    }
  }

  /** Trimming a word, a space and an already collapsed rest joins the word in front of the rest's words. */
  lemma TrimJoinStep(w: string, c: string, words: seq<string>)
    requires NoSpace(w) && Trim(c) == Join(words, " ")
    requires c == [] ==> words == []
    requires c != [] ==> !IsSpace(c[0]) && words != []
    ensures Trim(w + " " + c) == Join((if w == [] then [] else [w]) + words, " ")
  {
    if w == [] {
      TrimJoinNoWord(c, words);
    } else if c == [] {
      TrimJoinLastWord(w, words);
    } else {
      TrimJoinWord(w, c, words);
    }
  }

  lemma TrimJoinNoWord(c: string, words: seq<string>)
    requires Trim(c) == Join(words, " ")
    ensures Trim([] + " " + c) == Join([] + words, " ")
  {
    assert [] + " " + c == " " + c;
    assert [] + words == words;
    TrimLeadingSpace(c);
  }

  lemma TrimJoinLastWord(w: string, words: seq<string>)
    requires w != [] && NoSpace(w) && words == []
    ensures Trim(w + " " + []) == Join([w] + words, " ")
  {
    assert w + " " + [] == w + " ";
    assert [w] + words == [w];
    TrimTrailingSpace(w);
    TrimNoop(w);
  }

  lemma TrimJoinWord(w: string, c: string, words: seq<string>)
    requires w != [] && NoSpace(w) && Trim(c) == Join(words, " ")
    requires c != [] && !IsSpace(c[0]) && words != []
    ensures Trim(w + " " + c) == Join([w] + words, " ")
  {
    TrimKeepsFront(w + " ", c);
    JoinCons(w, words, " ");
  }

  /** A text that starts with a non-whitespace character has at least one word. */
  lemma WordsFront(t: string)
    requires t != [] && !IsSpace(t[0])
    ensures TextWords(t) != []
  {
    var pieces := SplitWords(t);
    assert pieces[0] == t[..FirstSpace(t)] != [];
  }

  /** The words of `s`: the non-empty pieces of `s.split(/\s+/)`. */
  function TextWords(s: string): (r: seq<string>)
    ensures forall k :: 0 <= k < |r| ==> r[k] != [] && NoSpace(r[k])
  {
    NonEmptyPieces(SplitWords(s))
  }

  /** The non-empty strings of `xs`, in order. */
  function NonEmptyPieces(xs: seq<string>): (r: seq<string>)
    ensures forall i :: 0 <= i < |r| ==> r[i] != [] && r[i] in xs
    ensures (forall i :: 0 <= i < |xs| ==> xs[i] != []) ==> r == xs
    ensures (forall i :: 0 <= i < |xs| ==> xs[i] == []) ==> r == []
  {
    if xs == [] then []
    else
      var rest := NonEmptyPieces(xs[1..]);
      if xs[0] == [] then rest else [xs[0]] + rest
  }

  /** `NonEmptyPieces` works element by element, so every non-empty string is kept, in order. */
  lemma {:induction false} NonEmptyPiecesAppend(a: seq<string>, b: seq<string>)
    ensures NonEmptyPieces(a + b) == NonEmptyPieces(a) + NonEmptyPieces(b)
    decreases |a|
  {
    if a == [] {
      assert a + b == b;
    } else {
      assert (a + b)[1..] == a[1..] + b;
      NonEmptyPiecesAppend(a[1..], b);
    }
  }

  /** `s.split(/\s+/)`: the pieces between whitespace runs (empty first or last piece when `s` starts or ends with whitespace). */
  function SplitWords(s: string): (r: seq<string>)
    ensures |r| >= 1
    ensures forall k :: 0 <= k < |r| ==> NoSpace(r[k])
    decreases |s|
  {
    var i := FirstSpace(s);
    if i == |s| then [s] else [s[..i]] + SplitWords(TrimStart(s[i..]))
  }

  /** The pieces with the separators between them: `pieces[0] + seps[0] + pieces[1] + ...`. */
  function Interleave(pieces: seq<string>, seps: seq<string>): string
    requires |pieces| == |seps| + 1
    decreases |seps|
  {
    if seps == [] then pieces[0] else pieces[0] + seps[0] + Interleave(pieces[1..], seps[1..])
  }

  /** The whitespace runs that `s.split(/\s+/)` cuts `s` at, in order. */
  function SplitSeps(s: string): (seps: seq<string>)
    ensures forall k :: 0 <= k < |seps| ==> |seps[k]| > 0 && AllSpace(seps[k])
    decreases |s|
  {
    var i := FirstSpace(s);
    if i == |s| then []
    else
      var rest := s[i..];
      var t := TrimStart(rest);
      [LeadingSep(rest)] + SplitSeps(t)
  }

  /** The whitespace run a text starts with. */
  function LeadingSep(rest: string): (sep: string)
    requires rest != [] && IsSpace(rest[0])
    ensures |sep| > 0 && AllSpace(sep)
  {
    LeadingRun(rest);
    rest[..|rest| - |TrimStart(rest)|]
  }

  lemma InterleaveCons(piece: string, sep: string, pieces: seq<string>, seps: seq<string>)
    requires |pieces| == |seps| + 1
    ensures Interleave([piece] + pieces, [sep] + seps) == piece + sep + Interleave(pieces, seps)
  {
    assert ([piece] + pieces)[1..] == pieces && ([sep] + seps)[1..] == seps;
  }

  /**
   * The pieces of `s.split(/\s+/)` are the input's runs without whitespace: put back between
   * them, the whitespace runs of `s` give `s` again.
   */
  lemma {:induction false} SplitWordsInterleave(s: string)
    ensures |SplitSeps(s)| + 1 == |SplitWords(s)| && s == Interleave(SplitWords(s), SplitSeps(s))
    decreases |s|
  {
    if FirstSpace(s) < |s| {
      var w, sep, t := SplitStep(s);
      SplitWordsInterleave(t);
      InterleaveCons(w, sep, SplitWords(t), SplitSeps(t));
    }
  }

  /** One step of `s.split(/\s+/)`: the first piece, the whitespace run after it and the rest. */
  lemma SplitStep(s: string) returns (w: string, sep: string, t: string)
    requires FirstSpace(s) < |s|
    ensures s == w + sep + t && |t| < |s|
    ensures SplitWords(s) == [w] + SplitWords(t) && SplitSeps(s) == [sep] + SplitSeps(t)
    ensures NoSpace(w) && sep != [] && AllSpace(sep) && (t == [] || !IsSpace(t[0]))
  {
    var i := FirstSpace(s);
    w := s[..i];
    sep, t := SplitRun(s[i..]);
    assert s == w + s[i..];
  }

  /** A text that starts with whitespace is its leading whitespace run followed by the rest. */
  lemma SplitRun(rest: string) returns (sep: string, t: string)
    requires rest != [] && IsSpace(rest[0])
    ensures t == TrimStart(rest) && sep == rest[..|rest| - |t|]
    ensures rest == sep + t && sep != [] && AllSpace(sep) && (t == [] || !IsSpace(t[0]))
  {
    t := TrimStart(rest);
    sep := rest[..|rest| - |t|];
    LeadingRun(rest);
  }

  lemma LeadingRun(rest: string)
    requires rest != [] && IsSpace(rest[0])
    ensures var t := TrimStart(rest); var sep := rest[..|rest| - |t|];
      rest == sep + t && sep != [] && AllSpace(sep) && (t == [] || !IsSpace(t[0]))
  {
  }

  /** Only the first and the last piece of `s.split(/\s+/)` can be empty (when `s` starts or ends with whitespace). */
  lemma {:induction false} SplitWordsInner(s: string)
    ensures forall k :: 0 < k < |SplitWords(s)| - 1 ==> SplitWords(s)[k] != []
    decreases |s|
  {
    var i := FirstSpace(s);
    if i < |s| {
      var t := TrimStart(s[i..]);
      SplitWordsInner(t);
      var pieces := SplitWords(s);
      assert pieces[1..] == SplitWords(t);
      if |SplitWords(t)| >= 2 {
        assert SplitWords(t)[0] == t[..FirstSpace(t)];
      }
      forall k | 0 < k < |pieces| - 1
        ensures pieces[k] != []
      {
        assert pieces[k] == SplitWords(t)[k - 1];
      }
    }
  }

  /** Index of the first whitespace character of `s`, or `|s|`. */
  function FirstSpace(s: string): (i: nat)
    ensures i <= |s|
    ensures i < |s| ==> IsSpace(s[i])
    ensures forall j :: 0 <= j < i ==> !IsSpace(s[j])
  {
    if s == [] then 0
    else if IsSpace(s[0]) then 0
    else 1 + FirstSpace(s[1..])
  }

  /** The characters of `s` for which `keep` holds, in order (`s.replace(/[^...]/g, '')`). */
  function Keep(s: string, keep: char -> bool): (r: string)
    ensures |r| <= |s|
    ensures forall i :: 0 <= i < |r| ==> keep(r[i]) && r[i] in s
    ensures (forall i :: 0 <= i < |s| ==> keep(s[i])) ==> r == s
    ensures (forall i :: 0 <= i < |s| ==> !keep(s[i])) ==> r == []
  {
    if s == [] then []
    else if keep(s[0]) then [s[0]] + Keep(s[1..], keep)
    else Keep(s[1..], keep)
  }

  /**
   * `Keep` works character by character: the kept characters of `a + b` are those of `a`
   * followed by those of `b`. With the single-character cases of its contract this says
   * that every allowed character is kept, and in order.
   */
  lemma {:induction false} KeepAppend(a: string, b: string, keep: char -> bool)
    ensures Keep(a + b, keep) == Keep(a, keep) + Keep(b, keep)
    decreases |a|
  {
    if a == [] {
      assert a + b == b;
    } else {
      assert (a + b)[1..] == a[1..] + b;
      KeepAppend(a[1..], b, keep);
    }
  }

  predicate NotSpace(c: char) {
    !IsSpace(c)
  }

  /** The non-whitespace characters of `s`, in order. */
  function NonSpace(s: string): string {
    Keep(s, NotSpace)
  }

  /** Whitespace in front of a text adds nothing to its non-whitespace characters. */
  lemma NonSpaceAfterSpaces(a: string, b: string)
    requires AllSpace(a)
    ensures NonSpace(a + b) == NonSpace(b)
  {
    KeepAppend(a, b, NotSpace);
  }

  /** Whitespace after a text adds nothing to its non-whitespace characters. */
  lemma NonSpaceBeforeSpaces(a: string, b: string)
    requires AllSpace(b)
    ensures NonSpace(a + b) == NonSpace(a)
  {
    KeepAppend(a, b, NotSpace);
  }

  /** `trimStart` drops whitespace only. */
  lemma TrimStartNonSpace(s: string)
    ensures NonSpace(TrimStart(s)) == NonSpace(s)
  {
    var t := TrimStart(s);
    assert s == s[..|s| - |t|] + t;
    NonSpaceAfterSpaces(s[..|s| - |t|], t);
  }

  /** A non-whitespace character in front of a text is its first non-whitespace character. */
  lemma NonSpaceCons(c: char, t: string)
    ensures NonSpace([c] + t) == (if IsSpace(c) then [] else [c]) + NonSpace(t)
  {
    assert ([c] + t)[1..] == t;
  }

  /** `s.replace(/[^\w\s]/g, ' ')`: every character that is neither a word character nor whitespace becomes a space. */
  function BlankPunctuation(s: string): (r: string)
    ensures |r| == |s|
    ensures forall i :: 0 <= i < |s| ==> r[i] == (if IsWordChar(s[i]) || IsSpace(s[i]) then s[i] else ' ')
  {
    seq(|s|, i requires 0 <= i < |s| => if IsWordChar(s[i]) || IsSpace(s[i]) then s[i] else ' ')
  }

  function DigitChar(d: nat): char
    requires d < 10
  {
    ('0' as int + d) as char
  }

  function DigitValue(c: char): nat {
    if IsDigit(c) then c as int - '0' as int else 0
  }

  /** The decimal value of a string of digits (what `parseInt(s, 10)` gives for it). */
  function DigitsValue(s: string): nat {
    if s == [] then 0 else DigitsValue(s[..|s| - 1]) * 10 + DigitValue(s[|s| - 1])
  }

  /** `String(n)` for a non-negative integer. */
  function NatToDecimal(n: nat): (r: string)
    ensures |r| >= 1 && AllDigits(r)
    ensures n < 10 <==> |r| == 1
    ensures 10 <= n < 100 ==> |r| == 2
    ensures r[0] != '0' || n == 0
  {
    if n < 10 then [DigitChar(n)] else NatToDecimal(n / 10) + [DigitChar(n % 10)]
  }

  /** `String(i)` for any integer. */
  function IntToDecimal(i: int): string {
    if i < 0 then "-" + NatToDecimal(-i) else NatToDecimal(i)
  }

  /** Reading back the decimal text of a number gives the number. */
  lemma {:induction false} DecimalRoundTrip(n: nat)
    ensures DigitsValue(NatToDecimal(n)) == n
  {
    if n >= 10 {
      DecimalRoundTrip(n / 10);
      var s := NatToDecimal(n);
      assert s[..|s| - 1] == NatToDecimal(n / 10);
    }
  }

  /** `s.padStart(2, '0')`. */
  function PadTwo(s: string): (r: string)
    ensures |r| == if |s| >= 2 then |s| else 2
  {
    if |s| >= 2 then s else seq(2 - |s|, _ => '0') + s
  }

  /** `String(m).padStart(2, '0')` for a minute: always two digits that read back as `m`. */
  lemma TwoDigitMinute(m: nat)
    requires m < 100
    ensures var t := PadTwo(NatToDecimal(m)); |t| == 2 && AllDigits(t) && DigitsValue(t) == m
  {
    DecimalRoundTrip(m);
    var d := NatToDecimal(m);
    var t := PadTwo(d);
    if m < 10 {
      assert t == ['0', d[0]];
      assert t[..1] == ['0'];
    }
  }

  /** Length of the longest prefix of `s` made of digits of the given radix (10 or 16). */
  function RadixDigitsPrefix(s: string, radix: nat): (n: nat)
    ensures n <= |s|
    ensures forall i :: 0 <= i < n ==> RadixDigit(s[i], radix).Some?
    ensures n < |s| ==> RadixDigit(s[n], radix).None?
  {
    if s != [] && RadixDigit(s[0], radix).Some? then 1 + RadixDigitsPrefix(s[1..], radix) else 0
  }

  function RadixDigit(c: char, radix: nat): Option<nat> {
    if IsDigit(c) then Some(c as int - '0' as int)
    else if radix == 16 && 'a' <= c <= 'f' then Some(c as int - 'a' as int + 10)
    else if radix == 16 && 'A' <= c <= 'F' then Some(c as int - 'A' as int + 10)
    else None
  }

  function RadixValue(s: string, radix: nat): nat {
    if s == [] then 0 else RadixValue(s[..|s| - 1], radix) * radix + RadixDigit(s[|s| - 1], radix).GetOr(0)
  }

  /**
   * `parseInt(s)` when `detectHex` holds (no radix: a `0x` prefix selects base 16) and `parseInt(s, 10)`
   * otherwise. `None` is `NaN`; `-0` is `0`.
   */
  function ParseInt(s: string, detectHex: bool): (r: Option<int>)
    ensures r.None? <==> (var t := TrimStart(s);
                          var u := if t != [] && (t[0] == '-' || t[0] == '+') then t[1..] else t;
                          var hex := detectHex && |u| >= 2 && u[0] == '0' && (u[1] == 'x' || u[1] == 'X');
                          RadixDigitsPrefix(if hex then u[2..] else u, if hex then 16 else 10) == 0)
  {
    var t := TrimStart(s);
    var negative := t != [] && t[0] == '-';
    var u := if t != [] && (t[0] == '-' || t[0] == '+') then t[1..] else t;
    var hex := detectHex && |u| >= 2 && u[0] == '0' && (u[1] == 'x' || u[1] == 'X');
    var radix := if hex then 16 else 10;
    var digits := if hex then u[2..] else u;
    var n := RadixDigitsPrefix(digits, radix);
    if n == 0 then None
    else
      var v: int := RadixValue(digits[..n], radix);
      Some(if negative then -v else v)
  }

  lemma {:induction false} RadixTenIsDecimal(s: string)
    requires AllDigits(s)
    ensures RadixValue(s, 10) == DigitsValue(s)
  {
    if s != [] {
      RadixTenIsDecimal(s[..|s| - 1]);
    }
  }

  lemma {:induction false} DigitsPrefixAll(s: string, radix: nat)
    requires AllDigits(s)
    ensures RadixDigitsPrefix(s, radix) == |s|
  {
    if s != [] {
      DigitsPrefixAll(s[1..], radix);
    }
  }

  /** `parseInt` of a non-empty string of decimal digits is its decimal value. */
  lemma ParseIntOfDigits(s: string, detectHex: bool)
    requires s != [] && AllDigits(s)
    requires detectHex ==> !(|s| >= 2 && s[0] == '0' && (s[1] == 'x' || s[1] == 'X'))
    ensures ParseInt(s, detectHex) == Some(DigitsValue(s))
  {
    assert IsDigit(s[0]) && !IsSpace(s[0]);
    assert SkipWhitespace(s, 0) == 0;
    assert TrimStart(s) == s;
    DigitsPrefixAll(s, 10);
    assert s[..|s|] == s;
    RadixTenIsDecimal(s);
  }

  /** `parseInt(String(n))` gives `n` back. */
  lemma ParseIntOfDecimal(n: nat, detectHex: bool)
    ensures ParseInt(NatToDecimal(n), detectHex) == Some(n)
  {
    var s := NatToDecimal(n);
    if |s| >= 2 {
      assert IsDigit(s[1]);
    }
    ParseIntOfDigits(s, detectHex);
    DecimalRoundTrip(n);
  }

  /** The digit prefix of digits followed by a non-digit ends at the non-digit. */
  lemma {:induction false} DigitsPrefixBefore(s: string, rest: string)
    requires AllDigits(s) && (rest == [] || !IsDigit(rest[0]))
    ensures RadixDigitsPrefix(s + rest, 10) == |s|
    decreases |s|
  {
    if s == [] {
      assert s + rest == rest;
    } else {
      assert (s + rest)[1..] == s[1..] + rest;
      DigitsPrefixBefore(s[1..], rest);
    }
  }

  /** `parseInt` reads the decimal text of a positive number back even when other text follows it. */
  lemma ParseIntOfDecimalPrefix(n: nat, rest: string, detectHex: bool)
    requires n >= 1 && (rest == [] || !IsDigit(rest[0]))
    ensures ParseInt(NatToDecimal(n) + rest, detectHex) == Some(n)
  {
    var d := NatToDecimal(n);
    var s := d + rest;
    assert s[0] == d[0];
    ParseIntUnsigned(s, detectHex);
    DigitsPrefixBefore(d, rest);
    assert s[..|d|] == d;
    RadixTenIsDecimal(d);
    DecimalRoundTrip(n);
  }

  /** `parseInt` of text that starts with a decimal digit (and is no `0x` prefix) reads its leading digits. */
  lemma ParseIntUnsigned(s: string, detectHex: bool)
    requires s != [] && IsDigit(s[0])
    requires detectHex ==> !(|s| >= 2 && s[0] == '0' && (s[1] == 'x' || s[1] == 'X'))
    ensures ParseInt(s, detectHex) == Some(RadixValue(s[..RadixDigitsPrefix(s, 10)], 10))
  {
    assert !IsSpace(s[0]);
    assert SkipWhitespace(s, 0) == 0;
    assert TrimStart(s) == s;
  }
}
