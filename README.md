# study-planner-bot — a Dafny model of its core

This project models the parts of the study-planner WhatsApp bot and its web backend that hold the program's logic, and proves what they promise:

- **Timetable extraction** (`extractSchedule`). Text from a PDF or OCR becomes schedule items `{ subject, time, day }`. The text is split into lines, and each line is seen with its neighbours. The scan has two stages: an explicit `h:mm - h:mm` range pre-pass, then five time patterns in a fixed order (`h:mm AM|PM`, bare `h:mm`, `h AM|PM`, `h.mm`, compact `930-1020`). Every accepted time is normalised to `H:MM AM|PM` or a range of two such times. A subject and a day are inferred for each item. The items are then de-duplicated and stably sorted by start minute. Every regular expression is an explicit scanner over the characters, tried alternative by alternative in the engine's order (`Patterns`).
- **The reminder tick** (`startReminders`). `convertStartToMinutes` and `dayMatchesToday` are modelled exactly. For each listed user, the tick runs a schedule loop that announces a class exactly `lead` minutes before it starts. It then runs a reminders loop that sends each due reminder, keeps the pending ones and writes them back. Self-bot mode restricts the tick to the owner's chat. A `null` schedule item stops that user's turn; the model does not follow the unhandled rejection further (see "## Left out").
- **The offline document store** (`config/firebase.js`). This covers `deepMerge`, the mock `db.collection(name).doc(id).get/set/update`, the collection `get` listing, and `normalizePrivateKey`.
- **The bot's todo commands** (`handleTodoCommand`). The model covers `todo add`, `todo list` and `done N` on the stored list, written back with `set({ todos }, { merge: true })`.
- **The backend's user endpoints** (`userController.js`). The modelled endpoints are `registerUser`, `loginUser`, `getUserProfile`, `updateUserSchedule`, `addTodo`, `updateTodo` and `deleteTodo`. Each is an operation on the `users` collection that returns an HTTP status.

JavaScript values are the `Json` datatype, and stored documents are `map<string, Json>`. Several JavaScript behaviours are modelled as the language defines them:

- `parseInt` without a radix detects `0x`.
- `||` and `?:` follow truthiness.
- `String(v)` has its own rendering of each kind of value.
- `new Date(bad)` is `Invalid Date`, which compares false with everything.
- Assigning a property of a primitive is a no-op.
- A `TypeError` (such as `push` on a non-array, or reading a field of `null`) inside a backend endpoint's `try` reaches its `catch`, which answers 500. The todo handler has no `try`: there the throw leaves `handleTodoCommand` before any reply or write.

Where the code and its comments disagree, the model follows the code:

- `"9:00 AM - 10:15 AM"` is not an explicit range, because the range pattern wants the separator straight after the minutes. It gives two single items.
- `h AM|PM` also fires inside `9:10 AM`.
- `dayMatchesToday` looks up two-letter days case-sensitively. The upper-case `MO` that the extractor writes for a two-letter hit therefore matches no weekday, so such a class is never announced (`Reminders.ExtractedDayMatches`).
- An unparseable `dueAt` is dropped, not kept.

Stateful code is imperative Dafny proved against specification functions:

- The extractor's line loop (`ScheduleExtraction.ExtractSchedule` against `Extracted`).
- The tick (`Reminders.RunTick` against `TickMessages` and `WriteBack`).
- `deepMerge` (`MockFirestore.DeepMerge` against `MergedOn`).
- The store class `MockFirestore.MockDb`.
- The todo handler and the endpoints, over `MockDb`.

The clock (`now` in milliseconds, the minute of the day, today's weekday), `new Date(r.dueAt)` (as milliseconds, `None` for `Invalid Date`), the lead time, `Date.now()` todo ids, ISO timestamps and the environment's self-bot settings are parameters.

## Model

| member | source | states |
|---|---|---|
| JsText.Trim | utils/exractSchedule.js:18 | `trim` starts and ends with non-whitespace, and is empty exactly when the text is all whitespace |
| JsText.TrimSlice | utils/exractSchedule.js:18 | `trim` is the slice of the text after its leading whitespace, and everything after that slice is whitespace |
| JsText.TrimKeepsNonSpace | utils/exractSchedule.js:18 | `trim` drops whitespace only: the non-whitespace characters are all kept, in order |
| JsText.TrimLeadingSpace | utils/exractSchedule.js:173-174 | a space in front of a text disappears in `trim` |
| JsText.TrimTrailingSpace | utils/exractSchedule.js:173-174 | a space after a text disappears in `trim` |
| JsText.TrimKeepsFront | utils/exractSchedule.js:173-174 | a text starting with non-whitespace keeps that front when what follows it is trimmed |
| JsText.TrimNoop | utils/exractSchedule.js:18 | text with no whitespace at either end is its own trim |
| JsText.BeforeFirst | utils/exractSchedule.js:309 | `split('-')[0]` is the longest prefix without `-`, and it ends where the first `-` is |
| JsText.SplitJoin | bot/todoHandler.js:18 | splitting at a character and joining with it gives the text back |
| JsText.JoinSplit | bot/todoHandler.js:18 | joining pieces that do not hold the separator and splitting again gives the pieces back |
| JsText.SplitOnCons | utils/exractSchedule.js:17 | the text before the first separator is the first piece, and the rest is split on |
| JsText.CollapseSpaces | utils/exractSchedule.js:18 | `replace(/\s{2,}/g, ' ')` and `replace(/\s+/g, ' ')` never lengthen the text, add only spaces, leave only plain spaces in the second form, and keep a non-whitespace first character |
| JsText.CollapseKeepsNonSpace | utils/exractSchedule.js:18 | collapsing whitespace keeps every non-whitespace character, in order |
| JsText.CollapseNoDoubleSpace | utils/exractSchedule.js:18 | after collapsing no two whitespace characters are adjacent |
| JsText.CollapseBlank | utils/exractSchedule.js:18 | a whitespace run alone becomes one space when it is long enough for the pattern, and is kept otherwise |
| JsText.CollapseNoSpace | utils/exractSchedule.js:18 | text without whitespace is left unchanged |
| JsText.CollapseIsInterleave | utils/exractSchedule.js:18 | the rewrite works run by run: the pieces between whitespace runs are kept, and each run becomes one space when it is long enough and is kept otherwise |
| JsText.CollapseIsJoin | utils/exractSchedule.js:173 | `s.replace(/\s+/g, ' ')` is `s.split(/\s+/).join(' ')` |
| JsText.TrimCollapseIsWords | utils/exractSchedule.js:172-174 | `replace(/\s+/g, ' ').trim()` is the non-empty pieces of `split(/\s+/)` joined by single spaces |
| JsText.BlankPunctuation | utils/exractSchedule.js:172 | every character that is neither a word character nor whitespace becomes a space; the length is kept |
| JsText.Keep | utils/exractSchedule.js:141 | `replace(/[^...]/g, '')` keeps only allowed characters of the text, never lengthens it, leaves text made only of them unchanged and empties text with none |
| JsText.KeepAppend | utils/exractSchedule.js:141 | the removal works character by character: the kept characters of a concatenation are those of each part, in order, so every allowed character is kept in place |
| JsText.SplitWords | utils/exractSchedule.js:135 | no piece of `split(/\s+/)` holds whitespace, and there is at least one piece |
| JsText.SplitWordsInterleave | utils/exractSchedule.js:135 | the pieces of `split(/\s+/)`, with the whitespace runs between them put back, give the text back; there is one run fewer than pieces |
| JsText.SplitSeps | utils/exractSchedule.js:135 | the runs the split cuts at are non-empty and all whitespace |
| JsText.LeadingSep | utils/exractSchedule.js:135 | the whitespace run a text starts with is non-empty and all whitespace |
| JsText.SplitWordsInner | utils/exractSchedule.js:135 | only the first and the last piece can be empty |
| JsText.TextWords | utils/exractSchedule.js:172-174 | the words of a text are non-empty and hold no whitespace |
| JsText.NonEmptyPieces | utils/exractSchedule.js:19 | `filter(line => line.length > 0)` keeps only non-empty members, keeps a list with no empty member whole and empties a list of empty members |
| JsText.NonEmptyPiecesAppend | utils/exractSchedule.js:19 | the filter works member by member, so every non-empty member is kept, in order |
| JsText.NatToDecimal | utils/exractSchedule.js:86 | `String(n)` is a non-empty string of digits with no leading zero except for 0 |
| JsText.DecimalRoundTrip | utils/exractSchedule.js:86 | reading the digits of `String(n)` gives `n` |
| JsText.TwoDigitMinute | utils/exractSchedule.js:86 | `String(m).padStart(2, '0')` for a minute is two digits that read back as `m` |
| JsText.ParseInt | bot/todoHandler.js:23 | `parseInt` is `NaN` exactly when no digit of the radix follows the optional sign (and `0x`, when hex detection applies) |
| JsText.ParseIntOfDigits | utils/exractSchedule.js:58 | `parseInt` of decimal digits is their decimal value |
| JsText.ParseIntOfDecimal | bot/todoHandler.js:23 | `parseInt(String(n))` is `n` |
| JsText.ParseIntOfDecimalPrefix | bot/todoHandler.js:23 | `parseInt` reads a positive number back even when text that does not start with a digit follows it |
| Json.Or | bot/reminder.js:85 | `a \|\| b` is `a` when `a` is truthy and `b` otherwise |
| Json.Get | bot/reminder.js:79 | a field read finds a value exactly when the value is an object holding the key |
| Patterns.MatchAt | utils/exractSchedule.js:23-29 | a match attempt at `p` either fails or yields a non-empty match starting at `p` inside the text |
| Patterns.MatchAtShaped | utils/exractSchedule.js:23-41 | every match is made of its pattern's pieces: its captures, laid out in the text as the pattern lays them out |
| Patterns.ClockMeridiemAtShape | utils/exractSchedule.js:24 | `(\d{1,2}):(\d{2})\s*(AM\|PM)` matches as one or two hour digits, `:`, two minute digits, whitespace and `AM`/`PM` in any case, with those as groups; it fails only when no such text starts at `p` |
| Patterns.HourMinuteAtShape | utils/exractSchedule.js:25-27 | `(\d{1,2}):(\d{2})` and `(\d{1,2})\.(\d{2})` match as hour digits, the separator and two minute digits, with those as groups; they fail exactly when no such text starts at `p` |
| Patterns.HourMeridiemAtShape | utils/exractSchedule.js:26 | `(\d{1,2})\s*(AM\|PM)` matches as hour digits, whitespace and `AM`/`PM`, taking two digits whenever two fit; it fails exactly when neither length fits |
| Patterns.CompactRangeAtShape | utils/exractSchedule.js:28 | `\b(\d{3,4})\s*-\s*(\d{3,4})\b` matches as two groups of 3 or 4 digits joined by `-` between word boundaries; it fails exactly when no digit counts fit |
| Patterns.HourRangeAtShape | utils/exractSchedule.js:114 | the explicit range matches as two `h:mm` times with their four groups, joined by the separator; it fails only when no such text starts at `p` |
| Patterns.HourRangeAtNone | utils/exractSchedule.js:114 | when no explicit range starts at `p`, no reading of a first clock time there is followed by the separator and a second one |
| Patterns.WordsAtShape | utils/exractSchedule.js:32-41 | a `\b(w1\|w2\|...)\b` day pattern matches the first alternative that fits, ignoring case, as the matched text; it fails exactly when no alternative fits |
| Patterns.ClockTokenAtShape | utils/exractSchedule.js:150 | the clock token removed from subject candidates is a clock time with `:` or `.`, optional whitespace and meridiem, between word boundaries |
| Patterns.FindFrom | utils/exractSchedule.js:310 | a search from `p` yields the leftmost match at or after `p`, and nothing exactly when no position from `p` on matches |
| Patterns.AllFrom | utils/exractSchedule.js:183 | `matchAll` yields real matches, in order and without overlap; it is empty exactly when the search from `p` finds nothing, and starts with what it finds |
| Patterns.AllFromChain | utils/exractSchedule.js:183 | each match after the first is what a search from the end of the previous one finds, and a search from the end of the last finds nothing |
| Patterns.AllFromComplete | utils/exractSchedule.js:183 | no match is skipped: every position where the pattern matches lies inside one of the matches found |
| Patterns.RemoveFromShrinks | utils/exractSchedule.js:249-256 | removing every match never makes a text longer |
| TimeFormat.ParseCompactDigitsToHM | utils/exractSchedule.js:56-64 | an accepted compact time has an hour 0..23 and a minute 0..59 |
| TimeFormat.CompactDigitsMeaning | utils/exractSchedule.js:56-64 | digits `n` are read as hour `n / 100` and minute `n % 100`, accepted exactly when both are in range |
| TimeFormat.CompactDigitsRoundTrip | utils/exractSchedule.js:56-64 | writing a time as `h * 100 + m` and parsing it gives the time back |
| TimeFormat.ClockOf | utils/exractSchedule.js:73-88 | every 24-hour time has a 12-hour reading (hour 1..12, minute 0..59) that stands for the same minute of the day |
| TimeFormat.ToAmPmIsClock | utils/exractSchedule.js:73-88 | `toAmPm` writes the 12-hour reading of its time |
| TimeFormat.ToAmPm | utils/exractSchedule.js:73-88 | `toAmPm`; what it writes is stated by `ToAmPmIsClock` and `ToAmPmRoundTrip` |
| TimeFormat.IsValidHM | utils/exractSchedule.js:66-71 | `isValidHM`: integer hour and minute, minute 0..59, hour 1..12 in 12-hour form and 0..23 otherwise |
| TimeFormat.ClockTextLayout | utils/exractSchedule.js:87 | a canonical time is 1 or 2 hour digits, `:`, two minute digits, a space and `AM`/`PM`, and holds no `-` |
| TimeFormat.ToAmPmRoundTrip | utils/exractSchedule.js:307-330 | `convertTimeToMinutes(toAmPm(h, m))` is `h * 60 + m` for every valid time |
| TimeFormat.ClockTextMatch | utils/exractSchedule.js:310 | the `h:mm AM\|PM` search finds the whole canonical text with its hour, minute and meridiem as groups |
| TimeFormat.ConvertClockText | utils/exractSchedule.js:307-318 | the sort key of a canonical time is the minute of the day it stands for |
| TimeFormat.MeridiemCaptures | utils/exractSchedule.js:312-317 | 12 AM is hour 0, and a PM hour other than 12 gains 12, so the groups give the time's own minute |
| TimeFormat.ConvertRangeText | utils/exractSchedule.js:307-318 | the sort key of a canonical range is the minute its start stands for |
| TimeFormat.ConvertCanonicalStart | utils/exractSchedule.js:307-330 | the sort key of any canonical time or range is the minute of the valid clock time it starts with |
| TimeFormat.ConvertTimeToMinutes | utils/exractSchedule.js:307-330 | `convertTimeToMinutes`; its value on every time the extractor writes is stated by `ConvertCanonicalStart` |
| TimeFormat.NormalizeDigitsRangeIsRange | utils/exractSchedule.js:90-104 | a normalised compact range is two canonical times 15 minutes to 6 hours apart, the end after the start |
| TimeFormat.NormalizeDigitsRange | utils/exractSchedule.js:90-104 | `normalizeDigitsRange`; its meaning is stated by `NormalizeDigitsRangeMeaning` |
| TimeFormat.NormalizeDigitsRangeMeaning | utils/exractSchedule.js:90-104 | a compact range is accepted exactly when both ends parse as valid times and the end is 15 minutes to 6 hours after the start; it then writes the two times' 12-hour readings |
| TimeFormat.NormalizeRejectsBackwards | utils/exractSchedule.js:94-97 | a compact range whose end is not after its start gives no item |
| ScheduleExtraction.Lines | utils/exractSchedule.js:16-19 | every line kept is non-blank, holds no newline and has no whitespace at either end |
| ScheduleExtraction.LinesOfOne | utils/exractSchedule.js:16-19 | text without a newline gives its cleaned self as its one line, or no line when that is empty |
| ScheduleExtraction.LinesCons | utils/exractSchedule.js:16-19 | the lines of `a + "\n" + b` are those of `a` followed by those of `b`: every non-blank piece is kept, cleaned, in order |
| ScheduleExtraction.CleanLine | utils/exractSchedule.js:18 | a collapsed and trimmed piece is empty or a clean line |
| ScheduleExtraction.CleanLineMeaning | utils/exractSchedule.js:18 | a cleaned line keeps every non-whitespace character of its piece, in order, and has no two whitespace characters side by side |
| ScheduleExtraction.FindWordWith | utils/exractSchedule.js:136 | `findIndex` gives the first word whose lower case contains the keyword, or -1 when none does |
| ScheduleExtraction.Candidates | utils/exractSchedule.js:147-154 | every subject candidate is 2 to 60 characters long |
| ScheduleExtraction.CandidatesOfOne | utils/exractSchedule.js:147-154 | one text gives its cleaned form exactly when it is non-empty and the cleaned form is 2 to 60 characters long |
| ScheduleExtraction.CandidatesAppend | utils/exractSchedule.js:147-154 | candidates are taken text by text, in order |
| ScheduleExtraction.FirstLetterIndex | utils/exractSchedule.js:155 | the index of the first candidate with an ASCII letter, none before it having one, or -1 when none has one |
| ScheduleExtraction.FirstWithLetter | utils/exractSchedule.js:155 | the fallback subject is the first candidate with an ASCII letter, and `Class` exactly when no candidate has one |
| ScheduleExtraction.Cleaned | utils/exractSchedule.js:171-174 | the cleaned subject holds only word characters and spaces and is trimmed |
| ScheduleExtraction.CleanedIsWords | utils/exractSchedule.js:171-174 | the cleaned subject is the words of the text, with punctuation blanked, one space apart |
| ScheduleExtraction.Collapsed | utils/exractSchedule.js:172-173 | after blanking punctuation and collapsing whitespace, only word characters and spaces remain |
| ScheduleExtraction.CollapsedIsJoin | utils/exractSchedule.js:172-173 | before the trim, it is the pieces between whitespace runs of the blanked text, one space apart |
| ScheduleExtraction.CleanSubject | utils/exractSchedule.js:171-175 | every subject is at least two characters, only word characters and spaces, trimmed |
| ScheduleExtraction.FirstDayPattern | utils/exractSchedule.js:160-169 | the day comes from the first pattern in order that occurs in the window, and no earlier pattern occurs |
| ScheduleExtraction.FindKeywordSubject | utils/exractSchedule.js:233-245 | the keyword loop yields the subject of the first keyword, in list order, that some word contains |
| ScheduleExtraction.InferSubject | utils/exractSchedule.js:230-258 | the subject is the keyword phrase, or else the first nearby candidate with a letter, or `Class` |
| ScheduleExtraction.SubjectFor | utils/exractSchedule.js:130-175 | the subject of an item: the keyword phrase, else the first nearby candidate with a letter, else `Class`, then cleaned |
| ScheduleExtraction.InferDay | utils/exractSchedule.js:261-271 | the day loop yields the formatted first hit of the first pattern that occurs, `""` when none does |
| ScheduleExtraction.DayOf | utils/exractSchedule.js:158-169 | the formatted first hit of the first day pattern that occurs; its facts are stated by `DayOfFacts` |
| ScheduleExtraction.MakeEntry | utils/exractSchedule.js:274-280 | an accepted time gives the item with the inferred subject, and the day or `Daily` |
| ScheduleExtraction.EmitEntries | utils/exractSchedule.js:186-280 | an accepted time adds one item, and a skipped match adds none |
| ScheduleExtraction.ScanRanges | utils/exractSchedule.js:113-180 | the pre-pass adds the items of its accepted range matches, in order |
| ScheduleExtraction.ScanKind | utils/exractSchedule.js:183-281 | one time pattern adds the items of its accepted matches, in match order |
| ScheduleExtraction.ScanKinds | utils/exractSchedule.js:182-282 | the five patterns add their items pattern by pattern, in order |
| ScheduleExtraction.ScanLine | utils/exractSchedule.js:107-282 | a line contributes its range items first, then the items of the five patterns |
| ScheduleExtraction.Dedupe | utils/exractSchedule.js:286-288 | the de-duplication loop keeps an item exactly when no earlier item has the same subject, time and day |
| ScheduleExtraction.ExtractSchedule | utils/exractSchedule.js:6-301 | the line loop, de-duplication and sort return `Extracted(text)` |
| ScheduleExtraction.Extracted | utils/exractSchedule.js:6-301 | what `extractSchedule` returns; its properties are stated by `ExtractedProperties` |
| ScheduleExtraction.ExtractedProperties | utils/exractSchedule.js:10-13 | blank text gives no items; otherwise the result has no duplicates, is sorted by start minute, is well formed, and is a reordering of the first occurrences of the items the lines produce |
| ScheduleExtraction.SortedUniqueWellFormed | utils/exractSchedule.js:286-291 | de-duplicating and sorting well-formed items keeps them well formed |
| ScheduleExtraction.BareClockNeedsDay | utils/exractSchedule.js:196-206 | a bare `h:mm` is accepted only on a line with no `h:mm - h:mm` shape and with a day pattern in the window, so its item names a day |
| ScheduleExtraction.FormatDayIgnoresCase | utils/exractSchedule.js:164-166 | a day hit is formatted the same whatever its case |
| ScheduleExtraction.DayOfFacts | utils/exractSchedule.js:160-169 | the day is empty exactly when no day pattern occurs; otherwise it is a formatted day word |
| ScheduleExtraction.TwelveHourIsClock | utils/exractSchedule.js:207-209 | the inline conversion of the `hh:mm` and `h.mm` branches writes the 12-hour reading of the time |
| ScheduleExtraction.RangeTimeCanonical | utils/exractSchedule.js:118-128 | an accepted explicit range is two canonical times 15 minutes to 6 hours apart |
| ScheduleExtraction.RangeTime | utils/exractSchedule.js:118-128 | the explicit-range pre-pass on one match; its meaning is stated by `RangeTimeMeaning` |
| ScheduleExtraction.RangeTimeMeaning | utils/exractSchedule.js:118-128 | an explicit range is accepted exactly when both captured times are valid 24-hour times and the end is 15 minutes to 6 hours after the start; it then writes the two times' 12-hour readings |
| ScheduleExtraction.NormalizedTimeCanonical | utils/exractSchedule.js:186-228 | every time a pattern branch accepts is in the canonical form |
| ScheduleExtraction.NormalizedTime | utils/exractSchedule.js:186-228 | the time each pattern branch writes, or none when it skips the match; every such time is canonical by `NormalizedTimeCanonical` |
| ScheduleExtraction.ClockMeridiemCanonical | utils/exractSchedule.js:190-195 | the `h:mm AM\|PM` branch accepts hours 1..12 and writes `H:MM AM` or `H:MM PM` with an upper-case meridiem |
| ScheduleExtraction.HourMeridiemCanonical | utils/exractSchedule.js:210-214 | the `h AM\|PM` branch accepts hours 1..12 and writes `H:00 AM` or `H:00 PM` |
| ScheduleExtraction.MeridiemClockText | utils/exractSchedule.js:195 | an hour 1..12, a padded minute and an upper-cased meridiem form a canonical time |
| ScheduleExtraction.MeridiemUpper | utils/exractSchedule.js:194 | an upper-cased meridiem group is `AM` or `PM` |
| ScheduleExtraction.EntryWellFormed | utils/exractSchedule.js:274-280 | the item for a canonical time has a clean subject and `Daily` or a day word |
| ScheduleExtraction.RangeEntriesWellFormed | utils/exractSchedule.js:117-178 | every item of the pre-pass is well formed |
| ScheduleExtraction.KindEntriesWellFormed | utils/exractSchedule.js:186-281 | every item of one pattern is well formed |
| ScheduleExtraction.PatternEntriesWellFormed | utils/exractSchedule.js:182-282 | every item of the five patterns is well formed |
| ScheduleExtraction.LineEntriesWellFormed | utils/exractSchedule.js:107-282 | every item a line contributes is well formed |
| ScheduleExtraction.RawScheduleWellFormed | utils/exractSchedule.js:107-283 | every item of the line loop is well formed |
| ScheduleExtraction.StartMinutesInDay | utils/exractSchedule.js:307-330 | the sort key of a well-formed item is a minute of the day |
| Sequences.FirstIndex | utils/exractSchedule.js:287 | `findIndex` gives the first index holding the value, or -1 when there is none |
| Sequences.Dedup | utils/exractSchedule.js:286-288 | de-duplication never lengthens the list |
| Sequences.DedupKeepsFirstOccurrences | utils/exractSchedule.js:286-288 | every value is kept once, none twice, in the order of first occurrences |
| Sequences.DedupIdempotent | utils/exractSchedule.js:286-288 | de-duplicating twice is de-duplicating once |
| Sequences.DedupOfDistinct | utils/exractSchedule.js:286-288 | a list without duplicates is left as it is |
| Sequences.SortBy | utils/exractSchedule.js:291 | the sorted list is in non-decreasing key order and is a permutation of the input |
| Sequences.SortByStable | utils/exractSchedule.js:291 | items with equal keys keep their relative order |
| Sequences.PermutationKeepsDistinct | utils/exractSchedule.js:291 | reordering a list without duplicates leaves it without duplicates |
| MockFirestore.MergedOn | config/firebase.js:139-155 | the merged keys are the target's keys plus the handled source keys |
| MockFirestore.DeepMerge | config/firebase.js:139-155 | the key-by-key merge loop yields the merge of all source keys |
| MockFirestore.MergeValue | config/firebase.js:141-152 | one key: a plain-object source recurses into the target value (or `{}` for a missing or non-object one), and any other source value overwrites |
| MockFirestore.MergedRules | config/firebase.js:139-155 | target keys absent from the source are kept; arrays, primitives and `null` overwrite; plain objects merge recursively into an object or into `{}` |
| MockFirestore.MergedIdempotent | config/firebase.js:139-155 | merging the same source twice is merging it once |
| MockFirestore.MergedEmpty | config/firebase.js:139-155 | merging an empty source changes nothing |
| MockFirestore.Merged | config/firebase.js:139-155 | `deepMerge`; its rules are stated by `MergedRules`, `MergedIdempotent` and `MergedEmpty` |
| MockFirestore.MergedValue | config/firebase.js:141-152 | the merged value of one key, as `MergeValue` states it |
| MockFirestore.MockDb.constructor | config/firebase.js:121 | the store starts as `{ users: {} }` |
| MockFirestore.MockDb.Collection | config/firebase.js:160-161 | `collection(name)` adds an empty collection on first access and changes nothing else |
| MockFirestore.MockDb.Get | config/firebase.js:165-172 | `exists` is whether a document is stored, and `data()` is that document |
| MockFirestore.MockDb.Set | config/firebase.js:173-181 | `set` stores the data, deep-merged into an existing document when `merge` is given; nothing else changes |
| MockFirestore.MockDb.Update | config/firebase.js:182-190 | `update` merges into the document or into `{}`, so the document exists afterwards; nothing else changes |
| MockFirestore.MockDb.List | config/firebase.js:192-200 | the collection `get()` lists each stored document once, with its data |
| MockFirestore.NormalizePrivateKey | config/firebase.js:22-26 | the rewritten key is never longer than the input |
| MockFirestore.EscapeNewlines | config/firebase.js:25 | the escaped form of a key holds no newline |
| MockFirestore.NormalizeLeavesNoEscape | config/firebase.js:22-26 | no backslash-`n` pair survives the rewrite |
| MockFirestore.NormalizeFirst | config/firebase.js:22-26 | the first character is a newline for a leading pair and otherwise is kept |
| MockFirestore.NormalizeWithoutEscape | config/firebase.js:22-26 | a key without backslash-`n` pairs, the empty key included, is passed through unchanged |
| MockFirestore.NormalizeIdempotent | config/firebase.js:22-26 | normalising twice is normalising once |
| MockFirestore.NormalizeEscapeRoundTrip | config/firebase.js:22-26 | a key whose newlines were written as backslash-`n` reads back as the key |
| Reminders.StartMinutesInDay | bot/reminder.js:28-45 | a start minute, when there is one, is in 0..1439 |
| Reminders.ConvertStartToMinutes | bot/reminder.js:28-45 | `convertStartToMinutes`; its range is stated by `StartMinutesInDay` and its value on canonical times by `CanonicalStartMinutes` |
| Reminders.CanonicalStartMinutes | bot/reminder.js:28-45 | the start minute of any time the extractor writes is the minute it stands for, and equals the extractor's sort key |
| Reminders.StartTextOfString | bot/reminder.js:32 | only the trimmed text before the first `-` is read |
| Reminders.StartOfMatch | bot/reminder.js:33-41 | the start minute is read from the `h:mm AM\|PM` match of that text |
| Reminders.ClockStartMinutes | bot/reminder.js:35-41 | the start minute of a canonical time is the minute it stands for |
| Reminders.TwelveOClock | bot/reminder.js:38-39 | `12:00 AM` starts at minute 0, and `12:00 PM` at minute 720 |
| Reminders.DayMatchesToday | bot/reminder.js:47-59 | `dayMatchesToday`: no day or a blank one matches, else the trimmed text is tested by `TrimmedDayMatches` |
| Reminders.TrimmedDayMatches | bot/reminder.js:53-58 | `daily` in any case matches; else the capitalised first three letters are looked up among the names, then the first two letters among the two-letter keys |
| Reminders.DayMatchesAsWritten | bot/reminder.js:52 | a non-empty day string is tested on its trimmed text |
| Reminders.DailyMatchesEveryDay | bot/reminder.js:47-53 | a missing, blank or `daily` day (in any case) matches every weekday |
| Reminders.WeekdayTables | bot/reminder.js:50-51 | the weekday names are distinct, capitalised three-letter words, and the two-letter keys are their first two letters |
| Reminders.NameMatchesItsWeekday | bot/reminder.js:54-55 | a day whose first three letters name a weekday, in any case, matches that weekday and no other |
| Reminders.TwoLetterMatchesItsWeekday | bot/reminder.js:56-57 | `Su`..`Sa`, spelled as in the table, match their own weekday only |
| Reminders.CapitalTwoLetterMatchesNothing | bot/reminder.js:56-58 | a two-letter day in capitals, such as `MO`, matches no weekday |
| Reminders.ExtractedDayMatches | bot/reminder.js:47-59 | a day the extractor writes matches the weekday of its pattern; the two-letter forms it writes match no weekday |
| Reminders.DayPatternWords | utils/exractSchedule.js:32-41 | the words of weekday pattern `k` begin with that weekday's lower-case name; the last pattern's words are two letters |
| Reminders.FormattedNameMatches | bot/reminder.js:54-55 | a title-cased day word matches its weekday alone |
| Reminders.NotifiesOnlyAtLead | bot/reminder.js:85-96 | a class is announced exactly when it has a start minute, its day matches, and the current minute is the start less the lead; a `null` item throws |
| Reminders.EarlyClassNeverNotifies | bot/reminder.js:91 | a class starting less than `lead` minutes after midnight is never announced |
| Reminders.ScheduleItems | bot/reminder.js:79-81 | the items are `schedule` when it is an array, else `schedule.items` when that is an array, else none |
| Reminders.ItemStepOf | bot/reminder.js:84-97 | what one schedule item does: throws on `null`, else the notification of `NotifiesOnlyAtLead` or nothing |
| Reminders.ScheduleRun | bot/reminder.js:83-98 | the schedule loop; its facts are stated by `ScheduleRunFacts` |
| Reminders.ItemSteps | bot/reminder.js:84-97 | each item's step is decided by that item alone |
| Reminders.ScheduleRunFacts | bot/reminder.js:83-98 | the loop stops exactly when an item is `null`, sends at most one text per item, and sends only texts of items that fire |
| Reminders.RunStepsStops | bot/reminder.js:84-97 | the loop stops exactly at a throwing item |
| Reminders.RunStepsTexts | bot/reminder.js:84-97 | every text sent is the notification of one item |
| Reminders.NotifyClasses | bot/reminder.js:83-98 | the schedule loop sends the texts of `ScheduleRun` |
| Reminders.TakeSteps | bot/reminder.js:84-97 | the loop sends each notification in order and stops at the first `null` item |
| Reminders.CheckReminder | bot/reminder.js:104-117 | a reminder is sent in the minute after it is due, kept while it is ahead, and otherwise dropped, an invalid date included; a `null` entry is kept |
| Reminders.FateOf | bot/reminder.js:103-117 | the fate of one reminder, as `CheckReminder` states it |
| Reminders.ReminderRun | bot/reminder.js:101-118 | the reminders loop; its facts are stated by `ReminderPartition` |
| Reminders.PartitionReminders | bot/reminder.js:101-118 | the reminders loop sends and keeps what `ReminderRun` says |
| Reminders.ReminderPartition | bot/reminder.js:102-118 | kept reminders are exactly the pending ones, in their order; sent, kept and dropped add up to all; each text sent belongs to a due reminder |
| Reminders.WriteOnlyForReminders | bot/reminder.js:101-128 | `remaining` is written exactly when `reminders` is a non-empty array and no schedule item is `null`, and it is a subsequence of `reminders` |
| Reminders.ProcessUser | bot/reminder.js:76-129 | one user's turn sends the texts and writes the reminders of `UserTurn` |
| Reminders.UserTurn | bot/reminder.js:76-129 | one user's turn: the schedule loop, then, unless it stopped on a `null` item, the reminders loop and its write |
| Reminders.Messages | bot/reminder.js:95 | every text goes to the user's chat, in order |
| Reminders.MergeReminders | bot/reminder.js:122 | writing back `{ reminders }` replaces that one field |
| Reminders.WriteOneOnlyReminders | bot/reminder.js:119-128 | one user's write-back changes only that user's `reminders` |
| Reminders.WriteBackOnlyReminders | bot/reminder.js:70-130 | a tick changes no field but `reminders`, and no document of a skipped user |
| Reminders.TickMessages | bot/reminder.js:70-130 | the messages of one tick, user by user in listing order |
| Reminders.WriteBack | bot/reminder.js:70-130 | the `users` collection after one tick; only `reminders` fields change, by `WriteBackOnlyReminders` |
| Reminders.SelfModeOnlyOwner | bot/reminder.js:63-75 | in self mode every message goes to the owner's chat, and none is sent when no self phone resolves |
| Reminders.TickUser | bot/reminder.js:70-129 | the callback for one listed user sends its messages and writes back its reminders, or skips it |
| Reminders.ListUsers | bot/reminder.js:65 | the users are listed from the `users` collection, which is created if absent |
| Reminders.TickUsers | bot/reminder.js:70-130 | every listed user's callback runs in listing order, giving `TickMessages` and `WriteBack` |
| Reminders.RunTick | bot/reminder.js:61-131 | one tick lists the users and takes each selected user's turn; only the `users` collection changes |
| TodoCommands.LoadedTodos | bot/todoHandler.js:6 | the list is the stored `todos` array, or empty for a missing document or a falsy `todos` |
| TodoCommands.MarkDone | bot/todoHandler.js:25 | marking a truthy item leaves it truthy |
| TodoCommands.ItemLines | bot/todoHandler.js:18 | there is one line per item |
| TodoCommands.ItemLinesAt | bot/todoHandler.js:18 | line `i` is item `i` under the number `i + 1` |
| TodoCommands.HandleTodoCommand | bot/todoHandler.js:3-31 | the reply is that of `TodoCommand` on the loaded list, and only the user's document changes, as `AfterCommand` says |
| TodoCommands.LoadTodos | bot/todoHandler.js:4-6 | the handler reads the list of `LoadedTodos` from the user's document, and only creates the `users` collection |
| TodoCommands.WriteBack | bot/todoHandler.js:11 | `set({ todos }, { merge: true })` writes the changed list, and only that document changes |
| TodoCommands.NotArrayThrows | bot/todoHandler.js:8-30 | with a truthy `todos` that is not an array every command throws before any write |
| TodoCommands.TodoCommand | bot/todoHandler.js:8-31 | the outcome of one text; its cases are stated by `OtherTextIgnored`, `Dispatch`, `AddAppends` and `DoneMarksOnlyTarget` |
| TodoCommands.DoneCommand | bot/todoHandler.js:22-29 | `done N`; its meaning is stated by `DoneMarksOnlyTarget` |
| TodoCommands.ListReply | bot/todoHandler.js:15-20 | the reply to `todo list`; its meaning is stated by `NoTasksWhenEmpty` and `ListReadsBack` |
| TodoCommands.RunCommand | bot/todoHandler.js:8-30 | the commands are tried in order, as `TodoCommand` says |
| TodoCommands.RunAdd | bot/todoHandler.js:8-12 | `todo add` pushes the trimmed task |
| TodoCommands.RunDone | bot/todoHandler.js:22-29 | `done` marks the named item or replies that the number is invalid |
| TodoCommands.OtherTextIgnored | bot/todoHandler.js:8-31 | text that is no command gives no reply and no write, and only `todo add` and `done` write |
| TodoCommands.Dispatch | bot/todoHandler.js:8-30 | `todo add X` and `done X` run their own command on `X` |
| TodoCommands.AddAppends | bot/todoHandler.js:8-12 | `todo add X` appends `{ task: trim(X), done: false }` at the end and keeps every earlier item |
| TodoCommands.DoneNumber | bot/todoHandler.js:23 | the number in `done N` is read as `N` |
| TodoCommands.DoneMarksOnlyTarget | bot/todoHandler.js:22-29 | `done N` with `1 <= N <= length` and a truthy item sets `done` on item `N - 1` only; otherwise nothing is written and the reply is the invalid-number message |
| TodoCommands.DoneNaN | bot/todoHandler.js:23-29 | `done` with no number writes nothing and replies that the number is invalid |
| TodoCommands.DoneIdempotent | bot/todoHandler.js:24-26 | marking the same item again leaves the list as it was |
| TodoCommands.NoTasksWhenEmpty | bot/todoHandler.js:16-17 | `todo list` replies "No tasks" exactly when the list is empty |
| TodoCommands.ListReadsBack | bot/todoHandler.js:15-20 | the list reply is the header and one line per item in order, and line `k` reads back as number `k` |
| TodoCommands.ListSplits | bot/todoHandler.js:18-19 | the list reply splits into the header and the item lines |
| TodoCommands.ItemLineReadsBack | bot/todoHandler.js:18 | the number heading an item line reads back with `parseInt` |
| TodoCommands.ItemLineHasNoBreak | bot/todoHandler.js:18 | an item line has no line break when its task text has none |
| TodoCommands.AddThenList | bot/todoHandler.js:8-20 | after `todo add X`, the list shows the earlier lines and one more open line for `X` |
| TodoCommands.NewTaskLine | bot/todoHandler.js:18 | a new task is listed as open, with its text |
| TodoCommands.WrittenReadsBack | bot/todoHandler.js:11 | what a command writes is what the next command reads, and no other user's document changes |
| TodoCommands.DoneTwiceThroughStore | bot/todoHandler.js:22-28 | sending the same `done N` twice leaves the store as one did |
| TodoCommands.DoneWriteStable | bot/todoHandler.js:22-28 | when a first `done N` writes a list, a second one on the stored result writes that same list |
| TodoCommands.DoneRewritesSame | bot/todoHandler.js:22-28 | `done N` on the list a first `done N` wrote, read back from the store, writes the same list |
| TodoCommands.WrittenTwice | bot/todoHandler.js:26 | writing the same list twice with a merge is writing it once |
| UserController.SavedRules | website/backend/routes/controllers/userController.js:290-293 | saving the todos changes one document, which reads back the saved list and keeps every other field |
| UserController.TodoCountIsStored | website/backend/routes/controllers/userController.js:107 | the profile's `todoCount` is the length of the list the todo endpoints work on |
| UserController.Registered | website/backend/routes/controllers/userController.js:4-48 | 400 exactly when email or phone is missing, 409 exactly when the phone is known, and neither writes; 201 exactly when both are given and the phone is new, adding exactly one new record |
| UserController.RegisterUser | website/backend/routes/controllers/userController.js:4-48 | registration answers and stores as `Registered`, and a 400 does not touch the store |
| UserController.LoginUser | website/backend/routes/controllers/userController.js:51-86 | login answers 400, 404 or 200 with the stored phone and email, and stores nothing |
| UserController.LoggedIn | website/backend/routes/controllers/userController.js:51-86 | the answer to a login, as `LoginUser` states it |
| UserController.GetUserProfile | website/backend/routes/controllers/userController.js:89-119 | the profile answers 404 for an unknown user, else the schedule and todo counts, and stores nothing |
| UserController.ProfileOf | website/backend/routes/controllers/userController.js:89-119 | the profile answer, as `GetUserProfile` states it |
| UserController.ScheduleUpdated | website/backend/routes/controllers/userController.js:189-227 | 400 for a schedule that is not an array (before any lookup), 404 for an unknown user, and 200 exactly for an array schedule and a known user, with `schedule` replaced and every other field but `updatedAt` kept |
| UserController.UpdateUserSchedule | website/backend/routes/controllers/userController.js:189-227 | the endpoint answers and stores as `ScheduleUpdated` |
| UserController.TodoAdded | website/backend/routes/controllers/userController.js:256-306 | 400 exactly when `task` is missing, 404 for an unknown user, 500 exactly for a known user whose truthy `todos` is not an array, and 201 exactly otherwise, the stored list being the old one plus the new todo at the end |
| UserController.AddTodo | website/backend/routes/controllers/userController.js:256-306 | the endpoint pushes and stores as `TodoAdded` |
| UserController.FindTodo | website/backend/routes/controllers/userController.js:326 | `findIndex` finds the first todo with the id, with none before it `null` or matching; it reports a miss exactly when no todo matches and none is `null` |
| UserController.TodoUpdated | website/backend/routes/controllers/userController.js:309-356 | 404 exactly for an unknown user or a missing id, 500 exactly when `todos` is a truthy non-array or a `null` todo comes before any match, and 200 exactly when the id is found; no other user changes |
| UserController.UpdateTodo | website/backend/routes/controllers/userController.js:309-356 | the endpoint edits in place and stores as `TodoUpdated` |
| UserController.EditedFields | website/backend/routes/controllers/userController.js:335-337 | `task` and `done` are written when given and otherwise kept, `updatedAt` is set, and every other field is kept |
| UserController.UpdateTodoRules | website/backend/routes/controllers/userController.js:326-343 | only the first todo with the id changes, with its given fields written, and it is still found under the same id |
| UserController.FindKept | website/backend/routes/controllers/userController.js:326 | editing the found todo without changing its id keeps it the first match |
| UserController.TodoDeleted | website/backend/routes/controllers/userController.js:359-402 | 404 exactly for an unknown user or a missing id, 500 exactly when `todos` is a truthy non-array or a `null` todo comes before any match, and 200 exactly when the id is found; no other user changes |
| UserController.DeleteTodo | website/backend/routes/controllers/userController.js:359-402 | the endpoint splices and stores as `TodoDeleted` |
| UserController.DeleteTodoRules | website/backend/routes/controllers/userController.js:375-390 | exactly the first todo with the id is removed, and the others keep their order |
| UserController.SpliceRemovesOne | website/backend/routes/controllers/userController.js:384 | `splice(i, 1)` removes one occurrence of the item at `i` |
| UserController.FindAppended | website/backend/routes/controllers/userController.js:326 | a todo pushed at the end is found when nothing before it matches |
| UserController.RegisterThenLogin | website/backend/routes/controllers/userController.js:25-78 | a registered user logs in with the same phone and gets back the stored phone and email |
| UserController.RegisterThenProfile | website/backend/routes/controllers/userController.js:25-107 | a new user's profile shows no schedule entries and no todos |
| UserController.RegisterOnce | website/backend/routes/controllers/userController.js:16-22 | registering the same phone again is a conflict and changes nothing |
| UserController.ScheduleThenProfile | website/backend/routes/controllers/userController.js:106-214 | after a schedule update the profile counts the new entries and keeps the todo count |
| UserController.AddThenProfile | website/backend/routes/controllers/userController.js:107-293 | adding a todo raises the profile's todo count by one |
| UserController.AddThenDelete | website/backend/routes/controllers/userController.js:278-390 | deleting the todo just added, by its new id, gives the earlier list back |

## Left out

- Sending messages (`sock.sendMessage`) is modelled as the list of messages sent. A failed send and the interleaving of the `async` per-user callbacks are not modelled. The model sends each user's messages in listing order.
- Reminders.UserTurn: a `null` schedule item makes `s.time` (bot/reminder.js:85) throw outside any `try`, inside the `async` callback that `users.forEach` starts (bot/reminder.js:70). Nobody awaits or catches that callback's promise, and no `unhandledRejection` handler is installed, so the rejection is unhandled. Under Node's default since version 15 this ends the process, cutting off the other users' pending sends and write-backs and every later tick. The model stops only that user's turn and goes on with the other users; the process-level effect is not modelled.
- `cron.schedule` is not modelled: one tick is one call. `new Date()`, `getHours`, `getMinutes` and `getDay` are the parameters of `Clock`. `new Date(r.dueAt)` (as milliseconds, `None` for `Invalid Date`) is the `parseDate` parameter.
- The environment and file reads of `resolveSelfPhone` are not modelled: the resolved self phone is a parameter. `Number(process.env.CLASS_NOTIFY_LEAD_MIN || 5)` is the integer parameter `lead`, so a non-numeric lead (`NaN`) is not modelled.
- Floating point is not modelled. Numbers in documents are integers, and `Date` values are integer milliseconds.
- Strings are sequences of code points, not UTF-16 units, and case mapping covers ASCII letters only. `\s` is the full set of JavaScript whitespace.
- Object key order is not modelled (`Object.keys`, `Object.entries`). The collection listing is any order that lists each document once.
- MockFirestore.DeepMerge: the merge works on values, not by mutating a shared target. Aliasing between a stored document and a caller's object is therefore not modelled. A plain-object source value merged into an array target is modelled as leaving the array unchanged, while JavaScript would set properties on the array.
- ScheduleExtraction.ExtractSchedule: the model takes a string. The `catch` at utils/exractSchedule.js:297-300 is only reachable for a non-string `text`, which is not modelled.
- ScheduleExtraction.ExtractSchedule: the in-place `sort` is modelled as a stable sort of a sequence (`Sequences.SortBy`), not as an array algorithm.
- The day-context check at utils/exractSchedule.js:205 uses `test` on global regular expressions, whose `lastIndex` persists between calls. The stateless check in the model is exact all the same: the patterns are created afresh on each call (utils/exractSchedule.js:32), `some` stops at the first pattern that matches and every pattern it passed failed and so was reset to 0, and the day loop at :262-271 (like the one at :160) then calls `match` on the same patterns in the same order up to that one, which resets each to 0. So every pattern starts each `test` at `lastIndex` 0.
- Console logging is not modelled.
- The service-account setup and the `persist()` file write in config/firebase.js are not modelled, nor is loading the mock store from its data file. The store starts as `{ users: {} }`.
- TodoCommands.HandleTodoCommand: when `todos` is a truthy value other than an array, the model takes every command to throw. The source differs in several cases. `todo add` does throw, since only arrays have `push`. `todo list` throws too, unless `todos.length === 0`, as for an object holding `length: 0`, which gets "No tasks". `done N` reads `todos[N - 1]`. On a number or a boolean that is `undefined`, so the reply is the invalid-number text. On a string it is a character: the assignment of `done` is ignored, the string is written back and the reply is "Marked". On an object holding a truthy value under key `N - 1`, that value is marked, the object is written back and the reply is "Marked".
- TodoCommands.TodoCommand: the same simplification, since it is the specification `HandleTodoCommand` is proved against.
- TodoCommands.DoneMarksOnlyTarget: setting `done` on an item that is an array (which JavaScript allows as a property) is modelled as leaving the item unchanged.
- MockFirestore.MockDb.Get: the offline store is a plain object, so `store.users[id]` also finds inherited properties. For an id such as `constructor`, `toString` or `__proto__` the source sees a truthy value and `exists` is true. The model's map holds only stored documents, so such an id reads as absent. `update` on such an id merges into the inherited value in the source.
- UserController.Registered: because of the inherited-property reads above, the source answers 409 for a phone such as `constructor` that was never registered. Login and profile answer 200 for it. The model treats it as an unknown phone, so "409 exactly when the phone is known" holds in the model for every phone but not in the source for these ones.
- UserController.LoginUser: the same inherited-property ids are unknown in the model and found in the source.
- UserController.GetUserProfile: `userData.schedule.length` and `userData.todos.length` read the `length` property of any value. The model gives the count of an array or a string, and none (`undefined`) for other values. For an object holding a `length` field the source returns that field's value instead.
- The `catch` blocks of the user endpoints answer 500. The model gives 500 for the `TypeError`s its values can raise (a `todos` that is not an array, a `null` todo before the match); database failures are not modelled.
- The `res.status(...).json(...)` bodies are not modelled beyond the status, the stored phone and email on login, and the profile counts. The profile's echoed `phone`, `email` and timestamps are left out.
- `updateUserProfile`, `getUserSchedule`, `getUserTodos` and `getAllUsers` are not part of this model.
- `new Date().toISOString()` is one parameter `now` per request. A registration that straddles a millisecond gets equal `createdAt` and `updatedAt` here.
- `Date.now().toString()` is the parameter `nowMs`. Two todos added in the same millisecond share an id, and the model keeps that: `findIndex` then finds the first one.
