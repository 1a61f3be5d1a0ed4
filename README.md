# c19.se report parser, modelled in Dafny

This project models the text parser of the c19.se infection reports
(`py/covid19/data/fetch/c19se.py`). The crawler hands each list item of the
report page to the parser as three texts: an optional *source* attribution,
a *description* and a *count*. The parser builds one `InfectionLog` record
with three fields:

- `location`: the first place name introduced by `i`/`från`, optionally
  after `region`/`Region`;
- `date`: the `%Y-%m-%d` date at the head of the description;
- `count`: `int(count)`.

Modules:

- `Outcomes` (`outcomes.dfy`) holds `Option` (Python's `None`), `Result`,
  and the two exceptions the parser can raise, `IndexError` and
  `ValueError`, as values.
- `PyStr` (`pystr.dfy`) models the Python string operations the parser
  uses:
  - `str.split(" ")`, with `"".split(" ") == [""]` and an empty piece
    between adjacent separators;
  - `" ".join`;
  - `str.replace` with a one-character pattern;
  - `str.isupper` on one character.
- `PyInt` (`pyint.dfy`) models `int(text)` in base 10. Surrounding white
  space is skipped: tab, line feed, vertical tab, form feed, carriage
  return, space, and the Unicode white space from U+007F up, but not the
  separators U+001C to U+001F that `str.isspace()` also counts. An
  optional sign may come first, and single underscores may sit between
  digits.
- `PyDate` (`pydate.dfy`) models `datetime.strptime(text, "%Y-%m-%d").date()`,
  with the ValueError turned into `None` as `parse_date_from_message` does
  (CPython's directive regexes are `\d\d\d\d`, `1[0-2]|0[1-9]|[1-9]` and
  `3[01]|[12]\d|0[1-9]|[1-9]| [1-9]`). The whole text must match, and the
  date must be valid in the proleptic Gregorian calendar, years 1 to 9999.
  Reference definitions spell out, per date, every text that writes it
  (`SpellsDate`). `StrptimeYmdIff` proves that the parser accepts exactly
  those texts.
- `C19se` (`c19se.dfy`) models these pieces:
  - `strip_message`;
  - `parse_location_from_message`, with its two inner recursive functions;
  - `parse_date_from_message`;
  - `parse_info`;
  - `InfectionLog`;
  - what the spider does to each list item: it strips source and
    description, then calls `parse_info`.
- `C19seExamples` (`c19se_examples.dfy`) proves the unit tests of
  `py/tests/data/fetch_tests.py`, the two items described in the docstring
  of `parse_info`, and the inputs that make the location scan raise. Each
  example is stated twice. The first form takes the message as a
  parameter, fixed by the words it splits into; by `PyStr.JoinSplit`, this
  fixes the message to the quoted text. The second form (`…Text`) states
  the same result on the literal text itself.

## How the location scan is modelled

The two inner functions recurse on list suffixes. The model recurses on an
index into the token list instead:

- `C19se.Scan(tokens, i)` stands for `fn(tokens[i:])`.
- `C19se.CollectName(tokens, j, parts)` stands for
  `fn(tokens[j:], parts)`. The list that `parts.append` grows becomes an
  accumulator argument.

The source reads `tokens[1]`, `tokens[2]` and the first character of
tokens without checking that they exist. Its `len(tokens) > 0` and
`len(tokens) > 1` guards are either always true or evaluated after the
read. So the parser raises `IndexError` in these cases:

- a preposition ends the message, or is followed by an empty token;
- `region`/`Region` after a preposition ends the message, or is followed
  by an empty token;
- a run of capitalised words is stopped by an empty token. A trailing
  space or a double space produces one.

The model returns `Err(IndexError)` in exactly these cases. It is a
declarative description of the scan:

- `CrashesAt`, `Triggers` and `Decides` say what happens at each position.
- `Decision` says what the scan returns when it stops at a position.
- `ParseLocationSpec` proves that the scan returns `None` exactly when no
  position decides, and otherwise what the first deciding position
  decides.

`parse_info` evaluates the location before `int(count)`. So a location
`IndexError` wins over a count `ValueError`, and `C19se.ParseInfo` states
that order.

Behaviour worth noting:

- `strip_message` is not idempotent: a second pass inserts another space
  before each mark (`StripMessageNotIdempotent`).
- The location scan can raise, as listed above.
- The date parser accepts a one-digit month or day, and a day padded with
  a space. The space-padded day cannot reach it from
  `parse_date_from_message`, because `split(" ")` leaves no space in the
  first token, so `"2020-01- 5"` gives no date
  (`SpacePaddedDayUnreachable`).
- The empty message splits into one empty token, not into no tokens. It
  still has no location.

## Model

| member | source | states |
|---|---|---|
| C19se.StripMessage | py/covid19/data/fetch/c19se.py:84-87 | `None` and `""` are returned unchanged; any other text is the one-pass insertion `SpaceMarks` of a space before every `.` and `,` (the two chained `replace` calls) |
| C19se.SpaceMarks | py/covid19/data/fetch/c19se.py:86 | the stripped text is longer by exactly the number of `.` and `,` in the input, and keeps the number of each mark |
| C19se.SpaceMarksDetached | py/covid19/data/fetch/c19se.py:86 | every `.` and `,` of the stripped text has a space right before it |
| C19se.TwoPassesSpaceMarks | py/covid19/data/fetch/c19se.py:86 | `replace(".", " .")` followed by `replace(",", " ,")` equals the single left-to-right pass that spaces both marks |
| C19se.UnspaceSpaceMarks | py/covid19/data/fetch/c19se.py:86 | removing the space in front of each mark gives back the original text: nothing but those spaces is inserted |
| C19se.SpaceMarksAppend | py/covid19/data/fetch/c19se.py:86 | stripping distributes over concatenation |
| C19se.SpaceMarksNoMarks | py/covid19/data/fetch/c19se.py:85-86 | text with no `.` and no `,` is returned unchanged |
| C19se.StripMessageNotIdempotent | py/covid19/data/fetch/c19se.py:84-87 | on every text holding a `.` or `,`, stripping twice differs from stripping once |
| C19se.Scan | py/covid19/data/fetch/c19se.py:59-71 | the outer `fn(tokens[i:])`: it fails only with IndexError, and a name it finds is non-empty; what it returns at each position is stated by `ScanAtDecision`, `ScanOutcome` and `ParseLocationSpec` |
| C19se.ParseLocationFromMessage | py/covid19/data/fetch/c19se.py:46-73 | the scan of `message.split(" ")` from its first token: IndexError is the only failure and a location found is non-empty; `ParseLocationSpec` gives its result for every message and `LocationShape` the form of a name found |
| C19se.RunEnd | py/covid19/data/fetch/c19se.py:48-55 | the end of the maximal run of tokens starting with an uppercase letter: all tokens before it are capitalised, the one at it (if any) is not |
| C19se.CollectName | py/covid19/data/fetch/c19se.py:48-55 | the inner `fn(items, parts)`: IndexError exactly when the run is stopped by an empty token, else the accumulated parts followed by the run, joined by single spaces |
| C19se.MultiPartName | py/covid19/data/fetch/c19se.py:47-57 | succeeds exactly when the run is not stopped by an empty token, fails only with IndexError, and returns the maximal capitalised run joined by single spaces |
| C19se.NameStart | py/covid19/data/fetch/c19se.py:63-70 | where the name starts at a trigger: after the region keyword when the token after it is capitalised, else right after the preposition; always at a capitalised token |
| C19se.ScanAtDecision | py/covid19/data/fetch/c19se.py:59-71 | at a position that stops the scan, the outer `fn` returns that position's decision (IndexError or the name) |
| C19se.ScanOutcome | py/covid19/data/fetch/c19se.py:59-71 | the scan from any position returns `None` when no later position stops it, else the decision of the first position that does |
| C19se.ParseLocationSpec | py/covid19/data/fetch/c19se.py:46-73 | `parse_location_from_message` returns `None` if and only if no token position stops the scan (including for `""`), and otherwise the decision of the first stopping position: first match wins |
| C19se.LowercaseFollowerPassedOver | py/covid19/data/fetch/c19se.py:62-71 | a preposition followed by a non-empty lowercase word other than `region` is passed over: the scan continues at the next token |
| C19se.RegionKeywordSkipped | py/covid19/data/fetch/c19se.py:63-68 | `region`/`Region` after a preposition is skipped when the next token is capitalised; the name starts there |
| C19se.CapitalRegionIsTheName | py/covid19/data/fetch/c19se.py:63-70 | a capitalised `Region` followed by a lowercase word is itself the name found |
| C19se.LowercaseRegionPassedOver | py/covid19/data/fetch/c19se.py:63-71 | a lowercase `region` followed by a lowercase word rejects the match at that preposition |
| C19se.LocationShape | py/covid19/data/fetch/c19se.py:47-73 | a location found is non-empty, is a contiguous run of message tokens right after a preposition (or preposition and region keyword), joined by single spaces, and every word of it starts with an uppercase letter |
| C19se.ParseDateFromMessage | py/covid19/data/fetch/c19se.py:76-81 | a date returned is a valid calendar date |
| C19se.DateFromFirstTokenOnly | py/covid19/data/fetch/c19se.py:77-79 | only the first space-separated token is parsed; everything after the first space is ignored |
| C19se.ParseInfo | py/covid19/data/fetch/c19se.py:29-43 | a location error is returned first, before a count ValueError; a record is built exactly when both parses succeed, with the location from the source when it is truthy (else from the description), the date from the description and the count `int(count)` |
| C19se.LocationPrefersSource | py/covid19/data/fetch/c19se.py:36-37 | with a non-empty source the description has no effect on the location |
| C19se.EmptySourceFallsBack | py/covid19/data/fetch/c19se.py:36-39 | an empty source behaves as an absent one, and the location then comes from the description |
| C19se.DateIgnoresSource | py/covid19/data/fetch/c19se.py:41 | the date does not depend on the source |
| C19se.InfectionLog | py/covid19/data/fetch/c19se.py:9-12 | the record built by `ParseInfo`: `InfectionLog(location, date, count)`, with the three fields of the item class |
| C19se.CountNeverDefaults | py/covid19/data/fetch/c19se.py:43 | `int("")` and `int("abc")` raise ValueError, so a count of `""` or `"abc"` fails the record for every source and description, and with ValueError whenever the location parse succeeds; the count never defaults |
| C19se.DetachedMarksLead | py/covid19/data/fetch/c19se.py:73 | in text whose marks are detached, a `.` or `,` can only be the first character of a token |
| C19se.ParseEntry | py/covid19/data/fetch/c19se.py:23-26 | one list item is `parse_info` of its stripped source and description; a location found then holds no `.` or `,` |
| C19se.StrippedMarksDetached | py/covid19/data/fetch/c19se.py:23-24 | the stripped source and description have every mark detached |
| C19se.StrippedLocationHasNoMarks | py/covid19/data/fetch/c19se.py:23-26 | a location found in stripped text contains no `.` and no `,` |
| PyStr.Split | py/covid19/data/fetch/c19se.py:73 | `message.split(" ")` has one more piece than there are separators, and no piece holds a separator |
| PyStr.JoinSplit | py/covid19/data/fetch/c19se.py:73 | joining the pieces of a split with the separator gives back the text |
| PyStr.SplitJoin | py/covid19/data/fetch/c19se.py:50 | splitting pieces joined by `" ".join` gives back the pieces, when none holds a space |
| PyStr.SplitAround | py/covid19/data/fetch/c19se.py:77 | splitting distributes over a separator between two texts |
| PyStr.NotInSplit | py/covid19/data/fetch/c19se.py:77 | a character other than the separator that no piece holds is not in the text |
| PyStr.ReplaceChar | py/covid19/data/fetch/c19se.py:86 | `str.replace` with a one-character pattern: a text without the pattern is returned unchanged, and the result holds no occurrence of the pattern unless the replacement does; `ReplaceCharAppend` and `TwoPassesSpaceMarks` state the rest |
| PyStr.IsUpper | py/covid19/data/fetch/c19se.py:51 | `str.isupper` on the first character of a token (also at lines 66 and 69): a space, `.`, `,`, the ASCII digits and the lowercase letters (`a`–`z`, `å`, `ä`, `ö`) are never uppercase |
| PyStr.JoinLength | py/covid19/data/fetch/c19se.py:50 | `" ".join(parts)` (also at line 55) is as long as its parts together plus one space between each two; `JoinSplit`, `SplitJoin` and `C19se.JoinChars` state the rest of `Join` |
| C19se.JoinChars | py/covid19/data/fetch/c19se.py:50 | a character of a joined name is a space or a character of one of its parts |
| PyStr.ReplaceCharAppend | py/covid19/data/fetch/c19se.py:86 | `replace` distributes over concatenation |
| PyInt.ParseInt | py/covid19/data/fetch/c19se.py:43 | `int(count)` fails only with ValueError; a parsed count comes from a text holding a digit and only white space, digits, `_`, `+` and `-`, and is negative only when `-` occurs; `ParseIntIff` gives its exact value and accepted texts |
| PyInt.ParseIntIff | py/covid19/data/fetch/c19se.py:43 | `int(s)` returns `n` if and only if `s` is white space, an optional `+` or `-`, a group of decimal digits with single underscores between digits, and white space, and `n` is the signed decimal value of those digits (`IsIntLiteral`) |
| PyInt.ParseIntSound | py/covid19/data/fetch/c19se.py:43 | every text `int()` accepts with value `n` is an integer literal of value `n` |
| PyInt.ParseIntComplete | py/covid19/data/fetch/c19se.py:43 | every integer literal of value `n`, with any white space around it, is accepted by `int()` with value `n` |
| PyInt.IsSpace | py/covid19/data/fetch/c19se.py:43 | the white space `int()` skips: the C-locale white space below U+007F and Unicode white space from U+007F up; the separators U+001C to U+001F are not part of it |
| PyInt.TrimStart | py/covid19/data/fetch/c19se.py:43 | the leading white space `int()` skips is removed: a prefix of white space, stopping at a non-space character |
| PyInt.TrimEnd | py/covid19/data/fetch/c19se.py:43 | the trailing white space `int()` skips is removed: a suffix of white space, stopping at a non-space character |
| PyInt.IntRoundTrip | py/covid19/data/fetch/c19se.py:43 | `int(str(n)) == n` for every integer `n` |
| PyInt.ParseIntIgnoresSpace | py/covid19/data/fetch/c19se.py:43 | white space around the count does not change its value |
| PyDate.StrptimeYmd | py/covid19/data/fetch/c19se.py:79 | a date returned by `strptime(.., "%Y-%m-%d")` is valid |
| PyDate.YearFieldIff | py/covid19/data/fetch/c19se.py:79 | `%Y` accepts exactly the four-digit spellings of years 0 to 9999 |
| PyDate.MonthFieldIff | py/covid19/data/fetch/c19se.py:79 | `%m` accepts exactly a month written with one digit or padded with a zero |
| PyDate.DayFieldIff | py/covid19/data/fetch/c19se.py:79 | `%d` accepts exactly a day written with one digit, padded with a zero or a space, or with two digits |
| PyDate.StrptimeYmdIff | py/covid19/data/fetch/c19se.py:79-81 | the date parser returns `d` if and only if `d` is a valid date and the text is one of its spellings |
| PyDate.StrptimeIsoFormat | py/covid19/data/fetch/c19se.py:79 | the zero-padded ISO form of every valid date parses back to that date |
| C19seExamples.LocationAfterI | py/tests/data/fetch_tests.py:9 | "i Stockholm" gives "Stockholm" |
| C19seExamples.LocationAfterFran | py/tests/data/fetch_tests.py:10-12 | "från Jönköping" gives "Jönköping" |
| C19seExamples.LocationAfterCapitalRegion | py/tests/data/fetch_tests.py:15-17 | "i Region Jämtland" gives "Jämtland" |
| C19seExamples.LocationAfterLowercaseRegion | py/tests/data/fetch_tests.py:18-20 | "i region Sörmland" gives "Sörmland" |
| C19seExamples.LocationMultiPartName | py/tests/data/fetch_tests.py:25-27 | "i Västra Götaland" gives "Västra Götaland" |
| C19seExamples.LocationFirstMatchWins | py/tests/data/fetch_tests.py:30-33 | "i Stockholm i Sverige i Monad" gives "Stockholm" |
| C19seExamples.LocationLowercaseSkipped | py/tests/data/fetch_tests.py:34-36 | "i stockholm i Monad" gives "Monad" |
| C19seExamples.LocationOfEmptyMessage | py/tests/data/fetch_tests.py:39 | the empty message has no location |
| C19seExamples.LocationPrepositionAtEnd | py/covid19/data/fetch/c19se.py:64 | "i" raises IndexError |
| C19seExamples.LocationRegionAtEnd | py/covid19/data/fetch/c19se.py:66 | "i Region" raises IndexError |
| C19seExamples.LocationTrailingSpace | py/covid19/data/fetch/c19se.py:51 | "i Stockholm " raises IndexError |
| C19seExamples.LocationDoubleSpace | py/covid19/data/fetch/c19se.py:69 | "i  Stockholm" raises IndexError |
| C19seExamples.DateOfIsoText | py/tests/data/fetch_tests.py:44-46 | "2020-01-01" gives 1 January 2020 |
| C19seExamples.DateIgnoresTime | py/tests/data/fetch_tests.py:49-51 | "2020-01-01 12:23" gives 1 January 2020 |
| C19seExamples.DateOfOtherText | py/tests/data/fetch_tests.py:53-57 | "" and "18819191" give no date |
| C19seExamples.StockholmText | py/tests/data/fetch_tests.py:9 | `ParseLocationFromMessage("i Stockholm")` is `"Stockholm"` |
| C19seExamples.JonkopingText | py/tests/data/fetch_tests.py:10-12 | `ParseLocationFromMessage("från Jönköping")` is `"Jönköping"` |
| C19seExamples.CapitalRegionText | py/tests/data/fetch_tests.py:15-17 | `ParseLocationFromMessage("i Region Jämtland")` is `"Jämtland"` |
| C19seExamples.LowercaseRegionText | py/tests/data/fetch_tests.py:18-20 | `ParseLocationFromMessage("i region Sörmland")` is `"Sörmland"` |
| C19seExamples.MultiPartNameText | py/tests/data/fetch_tests.py:25-27 | `ParseLocationFromMessage("i Västra Götaland")` is `"Västra Götaland"` |
| C19seExamples.FirstMatchWinsText | py/tests/data/fetch_tests.py:30-33 | `ParseLocationFromMessage("i Stockholm i Sverige i Monad")` is `"Stockholm"` |
| C19seExamples.LowercaseSkippedText | py/tests/data/fetch_tests.py:34-36 | `ParseLocationFromMessage("i stockholm i Monad")` is `"Monad"` |
| C19seExamples.PrepositionAtEndText | py/covid19/data/fetch/c19se.py:64 | `ParseLocationFromMessage("i")` raises IndexError |
| C19seExamples.RegionAtEndText | py/covid19/data/fetch/c19se.py:66 | `ParseLocationFromMessage("i Region")` raises IndexError |
| C19seExamples.TrailingSpaceText | py/covid19/data/fetch/c19se.py:51 | `ParseLocationFromMessage("i Stockholm ")` raises IndexError |
| C19seExamples.DoubleSpaceText | py/covid19/data/fetch/c19se.py:69 | `ParseLocationFromMessage("i  Stockholm")` raises IndexError |
| C19seExamples.IsoDateText | py/tests/data/fetch_tests.py:44-46 | `ParseDateFromMessage("2020-01-01")` is 1 January 2020 |
| C19seExamples.DateAndTimeText | py/tests/data/fetch_tests.py:49-51 | `ParseDateFromMessage("2020-01-01 12:23")` is 1 January 2020 |
| C19seExamples.OtherDateText | py/tests/data/fetch_tests.py:53-57 | `ParseDateFromMessage("")` and `ParseDateFromMessage("18819191")` are `None` |
| C19seExamples.SpacePaddedDayUnreachable | py/covid19/data/fetch/c19se.py:77-79 | `parse_date_from_message("2020-01- 5")` is `None`: the split at line 77 cuts the first token before the space-padded day that `%d` would accept |
| C19seExamples.CountOne | py/covid19/data/fetch/c19se.py:43 | `int("1") == 1` |
| C19seExamples.IntWithPlus | py/covid19/data/fetch/c19se.py:43 | `int("+7") == 7` |
| C19seExamples.IntWithMinus | py/covid19/data/fetch/c19se.py:43 | `int("-7") == -7` |
| C19seExamples.IntWithLeadingZeros | py/covid19/data/fetch/c19se.py:43 | `int("007") == 7` |
| C19seExamples.IntWithUnderscore | py/covid19/data/fetch/c19se.py:43 | `int("1_000") == 1000` |
| C19seExamples.IntRejectsSeparators | py/covid19/data/fetch/c19se.py:43 | `int()` raises ValueError on `"\x1c1"` and `"1\x1f"`: the separators U+001C to U+001F are not white space to it |
| C19seExamples.IntRejects | py/covid19/data/fetch/c19se.py:43 | `int()` raises ValueError on `"1-2"`, `"+"`, `"_1"`, `"1_"` and `"1__0"` |
| C19seExamples.EntryWithoutSource | py/covid19/data/fetch/c19se.py:31-32 | no source and "2020-03-09 10:47 - En person i Värmland", count "1" give location "Värmland", date 9 March 2020, count 1 |
| C19seExamples.EntryWithSource | py/covid19/data/fetch/c19se.py:33-34 | source "Person i Skåne som varit i norra Italien." with description "2020-03-03 00:00 - ", count "1" give location "Skåne", date 3 March 2020, count 1 |
| C19seExamples.EntryWithoutSourceText | py/covid19/data/fetch/c19se.py:31-32 | `ParseEntry(None, "2020-03-09 10:47 - En person i Värmland", "1")` is the record of "Värmland", 9 March 2020 and 1 |
| C19seExamples.EntryWithSourceText | py/covid19/data/fetch/c19se.py:33-34 | `ParseEntry(Some("Person i Skåne som varit i norra Italien."), "2020-03-03 00:00 - ", "1")` is the record of "Skåne", 3 March 2020 and 1 |

## Left out

- The crawler is not modelled: the scrapy `Spider`, its start URL, its XPath
  queries and the `for` loop over list items (c19se.py:15-26) are network
  and HTML I/O. Only the per-item composition is kept, as `ParseEntry`.
- `InfectionLog` as a `scrapy.Item` becomes a plain record datatype.
- `ParseEntry` takes the description and the count as texts. The crawler's
  `.get()` can return `None` for them, and `None` would then fail in
  `split` or `int()` with an AttributeError or TypeError. Those exceptions
  are not modelled.
- IsUpper: `str.isupper` is narrowed to the uppercase letters of ASCII and
  Latin-1 (A–Z, U+00C0–U+00D6, U+00D8–U+00DE), which cover Å, Ä and Ö.
  Every other uppercase letter counts as not capitalised: the Latin
  Extended capitals such as Š and Ł, and the capitals of Greek, Cyrillic
  and other scripts.
- Scan and CollectName: each recursive `fn` of the source calls itself once
  per token, on a copied slice. Under CPython's default recursion limit of
  1000, a message with roughly 1000 tokens before the scan decides raises
  RecursionError. The model has no such limit and returns a value for
  messages of every length.
- StrptimeYmd: `\d` in CPython's `strptime` regexes also matches non-ASCII
  decimal digits. The model accepts ASCII digits only.
- ParseInt: `int()` also accepts non-ASCII decimal digits and limits
  decimal strings to 4300 digits. The model accepts ASCII digits only and
  has no length limit.
- Python's `str` is a sequence of code points; Dafny's `string` is
  `seq<char>` over Unicode scalar values. Lone surrogates are not
  modelled.
- The rest of the repository is not part of this model. That covers
  preprocessing, projections, charts, HTML helpers and type constants.
  They are table, file and float work, with no parser logic.
