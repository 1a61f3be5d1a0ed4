/** The parser of the c19.se infection reports (py/covid19/data/fetch/c19se.py):
    free Swedish text in, one `InfectionLog` record (location, date, count) out. */
module C19se {
  import opened Outcomes
  import opened PyStr
  import opened PyInt
  import opened PyDate

  /** `InfectionLog(location=…, date=…, count=…)`: the record the spider yields. */
  datatype InfectionLog = InfectionLog(location: Option<string>, date: Option<Date>, count: int)

  // =====================================================================
  // strip_message

  /** The punctuation that `strip_message` detaches from words. */
  predicate IsMark(c: char)
  {
    c == '.' || c == ','
  }

  /** Every `.` and `,` of `s` with one space put in front of it, in one pass. */
  function SpaceMarks(s: string): (r: string)
    ensures |r| == |s| + Count(s, '.') + Count(s, ',')
    ensures Count(r, '.') == Count(s, '.') && Count(r, ',') == Count(s, ',')
    decreases |s|
  {
    if |s| == 0 then ""
    else
      var head := if IsMark(s[0]) then [' ', s[0]] else [s[0]];
      var r := head + SpaceMarks(s[1..]);
      CountAppend(head, SpaceMarks(s[1..]), '.');
      CountAppend(head, SpaceMarks(s[1..]), ',');
      r
  }

  /** Every mark of `SpaceMarks(s)` has a space in front of it. */
  lemma {:induction false} SpaceMarksDetached(s: string)
    ensures forall k :: 0 <= k < |SpaceMarks(s)| && IsMark(SpaceMarks(s)[k]) ==> k > 0 && SpaceMarks(s)[k - 1] == ' '
    decreases |s|
  {
    if |s| > 0 {
      SpaceMarksDetached(s[1..]);
      var head := if IsMark(s[0]) then [' ', s[0]] else [s[0]];
      var rest := SpaceMarks(s[1..]);
      var r := SpaceMarks(s);
      assert r == head + rest;
      forall k | 0 <= k < |r| && IsMark(r[k])
        ensures k > 0 && r[k - 1] == ' '
      {
        if k >= |head| {
          assert r[k] == rest[k - |head|];
          if k > |head| {
            assert r[k - 1] == rest[k - 1 - |head|];
          }
        } else {
          assert r[k] == head[k];
          if k > 0 {
            assert r[k - 1] == head[k - 1];
          }
        }
      }
    }
  }

  /** Removes the one space in front of each `.` and `,`: undoes `SpaceMarks`. */
  function UnspaceMarks(t: string): string
    decreases |t|
  {
    if |t| >= 2 && t[0] == ' ' && IsMark(t[1]) then [t[1]] + UnspaceMarks(t[2..])
    else if |t| == 0 then ""
    else [t[0]] + UnspaceMarks(t[1..])
  }

  /** `strip_message(msg)`: `None` and `""` come back as they are; any other
      text has one space put before every `.` (first pass) and then before
      every `,` (second pass). */
  function StripMessage(msg: Option<string>): (r: Option<string>)
    ensures msg.None? ==> r.None?
    ensures msg == Some("") ==> r == Some("")
    ensures msg.Some? && msg.value != "" ==> r == Some(SpaceMarks(msg.value))
  {
    if msg.Some? && |msg.value| > 0 then
      TwoPassesSpaceMarks(msg.value);
      Some(ReplaceChar(ReplaceChar(msg.value, '.', " ."), ',', " ,"))
    else msg
  }

  /** The two `replace` passes do what the single pass `SpaceMarks` does. */
  lemma {:induction false} TwoPassesSpaceMarks(s: string)
    ensures ReplaceChar(ReplaceChar(s, '.', " ."), ',', " ,") == SpaceMarks(s)
    decreases |s|
  {
    if |s| > 0 {
      var head := if s[0] == '.' then " ." else [s[0]];
      assert ReplaceChar(s, '.', " .") == head + ReplaceChar(s[1..], '.', " .");
      ReplaceCharAppend(head, ReplaceChar(s[1..], '.', " ."), ',', " ,");
      TwoPassesSpaceMarks(s[1..]);
      if s[0] == '.' {
        assert ReplaceChar(head, ',', " ,") == " .";
      } else if s[0] == ',' {
        assert ReplaceChar(head, ',', " ,") == " ,";
      } else {
        assert ReplaceChar(head, ',', " ,") == [s[0]];
      }
    }
  }

  /** Nothing but the inserted spaces is added: removing them gives back the
      original text. */
  lemma {:induction false} UnspaceSpaceMarks(s: string)
    ensures UnspaceMarks(SpaceMarks(s)) == s
    decreases |s|
  {
    if |s| > 0 {
      var rest := SpaceMarks(s[1..]);
      UnspaceSpaceMarks(s[1..]);
      if IsMark(s[0]) {
        assert SpaceMarks(s) == [' ', s[0]] + rest;
        assert (SpaceMarks(s))[2..] == rest;
      } else {
        var t := SpaceMarks(s);
        assert t == [s[0]] + rest;
        assert t[1..] == rest;
        SpaceMarksDetached(s[1..]);
        assert |rest| > 0 ==> !IsMark(rest[0]);
      }
    }
  }

  /** Strip works character by character, so it distributes over
      concatenation. */
  lemma SpaceMarksAppend(a: string, b: string)
    ensures SpaceMarks(a + b) == SpaceMarks(a) + SpaceMarks(b)
  {
    TwoPassesSpaceMarks(a + b);
    TwoPassesSpaceMarks(a);
    TwoPassesSpaceMarks(b);
    ReplaceCharAppend(a, b, '.', " .");
    ReplaceCharAppend(ReplaceChar(a, '.', " ."), ReplaceChar(b, '.', " ."), ',', " ,");
  }

  /** Text without `.` and `,` is left as it is. */
  lemma {:induction false} SpaceMarksNoMarks(s: string)
    requires '.' !in s && ',' !in s
    ensures SpaceMarks(s) == s
    decreases |s|
  {
    if |s| > 0 {
      assert '.' !in s[1..] && ',' !in s[1..];
      SpaceMarksNoMarks(s[1..]);
      assert [s[0]] + s[1..] == s;
    }
  }

  /** A second pass adds another space before each mark: `strip_message` is
      not idempotent on any text holding a `.` or a `,`. */
  lemma StripMessageNotIdempotent(s: string)
    requires '.' in s || ',' in s
    ensures StripMessage(StripMessage(Some(s))) != StripMessage(Some(s))
  {
    CountPositive(s, if '.' in s then '.' else ',');
    var once := SpaceMarks(s);
    assert |once| > |s|;
    assert StripMessage(Some(s)) == Some(once);
    var twice := SpaceMarks(once);
    assert |twice| > |once|;
    assert StripMessage(Some(once)) == Some(twice);
  }

  // =====================================================================
  // parse_location_from_message

  /** The locative prepositions, matched case-sensitively. */
  predicate IsPreposition(t: string)
  {
    t == "i" || t == "från"
  }

  /** The administrative-unit keyword, in either form. */
  predicate IsRegionKeyword(t: string)
  {
    t == "region" || t == "Region"
  }

  /** A token whose first character is an uppercase letter. */
  predicate IsCapitalised(t: string)
  {
    |t| > 0 && IsUpper(t[0])
  }

  /** The end of the run of capitalised tokens that starts at `j`. */
  function RunEnd(tokens: seq<string>, j: nat): (e: nat)
    requires j <= |tokens|
    ensures j <= e <= |tokens|
    ensures forall k :: j <= k < e ==> IsCapitalised(tokens[k])
    ensures e == |tokens| || !IsCapitalised(tokens[e])
    decreases |tokens| - j
  {
    if j < |tokens| && IsCapitalised(tokens[j]) then RunEnd(tokens, j + 1) else j
  }

  /** The inner `fn(items, parts)` of `maybe_parse_multi_part_name`, with
      `items` as `tokens[j..]` and the list it appends to as the accumulator
      `parts`: it takes tokens while they are capitalised, and raises
      IndexError on an empty token because it reads its first character. */
  function CollectName(tokens: seq<string>, j: nat, parts: seq<string>): (r: Result<string>)
    requires j <= |tokens|
    ensures var e := RunEnd(tokens, j);
      r == if e < |tokens| && tokens[e] == "" then Err(IndexError)
           else Ok(Join(parts + tokens[j..e], ' '))
    decreases |tokens| - j
  {
    if j == |tokens| then
      assert parts + tokens[j..j] == parts;
      Ok(Join(parts, ' '))
    else if |tokens[j]| == 0 then Err(IndexError)
    else if IsUpper(tokens[j][0]) then
      var r := CollectName(tokens, j + 1, parts + [tokens[j]]);
      assert (parts + [tokens[j]]) + tokens[j + 1..RunEnd(tokens, j)] == parts + tokens[j..RunEnd(tokens, j)];
      r
    else
      assert parts + tokens[j..j] == parts;
      Ok(Join(parts, ' '))
  }

  /** `maybe_parse_multi_part_name(tokens[j..])`: the maximal run of
      capitalised tokens from `j`, joined by single spaces, unless the token
      that stops the run is empty. */
  function MultiPartName(tokens: seq<string>, j: nat): (r: Result<string>)
    requires j <= |tokens|
    ensures r.Ok? <==> RunEnd(tokens, j) == |tokens| || tokens[RunEnd(tokens, j)] != ""
    ensures r.Err? ==> r.error == IndexError
    ensures r.Ok? ==> r.value == Join(tokens[j..RunEnd(tokens, j)], ' ')
  {
    assert [] + tokens[j..RunEnd(tokens, j)] == tokens[j..RunEnd(tokens, j)];
    CollectName(tokens, j, [])
  }

  /** A name found, as the optional location. */
  function AsLocation(r: Result<string>): Result<Option<string>>
  {
    match r
    case Ok(name) => Ok(Some(name))
    case Err(e) => Err(e)
  }

  /** The outer `fn(tokens)`, with `tokens` as `tokens[i..]`. It reads
      `tokens[1]`, `tokens[2]` and their first characters without checking
      that they exist, so those reads raise IndexError. */
  function Scan(tokens: seq<string>, i: nat): (r: Result<Option<string>>)
    requires i <= |tokens|
    ensures r.Err? ==> r.error == IndexError
    ensures r.Ok? && r.value.Some? ==> r.value.value != ""
    decreases |tokens| - i
  {
    if i == |tokens| then Ok(None)
    else if IsPreposition(tokens[i]) then
      if i + 1 == |tokens| then Err(IndexError)
      else if IsRegionKeyword(tokens[i + 1]) && (i + 2 == |tokens| || |tokens[i + 2]| == 0) then Err(IndexError)
      else if IsRegionKeyword(tokens[i + 1]) && IsUpper(tokens[i + 2][0]) then AsLocation(MultiPartName(tokens, i + 2))
      else if |tokens[i + 1]| == 0 then Err(IndexError)
      else if IsUpper(tokens[i + 1][0]) then AsLocation(MultiPartName(tokens, i + 1))
      else Scan(tokens, i + 1)
    else Scan(tokens, i + 1)
  }

  /** `parse_location_from_message(message)`. */
  function ParseLocationFromMessage(message: string): (r: Result<Option<string>>)
    ensures r.Err? ==> r.error == IndexError
    ensures r.Ok? && r.value.Some? ==> r.value.value != ""
  {
    Scan(Split(message, ' '), 0)
  }

  // ---------------------------------------------------------------------
  // What decides the scan, position by position.

  /** The scan raises IndexError on reaching position `i`: a preposition that
      ends the message or is followed by an empty token, or one followed by
      the region keyword that ends the message or is followed by an empty
      token. */
  predicate CrashesAt(tokens: seq<string>, i: nat)
    requires i < |tokens|
  {
    && IsPreposition(tokens[i])
    && (|| i + 1 == |tokens|
        || tokens[i + 1] == ""
        || (IsRegionKeyword(tokens[i + 1]) && (i + 2 == |tokens| || tokens[i + 2] == "")))
  }

  /** Position `i` holds a preposition followed by a capitalised token, or by
      the region keyword and then a capitalised token. */
  predicate Triggers(tokens: seq<string>, i: nat)
    requires i < |tokens|
  {
    && IsPreposition(tokens[i])
    && i + 1 < |tokens|
    && (|| IsCapitalised(tokens[i + 1])
        || (IsRegionKeyword(tokens[i + 1]) && i + 2 < |tokens| && IsCapitalised(tokens[i + 2])))
  }

  /** The scan stops at position `i`. */
  predicate Decides(tokens: seq<string>, i: nat)
    requires i < |tokens|
  {
    CrashesAt(tokens, i) || Triggers(tokens, i)
  }

  /** Where the name starts: after the region keyword when the token after
      it is capitalised, else right after the preposition. */
  function NameStart(tokens: seq<string>, i: nat): (s: nat)
    requires i < |tokens| && Triggers(tokens, i)
    ensures i < s < |tokens| && IsCapitalised(tokens[s])
  {
    if IsRegionKeyword(tokens[i + 1]) && i + 2 < |tokens| && IsCapitalised(tokens[i + 2]) then i + 2 else i + 1
  }

  /** What the scan returns when it stops at position `i`. */
  function Decision(tokens: seq<string>, i: nat): Result<Option<string>>
    requires i < |tokens| && Decides(tokens, i)
  {
    if CrashesAt(tokens, i) then Err(IndexError)
    else
      var s := NameStart(tokens, i);
      var e := RunEnd(tokens, s);
      if e < |tokens| && tokens[e] == "" then Err(IndexError)
      else Ok(Some(Join(tokens[s..e], ' ')))
  }

  /** `i` is the first position at which the scan stops. */
  predicate IsFirstDecision(tokens: seq<string>, i: nat)
  {
    i < |tokens| && Decides(tokens, i) && forall j :: 0 <= j < i ==> !Decides(tokens, j)
  }

  /** At a deciding position the scan returns its decision. */
  lemma ScanAtDecision(tokens: seq<string>, i: nat)
    requires i < |tokens| && Decides(tokens, i)
    ensures Scan(tokens, i) == Decision(tokens, i)
  {
    if !CrashesAt(tokens, i) {
      var s := NameStart(tokens, i);
      var m := MultiPartName(tokens, s);
    }
  }

  /** The scan from `i` either passes every later position and returns
      `None`, or returns the decision of the first position `k` that stops
      it. */
  lemma {:induction false} ScanOutcome(tokens: seq<string>, i: nat) returns (k: nat)
    requires i <= |tokens|
    ensures i <= k <= |tokens|
    ensures forall j :: i <= j < k ==> !Decides(tokens, j)
    ensures k == |tokens| ==> Scan(tokens, i) == Ok(None)
    ensures k < |tokens| ==> Decides(tokens, k) && Scan(tokens, i) == Decision(tokens, k)
    decreases |tokens| - i
  {
    if i == |tokens| {
      k := i;
    } else if Decides(tokens, i) {
      k := i;
      ScanAtDecision(tokens, i);
    } else {
      assert Scan(tokens, i) == Scan(tokens, i + 1);
      k := ScanOutcome(tokens, i + 1);
    }
  }

  /** The location parser in full: it returns `None` exactly when no position
      stops the scan (which includes the empty message), and otherwise what
      the first stopping position decides: later matches are ignored. */
  lemma ParseLocationSpec(message: string, tokens: seq<string>)
    requires tokens == Split(message, ' ')
    ensures ParseLocationFromMessage(message) == Ok(None)
      <==> forall j :: 0 <= j < |tokens| ==> !Decides(tokens, j)
    ensures forall i: nat :: IsFirstDecision(tokens, i) ==> ParseLocationFromMessage(message) == Decision(tokens, i)
  {
    var k := ScanOutcome(tokens, 0);
    if k < |tokens| {
      assert Decision(tokens, k) != Ok(None);
    }
    forall i: nat | IsFirstDecision(tokens, i)
      ensures ParseLocationFromMessage(message) == Decision(tokens, i)
    {
      assert !(i < k) && !(k < i);
    }
  }

  /** A preposition whose follower is another word in lowercase is passed
      over: the scan goes on with the next token. */
  lemma LowercaseFollowerPassedOver(tokens: seq<string>, i: nat)
    requires i + 1 < |tokens| && IsPreposition(tokens[i])
    requires tokens[i + 1] != "" && !IsUpper(tokens[i + 1][0]) && tokens[i + 1] != "region"
    ensures Scan(tokens, i) == Scan(tokens, i + 1)
  {
  }

  /** The region keyword after a preposition is skipped when the token after
      it is capitalised: the name starts there. */
  lemma RegionKeywordSkipped(tokens: seq<string>, i: nat)
    requires i + 2 < |tokens| && IsPreposition(tokens[i]) && IsRegionKeyword(tokens[i + 1])
    requires IsCapitalised(tokens[i + 2])
    ensures Scan(tokens, i) == AsLocation(MultiPartName(tokens, i + 2))
  {
  }

  /** A capitalised `Region` followed by a token in lowercase is itself the
      name found: the run stops at once after it. */
  lemma CapitalRegionIsTheName(tokens: seq<string>, i: nat)
    requires i + 2 < |tokens| && IsPreposition(tokens[i]) && tokens[i + 1] == "Region"
    requires tokens[i + 2] != "" && !IsUpper(tokens[i + 2][0])
    ensures Scan(tokens, i) == Ok(Some("Region"))
  {
    assert RunEnd(tokens, i + 2) == i + 2;
    assert RunEnd(tokens, i + 1) == i + 2;
    assert tokens[i + 1..i + 2] == ["Region"];
  }

  /** A lowercase `region` followed by a token in lowercase rejects the match
      at this preposition: the scan goes on with the next token. */
  lemma LowercaseRegionPassedOver(tokens: seq<string>, i: nat)
    requires i + 2 < |tokens| && IsPreposition(tokens[i]) && tokens[i + 1] == "region"
    requires tokens[i + 2] != "" && !IsUpper(tokens[i + 2][0])
    ensures Scan(tokens, i) == Scan(tokens, i + 1)
  {
  }

  /** Joined tokens hold only their own characters and the spaces between. */
  lemma {:induction false} JoinChars(parts: seq<string>, c: char)
    requires c in Join(parts, ' ')
    ensures c == ' ' || exists k :: 0 <= k < |parts| && c in parts[k]
    decreases |parts|
  {
    if |parts| > 1 {
      var rest := Join(parts[1..], ' ');
      if c !in parts[0] && c != ' ' {
        assert c in rest;
        JoinChars(parts[1..], c);
        var k :| 0 <= k < |parts[1..]| && c in parts[1..][k];
        assert c in parts[k + 1];
      }
    }
  }

  /** A location found is a non-empty run of consecutive message tokens
      right after a preposition (or after a preposition and the region
      keyword), joined by single spaces; splitting it again gives those
      tokens, each starting with an uppercase letter. */
  lemma LocationShape(message: string, name: string) returns (s: nat, e: nat)
    requires ParseLocationFromMessage(message) == Ok(Some(name))
    ensures var tokens := Split(message, ' ');
      && 0 < s < e <= |tokens|
      && name == Join(tokens[s..e], ' ')
      && Split(name, ' ') == tokens[s..e]
      && (IsPreposition(tokens[s - 1]) || (s >= 2 && IsRegionKeyword(tokens[s - 1]) && IsPreposition(tokens[s - 2])))
    ensures name != ""
    ensures forall w :: w in Split(name, ' ') ==> IsCapitalised(w)
  {
    var tokens := Split(message, ' ');
    var k := ScanOutcome(tokens, 0);
    assert k < |tokens| && !CrashesAt(tokens, k);
    assert !CrashesAt(tokens, k) && Triggers(tokens, k);
    s := NameStart(tokens, k);
    e := RunEnd(tokens, s);
    var run := tokens[s..e];
    assert Decision(tokens, k) == Ok(Some(Join(run, ' ')));
    assert forall m :: 0 <= m < |run| ==> ' ' !in run[m] && IsCapitalised(run[m]);
    SplitJoin(run, ' ');
  }

  // =====================================================================
  // parse_date_from_message

  /** `parse_date_from_message(message)`: only the first space-separated token
      is tried as `%Y-%m-%d`; a failed parse is `None`. */
  function ParseDateFromMessage(message: string): (r: Option<Date>)
    ensures r.Some? ==> IsValidDate(r.value)
  {
    StrptimeYmd(Split(message, ' ')[0])
  }

  /** Only the first token matters: whatever follows the first space is
      ignored. */
  lemma DateFromFirstTokenOnly(first: string, rest: string)
    requires ' ' !in first
    ensures ParseDateFromMessage(first + " " + rest) == StrptimeYmd(first)
    ensures ParseDateFromMessage(first) == StrptimeYmd(first)
  {
    SplitAround(first, rest, ' ');
    SplitNoSep(first, ' ');
  }

  // =====================================================================
  // parse_info

  /** Python truthiness of an optional text: present and non-empty. */
  predicate IsTruthy(s: Option<string>)
  {
    s.Some? && s.value != ""
  }

  /** The text the location is taken from: the source when it is truthy,
      else the description. */
  function LocationText(source: Option<string>, desc: string): string
  {
    if IsTruthy(source) then source.value else desc
  }

  /** `parse_info(source, desc, count)`: the location comes from the source
      when it is truthy and from the description otherwise; the date always
      from the description; the count is `int(count)`. Arguments are
      evaluated in that order, so an IndexError of the location parser wins
      over a ValueError of the count. */
  function ParseInfo(source: Option<string>, desc: string, count: string): (r: Result<InfectionLog>)
    ensures var location := ParseLocationFromMessage(LocationText(source, desc));
      && (location.Err? ==> r == Err(location.error))
      && (location.Ok? && ParseInt(count).Err? ==> r == Err(ValueError))
      && (r.Ok? <==> location.Ok? && ParseInt(count).Ok?)
      && (r.Ok? ==> r.value == InfectionLog(location.value, ParseDateFromMessage(desc), ParseInt(count).value))
  {
    var location :=
      if IsTruthy(source) then ParseLocationFromMessage(source.value)
      else ParseLocationFromMessage(desc);
    match location
    case Err(e) => Err(e)
    case Ok(loc) =>
      var date := ParseDateFromMessage(desc);
      match ParseInt(count)
      case Err(e) => Err(e)
      case Ok(n) => Ok(InfectionLog(loc, date, n))
  }

  /** A truthy source decides the location: the description does not matter
      for it. */
  lemma LocationPrefersSource(source: string, desc1: string, desc2: string, count: string)
    requires source != ""
    ensures ParseInfo(Some(source), desc1, count).Ok? && ParseInfo(Some(source), desc2, count).Ok? ==>
      ParseInfo(Some(source), desc1, count).value.location
      == ParseInfo(Some(source), desc2, count).value.location
  {
  }

  /** An absent or empty source falls back to the description. */
  lemma EmptySourceFallsBack(desc: string, count: string)
    ensures ParseInfo(Some(""), desc, count) == ParseInfo(None, desc, count)
    ensures ParseInfo(None, desc, count).Ok? ==>
      ParseInfo(None, desc, count).value.location == ParseLocationFromMessage(desc).value
  {
  }

  /** The date never comes from the source. */
  lemma DateIgnoresSource(source1: Option<string>, source2: Option<string>, desc: string, count: string)
    ensures ParseInfo(source1, desc, count).Ok? && ParseInfo(source2, desc, count).Ok? ==>
      ParseInfo(source1, desc, count).value.date == ParseInfo(source2, desc, count).value.date
  {
  }

  /** A count that is not an integer literal fails the record: it never
      defaults. Once the location is read, the failure is the ValueError of
      `int()`. */
  lemma CountNeverDefaults(source: Option<string>, desc: string)
    ensures ParseInt("").Err? && ParseInt("abc").Err?
    ensures ParseInfo(source, desc, "").Err?
    ensures ParseInfo(source, desc, "abc").Err?
    ensures ParseLocationFromMessage(LocationText(source, desc)).Ok? ==>
      ParseInfo(source, desc, "") == Err(ValueError) && ParseInfo(source, desc, "abc") == Err(ValueError)
  {
    assert forall c :: c in "abc" ==> !IsDigit(c);
  }

  // =====================================================================
  // C19Spider.parse, per list item

  /** Every mark of the text has a space in front of it. */
  predicate MarksDetached(m: string)
  {
    forall k :: 0 < k < |m| && IsMark(m[k]) ==> m[k - 1] == ' '
  }

  /** In a text whose marks are detached, a mark can only be the first
      character of a token. */
  lemma {:induction false} DetachedMarksLead(m: string)
    requires MarksDetached(m)
    ensures forall t, k :: t in Split(m, ' ') && 0 < k < |t| ==> !IsMark(t[k])
    decreases |m|
  {
    if |m| > 0 {
      var rest := Split(m[1..], ' ');
      assert MarksDetached(m[1..]) by {
        forall k | 0 < k < |m[1..]| && IsMark(m[1..][k]) ensures m[1..][k - 1] == ' ' {
          assert m[1..][k] == m[k + 1];
        }
      }
      DetachedMarksLead(m[1..]);
      if m[0] != ' ' {
        var first := [m[0]] + rest[0];
        assert Split(m, ' ') == [first] + rest[1..];
        forall k | 0 < k < |first| ensures !IsMark(first[k]) {
          if k == 1 {
            assert first[1] == m[1];
          } else {
            assert first[k] == rest[0][k - 1];
          }
        }
      }
    }
  }

  /** One `li` item of the report list: source and description pass through
      `strip_message` before `parse_info`. Because the marks are then
      detached from the words, a location found never holds `.` or `,`. */
  function ParseEntry(source: Option<string>, description: string, count: string): (r: Result<InfectionLog>)
    ensures r == ParseInfo(StripMessage(source), StripMessage(Some(description)).value, count)
    ensures r.Ok? && r.value.location.Some? ==>
      '.' !in r.value.location.value && ',' !in r.value.location.value
  {
    var src := StripMessage(source);
    var desc := StripMessage(Some(description)).value;
    var r := ParseInfo(src, desc, count);
    if r.Ok? && r.value.location.Some? then
      StrippedMarksDetached(source);
      StrippedMarksDetached(Some(description));
      StrippedLocationHasNoMarks(src, desc, r.value.location.value);
      r
    else r
  }

  /** The text a stripped message is made of has its marks detached. */
  lemma StrippedMarksDetached(msg: Option<string>)
    ensures StripMessage(msg).Some? ==> MarksDetached(StripMessage(msg).value)
  {
    if msg.Some? {
      SpaceMarksDetached(msg.value);
    }
  }

  /** A location found in stripped text holds no `.` and no `,`. */
  lemma StrippedLocationHasNoMarks(src: Option<string>, desc: string, name: string)
    requires src.Some? ==> MarksDetached(src.value)
    requires MarksDetached(desc)
    requires ParseLocationFromMessage(LocationText(src, desc)) == Ok(Some(name))
    ensures '.' !in name && ',' !in name
  {
    var text := LocationText(src, desc);
    var tokens := Split(text, ' ');
    var s, e := LocationShape(text, name);
    DetachedMarksLead(text);
    forall c | c in name ensures !IsMark(c) {
      JoinChars(tokens[s..e], c);
      if c != ' ' {
        var k :| 0 <= k < |tokens[s..e]| && c in tokens[s..e][k];
        var t := tokens[s..e][k];
        assert t in Split(name, ' ');
        assert t in tokens;
        var m :| 0 <= m < |t| && t[m] == c;
      }
    }
  }
}
