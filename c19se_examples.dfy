/** The documented behaviour of the parser on concrete messages: the unit
    tests of py/tests/data/fetch_tests.py, the two report items described at
    `parse_info`, and messages on which the location scan raises IndexError.
    Each example takes the message `m` as a parameter fixed by the words it
    splits into on single spaces (`Split(m, ' ') == [...]`); since joining the
    words back gives `m` (`PyStr.JoinSplit`), this fixes `m` to the text
    quoted in the example's comment. */
module C19seExamples {
  import opened Outcomes
  import opened PyStr
  import opened PyInt
  import opened PyDate
  import opened C19se

  // ---------------------------------------------------------------------
  // parse_location_from_message

  /** "i Stockholm" gives "Stockholm". */
  lemma LocationAfterI(m: string)
    requires Split(m, ' ') == ["i", "Stockholm"]
    ensures ParseLocationFromMessage(m) == Ok(Some("Stockholm"))
  {
    var t := Split(m, ' ');
    assert Triggers(t, 0);
    ScanAtDecision(t, 0);
    assert RunEnd(t, 2) == 2;
    assert t[1..2] == ["Stockholm"];
  }

  /** "från Jönköping" gives "Jönköping". */
  lemma LocationAfterFran(m: string)
    requires Split(m, ' ') == ["från", "Jönköping"]
    ensures ParseLocationFromMessage(m) == Ok(Some("Jönköping"))
  {
    var t := Split(m, ' ');
    assert Triggers(t, 0);
    ScanAtDecision(t, 0);
    assert RunEnd(t, 2) == 2;
    assert t[1..2] == ["Jönköping"];
  }

  /** "i Region Jämtland" gives "Jämtland". */
  lemma LocationAfterCapitalRegion(m: string)
    requires Split(m, ' ') == ["i", "Region", "Jämtland"]
    ensures ParseLocationFromMessage(m) == Ok(Some("Jämtland"))
  {
    var t := Split(m, ' ');
    RegionKeywordSkipped(t, 0);
    assert RunEnd(t, 3) == 3;
    assert t[2..3] == ["Jämtland"];
  }

  /** "i region Sörmland" gives "Sörmland". */
  lemma LocationAfterLowercaseRegion(m: string)
    requires Split(m, ' ') == ["i", "region", "Sörmland"]
    ensures ParseLocationFromMessage(m) == Ok(Some("Sörmland"))
  {
    var t := Split(m, ' ');
    RegionKeywordSkipped(t, 0);
    assert RunEnd(t, 3) == 3;
    assert t[2..3] == ["Sörmland"];
  }

  /** "i Västra Götaland" gives "Västra Götaland": the run of capitalised
      words is taken whole. */
  lemma LocationMultiPartName(m: string)
    requires Split(m, ' ') == ["i", "Västra", "Götaland"]
    ensures ParseLocationFromMessage(m) == Ok(Some("Västra Götaland"))
  {
    var t := Split(m, ' ');
    assert Triggers(t, 0);
    ScanAtDecision(t, 0);
    assert RunEnd(t, 3) == 3;
    assert RunEnd(t, 1) == 3;
    var run := t[1..3];
    assert run == ["Västra", "Götaland"] && run[1..] == ["Götaland"];
    assert Join(run, ' ') == "Västra" + " " + "Götaland";
    assert "Västra" + " " + "Götaland" == "Västra Götaland";
    assert Decision(t, 0) == Ok(Some(Join(run, ' ')));
  }

  /** "i Stockholm i Sverige i Monad" gives "Stockholm": the first match
      wins. */
  lemma LocationFirstMatchWins(m: string)
    requires Split(m, ' ') == ["i", "Stockholm", "i", "Sverige", "i", "Monad"]
    ensures ParseLocationFromMessage(m) == Ok(Some("Stockholm"))
  {
    var t := Split(m, ' ');
    assert Triggers(t, 0);
    ScanAtDecision(t, 0);
    assert RunEnd(t, 2) == 2;
    assert t[1..2] == ["Stockholm"];
  }

  /** "i stockholm i Monad" gives "Monad": a preposition with a lowercase
      follower is passed over. */
  lemma LocationLowercaseSkipped(m: string)
    requires Split(m, ' ') == ["i", "stockholm", "i", "Monad"]
    ensures ParseLocationFromMessage(m) == Ok(Some("Monad"))
  {
    var t := Split(m, ' ');
    LowercaseFollowerPassedOver(t, 0);
    assert !IsPreposition(t[1]);
    assert Triggers(t, 2);
    ScanAtDecision(t, 2);
    assert RunEnd(t, 4) == 4;
    assert t[3..4] == ["Monad"];
  }

  /** The empty message has no location. */
  lemma LocationOfEmptyMessage()
    ensures ParseLocationFromMessage("") == Ok(None)
  {
    var t := Split("", ' ');
    assert Scan(t, 1) == Ok(None);
  }

  /** "i": the preposition ends the message. */
  lemma LocationPrepositionAtEnd(m: string)
    requires Split(m, ' ') == ["i"]
    ensures ParseLocationFromMessage(m) == Err(IndexError)
  {
  }

  /** "i Region": the region keyword ends the message. */
  lemma LocationRegionAtEnd(m: string)
    requires Split(m, ' ') == ["i", "Region"]
    ensures ParseLocationFromMessage(m) == Err(IndexError)
  {
  }

  /** "i Stockholm " (a trailing space): the run of capitalised words stops at
      an empty token. */
  lemma LocationTrailingSpace(m: string)
    requires Split(m, ' ') == ["i", "Stockholm", ""]
    ensures ParseLocationFromMessage(m) == Err(IndexError)
  {
    var t := Split(m, ' ');
    assert Triggers(t, 0);
    ScanAtDecision(t, 0);
    assert RunEnd(t, 2) == 2;
  }

  /** "i  Stockholm" (two spaces): the preposition is followed by an empty
      token. */
  lemma LocationDoubleSpace(m: string)
    requires Split(m, ' ') == ["i", "", "Stockholm"]
    ensures ParseLocationFromMessage(m) == Err(IndexError)
  {
  }

  // ---------------------------------------------------------------------
  // The same examples, stated on the literal texts. Each text is first
  // split by joining its words back, one word at a time.

  /** Joining a word in front of further words puts one space after it. */
  lemma JoinCons(w: string, rest: seq<string>)
    requires |rest| > 0
    ensures Join([w] + rest, ' ') == w + " " + Join(rest, ' ')
  {
    assert ([w] + rest)[1..] == rest;
  }

  /** Joining 2 words. */
  lemma JoinTwo(a: string, b: string)
    ensures Join([a, b], ' ') == a + " " + b
  {
    JoinCons(a, [b]);
    assert [a] + [b] == [a, b];
  }

  /** Joining 3 words. */
  lemma JoinThree(a: string, b: string, c: string)
    ensures Join([a, b, c], ' ') == a + " " + b + " " + c
  {
    JoinTwo(b, c);
    JoinCons(a, [b, c]);
    assert [a] + [b, c] == [a, b, c];
  }

  /** Joining 4 words. */
  lemma JoinFour(a: string, b: string, c: string, d: string)
    ensures Join([a, b, c, d], ' ') == a + " " + b + " " + c + " " + d
  {
    JoinThree(b, c, d);
    JoinCons(a, [b, c, d]);
    assert [a] + [b, c, d] == [a, b, c, d];
  }

  /** Joining 5 words. */
  lemma JoinFive(a: string, b: string, c: string, d: string, e: string)
    ensures Join([a, b, c, d, e], ' ') == a + " " + b + " " + c + " " + d + " " + e
  {
    JoinFour(b, c, d, e);
    JoinCons(a, [b, c, d, e]);
    assert [a] + [b, c, d, e] == [a, b, c, d, e];
  }

  /** Joining 6 words. */
  lemma JoinSix(a: string, b: string, c: string, d: string, e: string, f: string)
    ensures Join([a, b, c, d, e, f], ' ') == a + " " + b + " " + c + " " + d + " " + e + " " + f
  {
    JoinFive(b, c, d, e, f);
    JoinCons(a, [b, c, d, e, f]);
    assert [a] + [b, c, d, e, f] == [a, b, c, d, e, f];
  }

  /** Joining 7 words. */
  lemma JoinSeven(a: string, b: string, c: string, d: string, e: string, f: string, g: string)
    ensures Join([a, b, c, d, e, f, g], ' ') == a + " " + b + " " + c + " " + d + " " + e + " " + f + " " + g
  {
    JoinSix(b, c, d, e, f, g);
    JoinCons(a, [b, c, d, e, f, g]);
    assert [a] + [b, c, d, e, f, g] == [a, b, c, d, e, f, g];
  }

  /** Joining 8 words. */
  lemma JoinEight(a: string, b: string, c: string, d: string, e: string, f: string, g: string, h: string)
    ensures Join([a, b, c, d, e, f, g, h], ' ') == a + " " + b + " " + c + " " + d + " " + e + " " + f + " " + g + " " + h
  {
    JoinSeven(b, c, d, e, f, g, h);
    JoinCons(a, [b, c, d, e, f, g, h]);
    assert [a] + [b, c, d, e, f, g, h] == [a, b, c, d, e, f, g, h];
  }

  /** Joining ["i", "Stockholm"] gives "i Stockholm". */
  lemma StockholmJoined()
    ensures Join(["i", "Stockholm"], ' ') == "i Stockholm"
  {
    JoinTwo("i", "Stockholm");
  }

  /** "i Stockholm" splits into ["i", "Stockholm"]. */
  lemma StockholmWords()
    ensures Split("i Stockholm", ' ') == ["i", "Stockholm"]
  {
    StockholmJoined();
    SplitJoin(["i", "Stockholm"], ' ');
  }

  /** `parse_location_from_message("i Stockholm")`. */
  lemma StockholmText()
    ensures ParseLocationFromMessage("i Stockholm") == Ok(Some("Stockholm"))
  {
    StockholmWords();
    LocationAfterI("i Stockholm");
  }

  /** Joining ["från", "Jönköping"] gives "från Jönköping". */
  lemma JonkopingJoined()
    ensures Join(["från", "Jönköping"], ' ') == "från Jönköping"
  {
    JoinTwo("från", "Jönköping");
  }

  /** "från Jönköping" splits into ["från", "Jönköping"]. */
  lemma JonkopingWords()
    ensures Split("från Jönköping", ' ') == ["från", "Jönköping"]
  {
    JonkopingJoined();
    SplitJoin(["från", "Jönköping"], ' ');
  }

  /** `parse_location_from_message("från Jönköping")`. */
  lemma JonkopingText()
    ensures ParseLocationFromMessage("från Jönköping") == Ok(Some("Jönköping"))
  {
    JonkopingWords();
    LocationAfterFran("från Jönköping");
  }

  /** Joining ["i", "Region", "Jämtland"] gives "i Region Jämtland". */
  lemma CapitalRegionJoined()
    ensures Join(["i", "Region", "Jämtland"], ' ') == "i Region Jämtland"
  {
    JoinThree("i", "Region", "Jämtland");
  }

  /** "i Region Jämtland" splits into ["i", "Region", "Jämtland"]. */
  lemma CapitalRegionWords()
    ensures Split("i Region Jämtland", ' ') == ["i", "Region", "Jämtland"]
  {
    CapitalRegionJoined();
    SplitJoin(["i", "Region", "Jämtland"], ' ');
  }

  /** `parse_location_from_message("i Region Jämtland")`. */
  lemma CapitalRegionText()
    ensures ParseLocationFromMessage("i Region Jämtland") == Ok(Some("Jämtland"))
  {
    CapitalRegionWords();
    LocationAfterCapitalRegion("i Region Jämtland");
  }

  /** Joining ["i", "region", "Sörmland"] gives "i region Sörmland". */
  lemma LowercaseRegionJoined()
    ensures Join(["i", "region", "Sörmland"], ' ') == "i region Sörmland"
  {
    JoinThree("i", "region", "Sörmland");
  }

  /** "i region Sörmland" splits into ["i", "region", "Sörmland"]. */
  lemma LowercaseRegionWords()
    ensures Split("i region Sörmland", ' ') == ["i", "region", "Sörmland"]
  {
    LowercaseRegionJoined();
    SplitJoin(["i", "region", "Sörmland"], ' ');
  }

  /** `parse_location_from_message("i region Sörmland")`. */
  lemma LowercaseRegionText()
    ensures ParseLocationFromMessage("i region Sörmland") == Ok(Some("Sörmland"))
  {
    LowercaseRegionWords();
    LocationAfterLowercaseRegion("i region Sörmland");
  }

  /** Joining ["i", "Västra", "Götaland"] gives "i Västra Götaland". */
  lemma MultiPartNameJoined()
    ensures Join(["i", "Västra", "Götaland"], ' ') == "i Västra Götaland"
  {
    JoinThree("i", "Västra", "Götaland");
  }

  /** "i Västra Götaland" splits into ["i", "Västra", "Götaland"]. */
  lemma MultiPartNameWords()
    ensures Split("i Västra Götaland", ' ') == ["i", "Västra", "Götaland"]
  {
    MultiPartNameJoined();
    SplitJoin(["i", "Västra", "Götaland"], ' ');
  }

  /** `parse_location_from_message("i Västra Götaland")`. */
  lemma MultiPartNameText()
    ensures ParseLocationFromMessage("i Västra Götaland") == Ok(Some("Västra Götaland"))
  {
    MultiPartNameWords();
    LocationMultiPartName("i Västra Götaland");
  }

  /** Joining ["i", "Stockholm", "i", "Sverige", "i", "Monad"] gives "i Stockholm i Sverige i Monad". */
  lemma FirstMatchWinsJoined()
    ensures Join(["i", "Stockholm", "i", "Sverige", "i", "Monad"], ' ') == "i Stockholm i Sverige i Monad"
  {
    JoinSix("i", "Stockholm", "i", "Sverige", "i", "Monad");
    assert "i" + " " + "Stockholm" + " " + "i" == "i Stockholm i";
    assert "i Stockholm i" + " " + "Sverige" + " " + "i" == "i Stockholm i Sverige i";
    assert "i Stockholm i Sverige i" + " " + "Monad" == "i Stockholm i Sverige i Monad";
  }

  /** "i Stockholm i Sverige i Monad" splits into ["i", "Stockholm", "i", "Sverige", "i", "Monad"]. */
  lemma FirstMatchWinsWords()
    ensures Split("i Stockholm i Sverige i Monad", ' ') == ["i", "Stockholm", "i", "Sverige", "i", "Monad"]
  {
    FirstMatchWinsJoined();
    SplitJoin(["i", "Stockholm", "i", "Sverige", "i", "Monad"], ' ');
  }

  /** `parse_location_from_message("i Stockholm i Sverige i Monad")`. */
  lemma FirstMatchWinsText()
    ensures ParseLocationFromMessage("i Stockholm i Sverige i Monad") == Ok(Some("Stockholm"))
  {
    FirstMatchWinsWords();
    LocationFirstMatchWins("i Stockholm i Sverige i Monad");
  }

  /** Joining ["i", "stockholm", "i", "Monad"] gives "i stockholm i Monad". */
  lemma LowercaseSkippedJoined()
    ensures Join(["i", "stockholm", "i", "Monad"], ' ') == "i stockholm i Monad"
  {
    JoinFour("i", "stockholm", "i", "Monad");
  }

  /** "i stockholm i Monad" splits into ["i", "stockholm", "i", "Monad"]. */
  lemma LowercaseSkippedWords()
    ensures Split("i stockholm i Monad", ' ') == ["i", "stockholm", "i", "Monad"]
  {
    LowercaseSkippedJoined();
    SplitJoin(["i", "stockholm", "i", "Monad"], ' ');
  }

  /** `parse_location_from_message("i stockholm i Monad")`. */
  lemma LowercaseSkippedText()
    ensures ParseLocationFromMessage("i stockholm i Monad") == Ok(Some("Monad"))
  {
    LowercaseSkippedWords();
    LocationLowercaseSkipped("i stockholm i Monad");
  }

  /** "i" splits into ["i"]. */
  lemma PrepositionAtEndWords()
    ensures Split("i", ' ') == ["i"]
  {
    SplitNoSep("i", ' ');
  }

  /** `parse_location_from_message("i")`. */
  lemma PrepositionAtEndText()
    ensures ParseLocationFromMessage("i") == Err(IndexError)
  {
    PrepositionAtEndWords();
    LocationPrepositionAtEnd("i");
  }

  /** Joining ["i", "Region"] gives "i Region". */
  lemma RegionAtEndJoined()
    ensures Join(["i", "Region"], ' ') == "i Region"
  {
    JoinTwo("i", "Region");
  }

  /** "i Region" splits into ["i", "Region"]. */
  lemma RegionAtEndWords()
    ensures Split("i Region", ' ') == ["i", "Region"]
  {
    RegionAtEndJoined();
    SplitJoin(["i", "Region"], ' ');
  }

  /** `parse_location_from_message("i Region")`. */
  lemma RegionAtEndText()
    ensures ParseLocationFromMessage("i Region") == Err(IndexError)
  {
    RegionAtEndWords();
    LocationRegionAtEnd("i Region");
  }

  /** Joining ["i", "Stockholm", ""] gives "i Stockholm ". */
  lemma TrailingSpaceJoined()
    ensures Join(["i", "Stockholm", ""], ' ') == "i Stockholm "
  {
    JoinThree("i", "Stockholm", "");
  }

  /** "i Stockholm " splits into ["i", "Stockholm", ""]. */
  lemma TrailingSpaceWords()
    ensures Split("i Stockholm ", ' ') == ["i", "Stockholm", ""]
  {
    TrailingSpaceJoined();
    SplitJoin(["i", "Stockholm", ""], ' ');
  }

  /** `parse_location_from_message("i Stockholm ")`. */
  lemma TrailingSpaceText()
    ensures ParseLocationFromMessage("i Stockholm ") == Err(IndexError)
  {
    TrailingSpaceWords();
    LocationTrailingSpace("i Stockholm ");
  }

  /** Joining ["i", "", "Stockholm"] gives "i  Stockholm". */
  lemma DoubleSpaceJoined()
    ensures Join(["i", "", "Stockholm"], ' ') == "i  Stockholm"
  {
    JoinThree("i", "", "Stockholm");
  }

  /** "i  Stockholm" splits into ["i", "", "Stockholm"]. */
  lemma DoubleSpaceWords()
    ensures Split("i  Stockholm", ' ') == ["i", "", "Stockholm"]
  {
    DoubleSpaceJoined();
    SplitJoin(["i", "", "Stockholm"], ' ');
  }

  /** `parse_location_from_message("i  Stockholm")`. */
  lemma DoubleSpaceText()
    ensures ParseLocationFromMessage("i  Stockholm") == Err(IndexError)
  {
    DoubleSpaceWords();
    LocationDoubleSpace("i  Stockholm");
  }

  /** "2020-01-01" splits into ["2020-01-01"]. */
  lemma IsoDateWords()
    ensures Split("2020-01-01", ' ') == ["2020-01-01"]
  {
    SplitNoSep("2020-01-01", ' ');
  }

  /** `parse_date_from_message("2020-01-01")`. */
  lemma IsoDateText()
    ensures ParseDateFromMessage("2020-01-01") == Some(Date(2020, 1, 1))
  {
    IsoDateWords();
    DateOfIsoText("2020-01-01");
  }

  /** Joining ["2020-01-01", "12:23"] gives "2020-01-01 12:23". */
  lemma DateAndTimeJoined()
    ensures Join(["2020-01-01", "12:23"], ' ') == "2020-01-01 12:23"
  {
    JoinTwo("2020-01-01", "12:23");
  }

  /** "2020-01-01 12:23" splits into ["2020-01-01", "12:23"]. */
  lemma DateAndTimeWords()
    ensures Split("2020-01-01 12:23", ' ') == ["2020-01-01", "12:23"]
  {
    DateAndTimeJoined();
    SplitJoin(["2020-01-01", "12:23"], ' ');
  }

  /** `parse_date_from_message("2020-01-01 12:23")`. */
  lemma DateAndTimeText()
    ensures ParseDateFromMessage("2020-01-01 12:23") == Some(Date(2020, 1, 1))
  {
    DateAndTimeWords();
    DateIgnoresTime("2020-01-01 12:23");
  }

  /** "18819191" splits into ["18819191"]. */
  lemma OtherDateWords()
    ensures Split("18819191", ' ') == ["18819191"]
  {
    SplitNoSep("18819191", ' ');
  }

  /** `parse_date_from_message("")` and `parse_date_from_message("18819191")`. */
  lemma OtherDateText()
    ensures ParseDateFromMessage("") == None
    ensures ParseDateFromMessage("18819191") == None
  {
    OtherDateWords();
    DateOfOtherText("18819191");
  }

  /** The day padded with a space, which `%d` accepts, never reaches the
      date parser from a message: the split stops the first token at that
      space. */
  lemma SpacePaddedDayUnreachable()
    ensures ParseDateFromMessage("2020-01- 5") == None
  {
    assert "2020-01- 5" == "2020-01-" + " " + "5";
    DateFromFirstTokenOnly("2020-01-", "5");
    DayMissing();
  }

  /** "2020-01-", the first token of "2020-01- 5", has an empty day field. */
  lemma DayMissing()
    ensures StrptimeYmd("2020-01-") == None
  {
    assert "2020-01-" == "2020-01" + ['-'];
    assert Count("2020-01", '-') == 1;
    EmptyDayNoDate("2020-01");
  }

  /** A text with one `-` followed by a closing `-` has an empty day field. */
  lemma EmptyDayNoDate(pre: string)
    requires Count(pre, '-') == 1
    ensures StrptimeYmd(pre + ['-']) == None
  {
    assert pre + ['-'] + "" == pre + ['-'];
    SplitAround(pre, "", '-');
    SplitNoSep("", '-');
    var parts := Split(pre + ['-'], '-');
    assert |parts| == 3 && parts[2] == "";
    assert DayField(parts[2]).None?;
  }

  // ---------------------------------------------------------------------
  // parse_date_from_message

  /** A word of the form "yyyy-mm-dd" written with the digits of a valid
      date is that date. */
  lemma IsoWord(w: string, date: Date)
    requires IsValidDate(date)
    requires w == Year4(date.year) + "-" + [Digit(date.month / 10), Digit(date.month % 10)]
      + "-" + [Digit(date.day / 10), Digit(date.day % 10)]
    ensures StrptimeYmd(w) == Some(date)
  {
    assert w == IsoFormat(date);
    StrptimeIsoFormat(date);
  }

  /** "2020-01-01" is 1 January 2020. */
  lemma DateOfIsoText(m: string)
    requires Split(m, ' ') == ["2020-01-01"]
    ensures ParseDateFromMessage(m) == Some(Date(2020, 1, 1))
  {
    IsoWord(Split(m, ' ')[0], Date(2020, 1, 1));
  }

  /** "2020-01-01 12:23": the time after the first space is ignored. */
  lemma DateIgnoresTime(m: string)
    requires Split(m, ' ') == ["2020-01-01", "12:23"]
    ensures ParseDateFromMessage(m) == Some(Date(2020, 1, 1))
  {
    IsoWord(Split(m, ' ')[0], Date(2020, 1, 1));
  }

  /** "" and "18819191" are not dates. */
  lemma DateOfOtherText(m: string)
    requires Split(m, ' ') == ["18819191"]
    ensures ParseDateFromMessage("") == None
    ensures ParseDateFromMessage(m) == None
  {
    SplitNoSep("18819191", '-');
  }

  // ---------------------------------------------------------------------
  // One report item, end to end

  /** A message none of whose words holds `.` or `,` holds neither. */
  lemma UnmarkedWords(m: string)
    requires forall k :: 0 <= k < |Split(m, ' ')| ==> '.' !in Split(m, ' ')[k] && ',' !in Split(m, ' ')[k]
    ensures '.' !in m && ',' !in m
  {
    NotInSplit(m, ' ', '.');
    NotInSplit(m, ' ', ',');
  }

  /** Text without `.` and `,` is not changed by stripping. */
  lemma StripUnmarked(s: string)
    requires '.' !in s && ',' !in s
    ensures StripMessage(Some(s)) == Some(s)
  {
    SpaceMarksNoMarks(s);
  }

  /** Stripping text that ends in a full stop and has no other mark
      detaches the full stop. */
  lemma StripFullStop(s: string)
    requires '.' !in s && ',' !in s
    ensures StripMessage(Some(s + ".")) == Some(s + " .")
  {
    SpaceMarksAppend(s, ".");
    SpaceMarksNoMarks(s);
    assert SpaceMarks(".") == " .";
  }

  /** The count "1". */
  lemma CountOne()
    ensures ParseInt("1") == Ok(1)
  {
    IntRoundTrip(1);
  }

  /** A count with no white space around it is read by `ParseSigned`. */
  lemma IntOfUnpadded(s: string)
    requires |s| > 0 && !IsSpace(s[0]) && !IsSpace(s[|s| - 1])
    ensures ParseInt(s) == ParseSigned(s)
  {
    TrimAround([], s, []);
    assert [] + s + [] == s;
  }

  /** `int("+7") == 7`. */
  lemma IntWithPlus()
    ensures ParseInt("+7") == Ok(7)
  {
    IntOfUnpadded("+7");
  }

  /** `int("-7") == -7`. */
  lemma IntWithMinus()
    ensures ParseInt("-7") == Ok(-7)
  {
    IntOfUnpadded("-7");
  }

  /** `int("007") == 7`. */
  lemma IntWithLeadingZeros()
    ensures ParseInt("007") == Ok(7)
  {
    IntOfUnpadded("007");
    assert "007"[..2] == "00" && "00"[..1] == "0" && "0"[..0] == "";
    assert DecimalValue("007") == 7;
  }

  /** `int("1_000") == 1000`. */
  lemma IntWithUnderscore()
    ensures ParseInt("1_000") == Ok(1000)
  {
    IntOfUnpadded("1_000");
    Thousand();
  }

  /** "1_000" is a digit group of value 1000. */
  lemma Thousand()
    ensures IsDigitGroup("1_000") && DecimalValue("1_000") == 1000
  {
    assert "1_000"[..4] == "1_00" && "1_00"[..3] == "1_0" && "1_0"[..2] == "1_";
    assert "1_"[..1] == "1" && "1"[..0] == "";
  }

  /** `int()` rejects a sign inside the digits, a sign alone, underscores at
      either end and doubled underscores. */
  lemma IntRejects()
    ensures ParseInt("1-2").Err? && ParseInt("+").Err?
    ensures ParseInt("_1").Err? && ParseInt("1_").Err? && ParseInt("1__0").Err?
  {
    IntOfUnpadded("1-2");
    IntOfUnpadded("+");
    IntOfUnpadded("_1");
    IntOfUnpadded("1_");
    IntOfUnpadded("1__0");
    SignsRejected();
    UnderscoresRejected();
  }

  /** A sign inside the digits, or a sign with no digits, is no literal. */
  lemma SignsRejected()
    ensures ParseSigned("1-2").Err? && ParseSigned("+").Err?
  {
    assert !IsDigit('-');
    assert "+"[1..] == "";
  }

  /** An underscore at either end, or a doubled one, is no literal. */
  lemma UnderscoresRejected()
    ensures ParseSigned("_1").Err? && ParseSigned("1_").Err? && ParseSigned("1__0").Err?
  {
    assert !IsDigit('_');
    assert "1__0"[1..] == "__0";
  }

  /** `int()` does not skip the separators U+001C to U+001F, although
      `str.isspace()` counts them as white space. */
  lemma IntRejectsSeparators()
    ensures ParseInt("\U{1C}1").Err? && ParseInt("1\U{1F}").Err?
  {
    IntOfUnpadded("\U{1C}1");
    IntOfUnpadded("1\U{1F}");
  }

  /** A report item whose stripped texts, location, date and count are known
      gives the record made of them. */
  lemma EntryOf(source: Option<string>, desc: string, count: string,
                stripped: Option<string>, strippedDesc: string, loc: Option<string>, date: Option<Date>, n: int)
    requires StripMessage(source) == stripped && StripMessage(Some(desc)) == Some(strippedDesc)
    requires ParseLocationFromMessage(LocationText(stripped, strippedDesc)) == Ok(loc)
    requires ParseDateFromMessage(strippedDesc) == date
    requires ParseInt(count) == Ok(n)
    ensures ParseEntry(source, desc, count) == Ok(InfectionLog(loc, date, n))
  {
  }

  /** "2020-03-09 10:47 - En person i Värmland" with no source: the
      location is read from the description. */
  lemma EntryWithoutSource(desc: string)
    requires Split(desc, ' ') == ["2020-03-09", "10:47", "-", "En", "person", "i", "Värmland"]
    ensures ParseEntry(None, desc, "1") == Ok(InfectionLog(Some("Värmland"), Some(Date(2020, 3, 9)), 1))
  {
    StripDescription(desc);
    LocationInDescription(desc);
    DateInDescription(desc);
    CountOne();
    EntryOf(None, desc, "1", None, desc, Some("Värmland"), Some(Date(2020, 3, 9)), 1);
  }

  /** That description has no marks for stripping to detach. */
  lemma StripDescription(desc: string)
    requires Split(desc, ' ') == ["2020-03-09", "10:47", "-", "En", "person", "i", "Värmland"]
    ensures StripMessage(Some(desc)) == Some(desc)
  {
    UnmarkedWords(desc);
    StripUnmarked(desc);
  }

  /** The location of that description: the first five words hold no
      preposition. */
  lemma LocationInDescription(desc: string)
    requires Split(desc, ' ') == ["2020-03-09", "10:47", "-", "En", "person", "i", "Värmland"]
    ensures ParseLocationFromMessage(desc) == Ok(Some("Värmland"))
  {
    var t := Split(desc, ' ');
    assert Scan(t, 4) == Scan(t, 5);
    assert Scan(t, 3) == Scan(t, 4);
    assert Scan(t, 2) == Scan(t, 3);
    assert Scan(t, 1) == Scan(t, 2);
    assert Scan(t, 0) == Scan(t, 1);
    assert Triggers(t, 5);
    ScanAtDecision(t, 5);
    assert RunEnd(t, 7) == 7;
    assert t[6..7] == ["Värmland"];
  }

  /** The date of that description, from its first word. */
  lemma DateInDescription(desc: string)
    requires Split(desc, ' ') == ["2020-03-09", "10:47", "-", "En", "person", "i", "Värmland"]
    ensures ParseDateFromMessage(desc) == Some(Date(2020, 3, 9))
  {
    IsoWord(Split(desc, ' ')[0], Date(2020, 3, 9));
  }

  /** "Person i Skåne som varit i norra Italien." as the source of an item
      whose description is "2020-03-03 00:00 - ": the location is read from
      the source, whose full stop is first detached from the last word, and
      the date from the description. */
  lemma EntryWithSource(words: string, desc: string)
    requires Split(words, ' ') == ["Person", "i", "Skåne", "som", "varit", "i", "norra", "Italien"]
    requires Split(desc, ' ') == ["2020-03-03", "00:00", "-", ""]
    ensures ParseEntry(Some(words + "."), desc, "1") == Ok(InfectionLog(Some("Skåne"), Some(Date(2020, 3, 3)), 1))
  {
    StripSource(words);
    SourceWords(words);
    LocationInSource(words + " .");
    StripReport(desc);
    DateInReport(desc);
    CountOne();
    EntryOf(Some(words + "."), desc, "1", Some(words + " ."), desc, Some("Skåne"), Some(Date(2020, 3, 3)), 1);
  }

  /** Stripping that source detaches its full stop. */
  lemma StripSource(words: string)
    requires Split(words, ' ') == ["Person", "i", "Skåne", "som", "varit", "i", "norra", "Italien"]
    ensures StripMessage(Some(words + ".")) == Some(words + " .")
  {
    UnmarkedWords(words);
    StripFullStop(words);
  }

  /** The detached full stop is a word of its own. */
  lemma SourceWords(words: string)
    requires Split(words, ' ') == ["Person", "i", "Skåne", "som", "varit", "i", "norra", "Italien"]
    ensures Split(words + " .", ' ') == ["Person", "i", "Skåne", "som", "varit", "i", "norra", "Italien", "."]
  {
    assert words + " ." == words + [' '] + ".";
    SplitAround(words, ".", ' ');
    SplitNoSep(".", ' ');
  }

  /** The location of that source once stripped: "som" ends the run after
      "Skåne". */
  lemma LocationInSource(m: string)
    requires Split(m, ' ') == ["Person", "i", "Skåne", "som", "varit", "i", "norra", "Italien", "."]
    ensures ParseLocationFromMessage(m) == Ok(Some("Skåne"))
  {
    var t := Split(m, ' ');
    assert Scan(t, 0) == Scan(t, 1);
    assert Triggers(t, 1);
    ScanAtDecision(t, 1);
    assert RunEnd(t, 3) == 3;
    assert t[2..3] == ["Skåne"];
  }

  /** That description has no marks for stripping to detach. */
  lemma StripReport(desc: string)
    requires Split(desc, ' ') == ["2020-03-03", "00:00", "-", ""]
    ensures StripMessage(Some(desc)) == Some(desc)
  {
    UnmarkedWords(desc);
    StripUnmarked(desc);
  }

  /** The date of that description, from its first word. */
  lemma DateInReport(desc: string)
    requires Split(desc, ' ') == ["2020-03-03", "00:00", "-", ""]
    ensures ParseDateFromMessage(desc) == Some(Date(2020, 3, 3))
  {
    IsoWord(Split(desc, ' ')[0], Date(2020, 3, 3));
  }

  /** Joining ["2020-03-09", "10:47", "-", "En", "person", "i", "Värmland"] gives "2020-03-09 10:47 - En person i Värmland". */
  lemma DescriptionJoined()
    ensures Join(["2020-03-09", "10:47", "-", "En", "person", "i", "Värmland"], ' ') == "2020-03-09 10:47 - En person i Värmland"
  {
    JoinSeven("2020-03-09", "10:47", "-", "En", "person", "i", "Värmland");
    assert "2020-03-09" + " " + "10:47" == "2020-03-09 10:47";
    assert "2020-03-09 10:47" + " " + "-" + " " + "En" == "2020-03-09 10:47 - En";
    assert "2020-03-09 10:47 - En" + " " + "person" == "2020-03-09 10:47 - En person";
    assert "2020-03-09 10:47 - En person" + " " + "i" + " " + "Värmland" == "2020-03-09 10:47 - En person i Värmland";
  }

  /** "2020-03-09 10:47 - En person i Värmland" splits into ["2020-03-09", "10:47", "-", "En", "person", "i", "Värmland"]. */
  lemma DescriptionWords()
    ensures Split("2020-03-09 10:47 - En person i Värmland", ' ') == ["2020-03-09", "10:47", "-", "En", "person", "i", "Värmland"]
  {
    DescriptionJoined();
    SplitJoin(["2020-03-09", "10:47", "-", "En", "person", "i", "Värmland"], ' ');
  }

  /** Joining ["Person", "i", "Skåne", "som", "varit", "i", "norra", "Italien"] gives "Person i Skåne som varit i norra Italien". */
  lemma SourceTextJoined()
    ensures Join(["Person", "i", "Skåne", "som", "varit", "i", "norra", "Italien"], ' ') == "Person i Skåne som varit i norra Italien"
  {
    JoinEight("Person", "i", "Skåne", "som", "varit", "i", "norra", "Italien");
    assert "Person" + " " + "i" + " " + "Skåne" == "Person i Skåne";
    assert "Person i Skåne" + " " + "som" + " " + "varit" == "Person i Skåne som varit";
    assert "Person i Skåne som varit" + " " + "i" + " " + "norra" == "Person i Skåne som varit i norra";
    assert "Person i Skåne som varit i norra" + " " + "Italien" == "Person i Skåne som varit i norra Italien";
  }

  /** "Person i Skåne som varit i norra Italien" splits into ["Person", "i", "Skåne", "som", "varit", "i", "norra", "Italien"]. */
  lemma SourceTextWords()
    ensures Split("Person i Skåne som varit i norra Italien", ' ') == ["Person", "i", "Skåne", "som", "varit", "i", "norra", "Italien"]
  {
    SourceTextJoined();
    SplitJoin(["Person", "i", "Skåne", "som", "varit", "i", "norra", "Italien"], ' ');
  }

  /** Joining ["2020-03-03", "00:00", "-", ""] gives "2020-03-03 00:00 - ". */
  lemma ReportJoined()
    ensures Join(["2020-03-03", "00:00", "-", ""], ' ') == "2020-03-03 00:00 - "
  {
    JoinFour("2020-03-03", "00:00", "-", "");
  }

  /** "2020-03-03 00:00 - " splits into ["2020-03-03", "00:00", "-", ""]. */
  lemma ReportWords()
    ensures Split("2020-03-03 00:00 - ", ' ') == ["2020-03-03", "00:00", "-", ""]
  {
    ReportJoined();
    SplitJoin(["2020-03-03", "00:00", "-", ""], ' ');
  }

  /** The first item of the `parse_info` docstring, as literal texts. */
  lemma EntryWithoutSourceText()
    ensures ParseEntry(None, "2020-03-09 10:47 - En person i Värmland", "1")
      == Ok(InfectionLog(Some("Värmland"), Some(Date(2020, 3, 9)), 1))
  {
    DescriptionWords();
    EntryWithoutSource("2020-03-09 10:47 - En person i Värmland");
  }

  /** The second item of the `parse_info` docstring, as literal texts. */
  lemma EntryWithSourceText()
    ensures ParseEntry(Some("Person i Skåne som varit i norra Italien."), "2020-03-03 00:00 - ", "1")
      == Ok(InfectionLog(Some("Skåne"), Some(Date(2020, 3, 3)), 1))
  {
    SourceTextWords();
    ReportWords();
    SourceWithStop();
    EntryWithSource("Person i Skåne som varit i norra Italien", "2020-03-03 00:00 - ");
  }

  /** The source text is its words followed by a full stop. */
  lemma SourceWithStop()
    ensures "Person i Skåne som varit i norra Italien" + "." == "Person i Skåne som varit i norra Italien."
  {
  }
}
