/** `datetime.datetime.strptime(text, "%Y-%m-%d").date()`, with the failure
    (ValueError) turned into `None` as the date parser does. */
module PyDate {
  import opened Outcomes
  import opened PyStr

  /** A `datetime.date`. */
  datatype Date = Date(year: int, month: int, day: int)

  /** `datetime.MINYEAR` and `datetime.MAXYEAR`. */
  const MinYear: int := 1
  const MaxYear: int := 9999

  /** Leap years of the proleptic Gregorian calendar. */
  predicate IsLeapYear(y: int)
  {
    y % 4 == 0 && (y % 100 != 0 || y % 400 == 0)
  }

  function DaysInMonth(y: int, m: int): int
    requires 1 <= m <= 12
  {
    if m == 2 then (if IsLeapYear(y) then 29 else 28)
    else if m == 4 || m == 6 || m == 9 || m == 11 then 30
    else 31
  }

  /** The dates `datetime.date(year, month, day)` accepts. */
  predicate IsValidDate(d: Date)
  {
    && MinYear <= d.year <= MaxYear
    && 1 <= d.month <= 12
    && 1 <= d.day <= DaysInMonth(d.year, d.month)
  }

  /** The `%Y` directive, `\d\d\d\d`: exactly four digits. */
  function YearField(s: string): Option<int>
  {
    if |s| == 4 && IsDigit(s[0]) && IsDigit(s[1]) && IsDigit(s[2]) && IsDigit(s[3])
    then Some(1000 * DigitValue(s[0]) + 100 * DigitValue(s[1]) + 10 * DigitValue(s[2]) + DigitValue(s[3]))
    else None
  }

  /** The `%m` directive, `1[0-2]|0[1-9]|[1-9]`: a zero-padded or a
      one-digit month. */
  function MonthField(s: string): Option<int>
  {
    if |s| == 2 && s[0] == '1' && '0' <= s[1] <= '2' then Some(10 + DigitValue(s[1]))
    else if |s| == 2 && s[0] == '0' && '1' <= s[1] <= '9' then Some(DigitValue(s[1]))
    else if |s| == 1 && '1' <= s[0] <= '9' then Some(DigitValue(s[0]))
    else None
  }

  /** The `%d` directive, `3[01]|[12]\d|0[1-9]|[1-9]| [1-9]`: a zero-padded,
      one-digit or space-padded day. */
  function DayField(s: string): Option<int>
  {
    if |s| == 2 && s[0] == '3' && '0' <= s[1] <= '1' then Some(30 + DigitValue(s[1]))
    else if |s| == 2 && '1' <= s[0] <= '2' && IsDigit(s[1]) then Some(10 * DigitValue(s[0]) + DigitValue(s[1]))
    else if |s| == 2 && (s[0] == '0' || s[0] == ' ') && '1' <= s[1] <= '9' then Some(DigitValue(s[1]))
    else if |s| == 1 && '1' <= s[0] <= '9' then Some(DigitValue(s[0]))
    else None
  }

  /** The whole text must match year, hyphen, month, hyphen, day (none of the
      three fields holds a hyphen), and the three numbers must form a real
      date; anything else is a ValueError, here `None`. */
  function StrptimeYmd(s: string): (r: Option<Date>)
    ensures r.Some? ==> IsValidDate(r.value)
  {
    var parts := Split(s, '-');
    if |parts| != 3 then None
    else
      match (YearField(parts[0]), MonthField(parts[1]), DayField(parts[2]))
      case (Some(y), Some(m), Some(d)) =>
        if IsValidDate(Date(y, m, d)) then Some(Date(y, m, d)) else None
      case _ => None
  }

  // ---------------------------------------------------------------------
  // Reference definition: the ways a date can be written in this format.

  /** A year written with exactly four digits. */
  function Year4(y: int): (s: string)
    requires 0 <= y <= 9999
    ensures |s| == 4
  {
    [Digit(y / 1000), Digit(y / 100 % 10), Digit(y / 10 % 10), Digit(y % 10)]
  }

  /** A month written with one digit or padded to two. */
  function MonthSpellings(m: int): set<string>
  {
    if 1 <= m <= 9 then {[Digit(m)], ['0', Digit(m)]}
    else if 10 <= m <= 12 then {['1', Digit(m - 10)]}
    else {}
  }

  /** A day written with one digit, or padded to two with a zero or a space. */
  function DaySpellings(d: int): set<string>
  {
    if 1 <= d <= 9 then {[Digit(d)], ['0', Digit(d)], [' ', Digit(d)]}
    else if 10 <= d <= 31 then {[Digit(d / 10), Digit(d % 10)]}
    else {}
  }

  /** `s` writes the date `d` in the `%Y-%m-%d` format. */
  ghost predicate SpellsDate(s: string, d: Date)
  {
    && 0 <= d.year <= 9999
    && exists ms, ds :: ms in MonthSpellings(d.month) && ds in DaySpellings(d.day)
         && s == Year4(d.year) + "-" + ms + "-" + ds
  }

  /** The zero-padded ISO form, `date.isoformat()`. */
  function IsoFormat(d: Date): string
    requires IsValidDate(d)
  {
    Year4(d.year) + "-" + (if d.month < 10 then ['0', Digit(d.month)] else ['1', Digit(d.month - 10)])
      + "-" + [Digit(d.day / 10), Digit(d.day % 10)]
  }

  // ---------------------------------------------------------------------
  // Each field parser accepts exactly the spellings of the number it returns.

  lemma YearFieldIff(s: string, y: int)
    ensures YearField(s) == Some(y) <==> 0 <= y <= 9999 && s == Year4(y)
  {
    if YearField(s) == Some(y) {
      DigitOfValue();
      YearDigits(DigitValue(s[0]), DigitValue(s[1]), DigitValue(s[2]), DigitValue(s[3]));
      assert s == [s[0], s[1], s[2], s[3]];
    }
    if 0 <= y <= 9999 && s == Year4(y) {
      YearValue(y);
    }
  }

  /** The four digits of a year below 10000. */
  lemma YearDigits(a: nat, b: nat, c: nat, d: nat)
    requires a <= 9 && b <= 9 && c <= 9 && d <= 9
    ensures var y := 1000 * a + 100 * b + 10 * c + d;
      y / 1000 == a && y / 100 % 10 == b && y / 10 % 10 == c && y % 10 == d
  {
    var y := 1000 * a + 100 * b + 10 * c + d;
    assert y / 10 == 100 * a + 10 * b + c;
    assert y / 100 == 10 * a + b;
  }

  lemma YearValue(y: int)
    requires 0 <= y <= 9999
    ensures 1000 * (y / 1000) + 100 * (y / 100 % 10) + 10 * (y / 10 % 10) + y % 10 == y
  {
    var q := y / 10;
    assert y == 10 * q + y % 10;
    var p := q / 10;
    assert q == 10 * p + q % 10;
    assert y / 100 == p;
    assert y / 1000 == p / 10;
    assert p == 10 * (p / 10) + p % 10;
  }

  lemma MonthFieldIff(s: string, m: int)
    ensures MonthField(s) == Some(m) <==> s in MonthSpellings(m)
  {
    DigitOfValue();
    if |s| == 2 { assert s == [s[0], s[1]]; }
    if |s| == 1 { assert s == [s[0]]; }
  }

  lemma DayFieldIff(s: string, d: int)
    ensures DayField(s) == Some(d) <==> s in DaySpellings(d)
  {
    DigitOfValue();
    if |s| == 2 { assert s == [s[0], s[1]]; }
    if |s| == 1 { assert s == [s[0]]; }
  }

  /** A text with exactly two hyphens is its three pieces joined by them. */
  lemma SplitThree(x: string, y: string, z: string)
    requires '-' !in x && '-' !in y && '-' !in z
    ensures Split(x + "-" + y + "-" + z, '-') == [x, y, z]
  {
    SplitAround(x + "-" + y, z, '-');
    SplitAround(x, y, '-');
    SplitNoSep(x, '-');
    SplitNoSep(y, '-');
    SplitNoSep(z, '-');
  }

  /** Whatever `strptime` accepts writes a valid date, the one it returns. */
  lemma StrptimeYmdSound(s: string)
    ensures StrptimeYmd(s).Some? ==> SpellsDate(s, StrptimeYmd(s).value)
  {
    if StrptimeYmd(s).Some? {
      var d := StrptimeYmd(s).value;
      var parts := Split(s, '-');
      JoinSplit(s, '-');
      assert parts[1..][1..] == [parts[2]];
      assert Join(parts[1..], '-') == parts[1] + "-" + parts[2];
      assert s == parts[0] + "-" + parts[1] + "-" + parts[2];
      YearFieldIff(parts[0], d.year);
      MonthFieldIff(parts[1], d.month);
      DayFieldIff(parts[2], d.day);
    }
  }

  /** Every written form of a valid date is accepted, as that date. */
  lemma StrptimeYmdComplete(s: string, d: Date)
    requires IsValidDate(d) && SpellsDate(s, d)
    ensures StrptimeYmd(s) == Some(d)
  {
    var ms, ds :| ms in MonthSpellings(d.month) && ds in DaySpellings(d.day)
      && s == Year4(d.year) + "-" + ms + "-" + ds;
    var y := Year4(d.year);
    MonthFieldIff(ms, d.month);
    DayFieldIff(ds, d.day);
    YearFieldIff(y, d.year);
    SplitThree(y, ms, ds);
  }

  /** What `strptime` accepts is exactly the written forms of valid dates, and
      it returns the date written. */
  lemma StrptimeYmdIff(s: string, d: Date)
    ensures StrptimeYmd(s) == Some(d) <==> IsValidDate(d) && SpellsDate(s, d)
  {
    StrptimeYmdSound(s);
    if IsValidDate(d) && SpellsDate(s, d) {
      StrptimeYmdComplete(s, d);
    }
  }

  /** The zero-padded ISO form of any valid date parses back to it. */
  lemma StrptimeIsoFormat(d: Date)
    requires IsValidDate(d)
    ensures StrptimeYmd(IsoFormat(d)) == Some(d)
  {
    var ms := if d.month < 10 then ['0', Digit(d.month)] else ['1', Digit(d.month - 10)];
    var ds := [Digit(d.day / 10), Digit(d.day % 10)];
    assert ms in MonthSpellings(d.month);
    assert ds in DaySpellings(d.day);
    StrptimeYmdIff(IsoFormat(d), d);
  }
}
