/** Python's `int(text)` in base 10. */
module PyInt {
  import opened Outcomes
  import opened PyStr

  /** The white space `int()` skips around its digits. Below U+007F this is
      only the C-locale set (tab, line feed, vertical tab, form feed, carriage
      return and space): unlike `str.isspace()`, it leaves out the separators
      U+001C to U+001F. From U+007F up, `int()` first turns every Unicode
      white-space character into a space, so those all count. */
  predicate IsSpace(c: char)
    ensures '\U{1C}' <= c <= '\U{1F}' ==> !IsSpace(c)
  {
    ('\t' <= c <= '\r') || c == ' '
    || c == '\U{85}' || c == '\U{A0}' || c == '\U{1680}'
    || ('\U{2000}' <= c <= '\U{200A}') || c == '\U{2028}' || c == '\U{2029}'
    || c == '\U{202F}' || c == '\U{205F}' || c == '\U{3000}'
  }

  /** `s` with the leading white space that `int()` skips removed. */
  function TrimStart(s: string): (t: string)
    ensures |t| <= |s| && t == s[|s| - |t|..]
    ensures forall k :: 0 <= k < |s| - |t| ==> IsSpace(s[k])
    ensures |t| > 0 ==> !IsSpace(t[0])
    decreases |s|
  {
    if |s| > 0 && IsSpace(s[0]) then TrimStart(s[1..]) else s
  }

  /** `s` with the trailing white space that `int()` skips removed. */
  function TrimEnd(s: string): (t: string)
    ensures |t| <= |s| && t == s[..|t|]
    ensures forall k :: |t| <= k < |s| ==> IsSpace(s[k])
    ensures |t| > 0 ==> !IsSpace(t[|t| - 1])
    decreases |s|
  {
    if |s| > 0 && IsSpace(s[|s| - 1]) then TrimEnd(s[..|s| - 1]) else s
  }

  /** Only digits and underscores. */
  predicate DigitsOrUnderscores(s: string)
  {
    forall k :: 0 <= k < |s| ==> IsDigit(s[k]) || s[k] == '_'
  }

  /** The same, stated of the characters. */
  lemma DigitsOrUnderscoresChars(s: string)
    requires DigitsOrUnderscores(s)
    ensures forall c :: c in s ==> IsDigit(c) || c == '_'
  {
    forall c | c in s ensures IsDigit(c) || c == '_' {
      var k :| 0 <= k < |s| && s[k] == c;
    }
  }

  /** No underscore directly follows another. */
  predicate NoDoubledUnderscore(s: string)
  {
    |s| < 2 || (!(s[0] == '_' && s[1] == '_') && NoDoubledUnderscore(s[1..]))
  }

  /** A text of digits alone has no underscores to double. */
  lemma {:induction false} AllDigitsNoDoubledUnderscore(s: string)
    requires forall k :: 0 <= k < |s| ==> IsDigit(s[k])
    ensures NoDoubledUnderscore(s)
    decreases |s|
  {
    if |s| >= 2 {
      AllDigitsNoDoubledUnderscore(s[1..]);
    }
  }

  /** A run of decimal digits in which single underscores may separate two
      digits, as Python integer literals allow ("1_000"). */
  predicate IsDigitGroup(s: string)
  {
    && |s| > 0
    && IsDigit(s[0]) && IsDigit(s[|s| - 1])
    && DigitsOrUnderscores(s)
    && NoDoubledUnderscore(s)
  }

  /** The decimal value of digits and underscores, the underscores ignored. */
  function DecimalValue(s: string): nat
    requires DigitsOrUnderscores(s)
    decreases |s|
  {
    if |s| == 0 then 0
    else if s[|s| - 1] == '_' then DecimalValue(s[..|s| - 1])
    else 10 * DecimalValue(s[..|s| - 1]) + DigitValue(s[|s| - 1])
  }

  /** `int(s)`: surrounding white space, an optional sign, then a digit group;
      anything else raises ValueError. */
  function ParseInt(s: string): (r: Result<int>)
    ensures r.Err? ==> r.error == ValueError
    ensures r.Ok? ==> exists c :: c in s && IsDigit(c)
    ensures r.Ok? ==> forall c :: c in s ==> IsSpace(c) || IsDigit(c) || c in "_+-"
    ensures r.Ok? && r.value < 0 ==> '-' in s
  {
    TrimInside(s);
    ParseSigned(TrimEnd(TrimStart(s)))
  }

  /** The text left once the white space is stripped: an optional sign, then
      a digit group. */
  function ParseSigned(t: string): (r: Result<int>)
    ensures r.Err? ==> r.error == ValueError
    ensures r.Ok? ==> exists c :: c in t && IsDigit(c)
    ensures r.Ok? ==> forall c :: c in t ==> IsDigit(c) || c in "_+-"
    ensures r.Ok? && r.value < 0 ==> '-' in t
  {
    if |t| > 0 && (t[0] == '+' || t[0] == '-') then
      var body := t[1..];
      if IsDigitGroup(body) then
        assert body[0] in t;
        assert t == [t[0]] + body;
        DigitsOrUnderscoresChars(body);
        var v: int := DecimalValue(body);
        Ok(if t[0] == '-' then -v else v)
      else Err(ValueError)
    else if IsDigitGroup(t) then
      DigitsOrUnderscoresChars(t);
      Ok(DecimalValue(t))
    else Err(ValueError)
  }

  /** Trimming keeps characters of `s`, and drops only white space. */
  lemma TrimInside(s: string)
    ensures forall c :: c in TrimEnd(TrimStart(s)) ==> c in s
    ensures forall c :: c in s ==> IsSpace(c) || c in TrimEnd(TrimStart(s))
  {
    var u := TrimStart(s);
    var t := TrimEnd(u);
    var lead := |s| - |u|;
    forall k | 0 <= k < |s| && !IsSpace(s[k])
      ensures s[k] in t
    {
      assert u == s[lead..];
      assert lead <= k;
      assert u[k - lead] == s[k];
      assert k - lead < |t|;
      assert t[k - lead] == s[k];
    }
  }

  /** The decimal digits of a natural number, most significant first. */
  function NatToString(n: nat): (s: string)
    ensures |s| > 0 && forall k :: 0 <= k < |s| ==> IsDigit(s[k])
    decreases n
  {
    if n < 10 then [Digit(n)] else NatToString(n / 10) + [Digit(n % 10)]
  }

  /** `str(n)`: an integer in base 10, with a minus sign when negative. */
  function IntToString(n: int): string
  {
    if n < 0 then "-" + NatToString(-n) else NatToString(n)
  }

  /** The digits of a number read back as that number. */
  lemma {:induction false} DecimalValueOfNatToString(n: nat)
    ensures IsDigitGroup(NatToString(n))
    ensures DecimalValue(NatToString(n)) == n
    decreases n
  {
    var s := NatToString(n);
    if n >= 10 {
      DecimalValueOfNatToString(n / 10);
      assert s[..|s| - 1] == NatToString(n / 10);
    }
    AllDigitsNoDoubledUnderscore(s);
  }

  /** `int(str(n)) == n` for every integer. */
  lemma IntRoundTrip(n: int)
    ensures ParseInt(IntToString(n)) == Ok(n)
  {
    var s := IntToString(n);
    var m: nat := if n < 0 then -n else n;
    var d := NatToString(m);
    var sign := if n < 0 then "-" else "";
    DecimalValueOfNatToString(m);
    assert s == "" + sign + d + "";
    assert IntLiteralOf("", sign, d, "", n);
    ParseIntIff(s, n);
  }

  /** Stripping removes exactly the white space around a text that neither
      starts nor ends with white space. */
  lemma TrimAround(pre: string, s: string, post: string)
    requires forall k :: 0 <= k < |pre| ==> IsSpace(pre[k])
    requires forall k :: 0 <= k < |post| ==> IsSpace(post[k])
    requires |s| > 0 && !IsSpace(s[0]) && !IsSpace(s[|s| - 1])
    ensures TrimEnd(TrimStart(pre + s + post)) == s
  {
    var x := s + post;
    assert pre + s + post == pre + x;
    TrimStartSpaces(pre, x);
    TrimEndSpaces(s, post);
  }

  /** `lstrip` removes a prefix of white space and stops at the first other
      character. */
  lemma {:induction false} TrimStartSpaces(pre: string, x: string)
    requires forall k :: 0 <= k < |pre| ==> IsSpace(pre[k])
    requires |x| > 0 && !IsSpace(x[0])
    ensures TrimStart(pre + x) == x
    decreases |pre|
  {
    if |pre| > 0 {
      assert (pre + x)[1..] == pre[1..] + x;
      TrimStartSpaces(pre[1..], x);
    } else {
      assert pre + x == x;
    }
  }

  /** `rstrip` removes a suffix of white space and stops at the last other
      character. */
  lemma {:induction false} TrimEndSpaces(x: string, post: string)
    requires forall k :: 0 <= k < |post| ==> IsSpace(post[k])
    requires |x| > 0 && !IsSpace(x[|x| - 1])
    ensures TrimEnd(x + post) == x
    decreases |post|
  {
    if |post| > 0 {
      var post' := post[..|post| - 1];
      assert (x + post)[..|x + post| - 1] == x + post';
      TrimEndSpaces(x, post');
    } else {
      assert x + post == x;
    }
  }

  // ---------------------------------------------------------------------
  // The texts `int()` accepts, described independently of the parser.

  /** Every character of `s` is white space. */
  predicate AllSpace(s: string)
  {
    forall k :: 0 <= k < |s| ==> IsSpace(s[k])
  }

  /** The value of a digit group under a sign text: `""`, `"+"` or `"-"`. */
  function SignedValue(sign: string, digits: string): int
    requires DigitsOrUnderscores(digits)
  {
    var v: int := DecimalValue(digits);
    if sign == "-" then -v else v
  }

  /** White space `pre`, at most one sign character `sign`, a digit group
      `digits` whose value under that sign is `n`, and white space `post`. */
  predicate IntLiteralOf(pre: string, sign: string, digits: string, post: string, n: int)
  {
    && AllSpace(pre) && AllSpace(post)
    && (sign == "" || sign == "+" || sign == "-")
    && IsDigitGroup(digits)
    && n == SignedValue(sign, digits)
  }

  /** `s` is a base-10 integer literal with value `n`, as `int()` reads it. */
  ghost predicate IsIntLiteral(s: string, n: int)
  {
    exists pre, sign, digits, post ::
      s == pre + sign + digits + post && IntLiteralOf(pre, sign, digits, post, n)
  }

  /** `int(s)` returns `n` exactly for the literals of `n`. */
  lemma ParseIntIff(s: string, n: int)
    ensures ParseInt(s) == Ok(n) <==> IsIntLiteral(s, n)
  {
    assert ParseInt(s) == ParseSigned(TrimEnd(TrimStart(s)));
    if ParseInt(s) == Ok(n) {
      ParseIntSound(s, n);
    }
    if IsIntLiteral(s, n) {
      var pre, sign, digits, post :|
        s == pre + sign + digits + post && IntLiteralOf(pre, sign, digits, post, n);
      ParseIntComplete(pre, sign, digits, post, n);
    }
  }

  /** What `int()` accepts is a literal of the value it returns. */
  lemma ParseIntSound(s: string, n: int)
    requires ParseSigned(TrimEnd(TrimStart(s))) == Ok(n)
    ensures IsIntLiteral(s, n)
  {
    var pre, post := TrimPieces(s);
    LiteralOfPieces(s, pre, TrimEnd(TrimStart(s)), post, n);
  }

  /** White space around a text that `ParseSigned` accepts makes a literal. */
  lemma LiteralOfPieces(s: string, pre: string, t: string, post: string, n: int)
    requires s == pre + t + post && AllSpace(pre) && AllSpace(post)
    requires ParseSigned(t) == Ok(n)
    ensures IsIntLiteral(s, n)
  {
    var j := ParseSignedSound(t, n);
    var sign, digits := t[..j], t[j..];
    assert t == sign + digits;
    Regroup(pre, sign, digits);
    assert s == pre + sign + digits + post;
    assert IntLiteralOf(pre, sign, digits, post, n);
  }

  /** Stripping cuts a text into leading white space, the stripped text and
      trailing white space. */
  lemma TrimPieces(s: string) returns (pre: string, post: string)
    ensures s == pre + TrimEnd(TrimStart(s)) + post
    ensures AllSpace(pre) && AllSpace(post)
  {
    var u := TrimStart(s);
    pre := LeadingSpace(s);
    post := TrailingSpace(u);
    Regroup(pre, TrimEnd(u), post);
  }

  /** Concatenation regrouped. */
  lemma Regroup(a: string, b: string, c: string)
    ensures a + (b + c) == a + b + c
  {
  }

  /** `lstrip` removes a prefix of white space. */
  lemma LeadingSpace(s: string) returns (pre: string)
    ensures s == pre + TrimStart(s) && AllSpace(pre)
  {
    pre := s[..|s| - |TrimStart(s)|];
  }

  /** `rstrip` removes a suffix of white space. */
  lemma TrailingSpace(u: string) returns (post: string)
    ensures u == TrimEnd(u) + post && AllSpace(post)
  {
    var t := TrimEnd(u);
    post := u[|t|..];
    assert u == t + post;
    forall m | 0 <= m < |post| ensures IsSpace(post[m]) {
      assert post[m] == u[|t| + m];
    }
  }

  /** The stripped text that `ParseSigned` accepts is an optional sign
      `t[..j]` followed by a digit group of the value returned. */
  lemma ParseSignedSound(t: string, n: int) returns (j: nat)
    requires ParseSigned(t) == Ok(n)
    ensures j <= |t| && (t[..j] == "" || t[..j] == "+" || t[..j] == "-")
    ensures IsDigitGroup(t[j..]) && n == SignedValue(t[..j], t[j..])
  {
    if |t| > 0 && (t[0] == '+' || t[0] == '-') {
      j := 1;
      assert t[..1] == [t[0]];
    } else {
      j := 0;
      assert t[..0] == "" && t[0..] == t;
    }
  }

  /** Every literal is accepted, with its value. */
  lemma ParseIntComplete(pre: string, sign: string, digits: string, post: string, n: int)
    requires IntLiteralOf(pre, sign, digits, post, n)
    ensures ParseSigned(TrimEnd(TrimStart(pre + sign + digits + post))) == Ok(n)
  {
    var mid := sign + digits;
    assert pre + sign + digits + post == pre + mid + post;
    assert mid[|mid| - 1] == digits[|digits| - 1];
    TrimAround(pre, mid, post);
    ParseSignedComplete(sign, digits, n);
  }

  /** An optional sign followed by a digit group is accepted by
      `ParseSigned`, with its value. */
  lemma ParseSignedComplete(sign: string, digits: string, n: int)
    requires sign == "" || sign == "+" || sign == "-"
    requires IsDigitGroup(digits) && n == SignedValue(sign, digits)
    ensures ParseSigned(sign + digits) == Ok(n)
  {
    var t := sign + digits;
    DigitsOrUnderscoresChars(digits);
    if sign == "" {
      assert t == digits;
      assert !(t[0] == '+' || t[0] == '-');
      assert ParseSigned(t) == Ok(DecimalValue(digits));
    } else {
      assert t[1..] == digits && t[0] == sign[0];
      assert sign == [t[0]];
      var v: int := DecimalValue(digits);
      assert ParseSigned(t) == Ok(if t[0] == '-' then -v else v);
    }
  }

  /** White space around the digits does not change what `int()` returns. */
  lemma ParseIntIgnoresSpace(pre: string, s: string, post: string)
    requires forall k :: 0 <= k < |pre| ==> IsSpace(pre[k])
    requires forall k :: 0 <= k < |post| ==> IsSpace(post[k])
    requires |s| > 0 && !IsSpace(s[0]) && !IsSpace(s[|s| - 1])
    ensures ParseInt(pre + s + post) == ParseInt(s)
  {
    TrimAround(pre, s, post);
    TrimAround([], s, []);
    assert [] + s + [] == s;
  }
}
