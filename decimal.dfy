/** Python's `float(s)` on decimal text, with exact rational results instead of IEEE-754
    doubles. */
module Decimal {
  import opened Wrappers
  import opened PyStrings

  function DigitValue(c: char): nat
    requires IsDigit(c)
  {
    (c - '0') as nat
  }

  /** The natural number written by a string of decimal digits (0 for the empty string). */
  function DigitsValue(ds: string): nat
    requires AllDigits(ds)
  {
    if ds == [] then 0 else 10 * DigitsValue(ds[..|ds| - 1]) + DigitValue(ds[|ds| - 1])
  }

  /** Whether `s` starts with a minus sign. */
  predicate Negative(s: string) { s != [] && s[0] == '-' }

  /** `s` without its sign, if it has one. */
  function Unsigned(s: string): string {
    if s != [] && (s[0] == '+' || s[0] == '-') then s[1..] else s
  }

  /** The digits before the first `.` of an unsigned number. */
  function WholeDigits(body: string): string {
    body[..IndexOf(body, '.')]
  }

  /** The text after the first `.` of an unsigned number (empty when there is no `.`). */
  function FracDigits(body: string): string {
    var dot := IndexOf(body, '.');
    if dot < |body| then body[dot + 1..] else []
  }

  /** Whether `s` is an optional sign followed by digits holding at most one `.`, with at least
      one digit. This is the part of Python's float syntax the scrapers meet. */
  predicate IsDecimalText(s: string) {
    var body := Unsigned(s);
    AllDigits(WholeDigits(body)) && AllDigits(FracDigits(body))
    && |WholeDigits(body)| + |FracDigits(body)| > 0
  }

  /** A decimal text holds at least one digit. */
  lemma DecimalTextHasDigit(s: string)
    requires IsDecimalText(s)
    ensures exists i :: 0 <= i < |s| && IsDigit(s[i])
  {
    var body := Unsigned(s);
    var dot := IndexOf(body, '.');
    assert body == s || body == s[1..];
    if dot > 0 {
      assert IsDigit(WholeDigits(body)[0]) && body[0] == WholeDigits(body)[0];
      assert body[0] in s;
    } else {
      assert IsDigit(FracDigits(body)[0]) && body[dot + 1] == FracDigits(body)[0];
      assert body[dot + 1] in s;
    }
  }

  /** The exact value written by a decimal text. */
  function DecimalValue(s: string): real
    requires IsDecimalText(s)
  {
    var body := Unsigned(s);
    var mag := DigitsValue(WholeDigits(body)) as real + Fraction(FracDigits(body));
    if Negative(s) then -mag else mag
  }

  /** The value of the digits after a decimal point: "25" stands for 2/10 + 5/100. */
  function Fraction(ds: string): real
    requires AllDigits(ds)
  {
    FractionFrom(ds, 0)
  }

  /** The value of `ds[i..]` read as the digits after a decimal point. */
  function FractionFrom(ds: string, i: nat): real
    requires AllDigits(ds) && i <= |ds|
    decreases |ds| - i
  {
    if i == |ds| then 0.0 else (DigitValue(ds[i]) as real + FractionFrom(ds, i + 1)) / 10.0
  }

  /** `float(s)`: surrounding whitespace is ignored; the text must then be a decimal number
      (`IsDecimalText`), otherwise Python raises ValueError (here `None`). */
  function ParseFloat(s: string): (r: Option<real>)
    ensures r.Some? <==> IsDecimalText(Strip(s))
  {
    var t := Strip(s);
    if IsDecimalText(t) then Some(DecimalValue(t)) else None
  }

  /** Python's `float(s)` on a str. */
  function Float(s: string): (r: Result<real>)
    ensures r.Ok? <==> IsDecimalText(Strip(s))
    ensures r.Err? ==> r.error == ValueError
    ensures r.Ok? ==> ParseFloat(s) == Some(r.value)
  {
    match ParseFloat(s)
    case Some(x) => Ok(x)
    case None => Err(ValueError)
  }

  /** A character the 'decimal' codec of `float(u)` refuses: NUL, or a character beyond
      Latin-1 that is not Unicode whitespace. (Decimal digits of other scripts, which the codec
      maps to ASCII ones, are counted among these.) */
  predicate Unencodable(c: char) {
    c == 0 as char || (c >= 256 as char && !IsUnicodeSpace(c))
  }

  /** Whether `s` holds a character the 'decimal' codec refuses. */
  predicate Refused(s: string) {
    exists i :: 0 <= i < |s| && Unencodable(s[i])
  }

  /** Deleting ASCII characters other than NUL neither adds nor removes a refused character. */
  lemma RefusedDeleting(s: string, cs: set<char>)
    requires forall c :: c in cs ==> 0 as char < c < 128 as char
    ensures Refused(DeleteChars(s, cs)) <==> Refused(s)
  {
    var t := DeleteChars(s, cs);
    DeleteCharsMembers(s, cs);
    if Refused(s) {
      var i :| 0 <= i < |s| && Unencodable(s[i]);
      assert s[i] in t;
    }
    if Refused(t) {
      var i :| 0 <= i < |t| && Unencodable(t[i]);
      assert t[i] in s;
    }
  }

  /** The text the 'decimal' codec hands to the number parser: every Unicode whitespace
      character becomes a space. */
  function Blanked(s: string): (r: string)
    ensures |r| == |s|
    ensures forall i :: 0 <= i < |s| ==> r[i] == if IsUnicodeSpace(s[i]) then ' ' else s[i]
  {
    seq(|s|, i requires 0 <= i < |s| => if IsUnicodeSpace(s[i]) then ' ' else s[i])
  }

  /** The 'decimal' codec `float(u)` runs first (`PyUnicode_EncodeDecimal`), character by
      character: Unicode whitespace becomes a space, any other character of Latin-1 but NUL is
      kept as the byte of its code, and any other character makes it fail. */
  function EncodeDecimal(s: string): (r: Option<string>)
    decreases |s|
  {
    if s == [] then Some([])
    else if Unencodable(s[0]) then None
    else
      match EncodeDecimal(s[1..])
      case None => None
      case Some(rest) => Some([if IsUnicodeSpace(s[0]) then ' ' else s[0]] + rest)
  }

  /** The codec fails exactly on text holding a refused character, and otherwise gives the
      text with its Unicode whitespace blanked. */
  lemma {:induction false} EncodeDecimalSpec(s: string)
    ensures EncodeDecimal(s).None? <==> Refused(s)
    ensures EncodeDecimal(s).Some? ==> EncodeDecimal(s).value == Blanked(s)
    decreases |s|
  {
    if s != [] {
      EncodeDecimalSpec(s[1..]);
      if Refused(s[1..]) {
        var i :| 0 <= i < |s[1..]| && Unencodable(s[1..][i]);
        assert Unencodable(s[i + 1]);
      }
      if Refused(s) && !Unencodable(s[0]) {
        var i :| 0 <= i < |s| && Unencodable(s[i]);
        assert Unencodable(s[1..][i - 1]);
      }
      if EncodeDecimal(s).Some? {
        assert Blanked(s) == [if IsUnicodeSpace(s[0]) then ' ' else s[0]] + Blanked(s[1..]);
      }
    }
  }

  /** Python 2's `float(u)` on unicode text (what `Tag.text` gives): a character the 'decimal'
      codec cannot encode raises UnicodeEncodeError; otherwise the encoded text is read as by
      `float` on a str. */
  function UnicodeFloat(s: string): (r: Result<real>)
    ensures r.Err? ==> r.error in {ValueError, UnicodeEncodeError}
  {
    match EncodeDecimal(s)
    case None => Err(UnicodeEncodeError)
    case Some(b) => Float(b)
  }

  /** `float(u)` raises UnicodeEncodeError exactly on text holding a refused character. */
  lemma UnicodeFloatRefused(s: string)
    ensures UnicodeFloat(s) == Err(UnicodeEncodeError) <==> Refused(s)
  {
    EncodeDecimalSpec(s);
  }

  /** `float(u)` accepts a text exactly when it holds no refused character and, with its
      Unicode whitespace blanked and stripped, is a decimal numeral; it then gives that
      numeral's value. */
  lemma UnicodeFloatValue(s: string)
    ensures UnicodeFloat(s).Ok? <==> !Refused(s) && IsDecimalText(Strip(Blanked(s)))
    ensures UnicodeFloat(s).Ok? ==> UnicodeFloat(s).value == DecimalValue(Strip(Blanked(s)))
  {
    EncodeDecimalSpec(s);
  }

  /** On ASCII text without whitespace or NUL, `float(u)` reads exactly what `float` reads
      from the same text as a str. */
  lemma UnicodeFloatOfAscii(s: string)
    requires forall i :: 0 <= i < |s| ==> 0 as char < s[i] < 128 as char && !IsUnicodeSpace(s[i])
    ensures UnicodeFloat(s) == Float(s)
  {
    EncodeDecimalSpec(s);
    assert Blanked(s) == s;
  }

  /** On a string of digits `float(u)` and `float` agree. */
  lemma UnicodeFloatOfDigits(ds: string)
    requires AllDigits(ds)
    ensures UnicodeFloat(ds) == Float(ds)
  {
    forall i | 0 <= i < |ds| ensures 0 as char < ds[i] < 128 as char && !IsUnicodeSpace(ds[i]) {
      assert IsDigit(ds[i]);
    }
    UnicodeFloatOfAscii(ds);
  }

  /** `float(u)` reads a numeral back as the number it writes. */
  lemma UnicodeFloatRoundTrip(n: nat)
    ensures UnicodeFloat(NatToString(n)) == Ok(n as real)
  {
    ParseFloatRoundTrip(n);
    UnicodeFloatOfDigits(NatToString(n));
  }

  /** `float(u)` reads a string of digits as the number they write. */
  lemma UnicodeFloatNumeral(ds: string)
    requires ds != [] && AllDigits(ds)
    ensures UnicodeFloat(ds) == Ok(DigitsValue(ds) as real)
  {
    ParseNumeral(ds, DigitsValue(ds));
    UnicodeFloatOfDigits(ds);
  }

  /** A no-break space after a numeral is whitespace to `float(u)`, while `float` on a str
      refuses it. */
  lemma UnicodeFloatNoBreakSpace()
    ensures UnicodeFloat("25" + [0xA0 as char]) == Ok(25.0)
    ensures Float("25" + [0xA0 as char]) == Err(ValueError)
  {
    var s := "25" + [0xA0 as char];
    EncodeDecimalSpec(s);
    assert Blanked(s) == "25 ";
    assert SkipSpaces("25 ", 0) == 0;
    assert BackSpaces("25 ", 0, 3) == 2;
    assert Strip("25 ") == "25";
    assert SkipSpaces(s, 0) == 0 && BackSpaces(s, 0, 3) == 3;
    assert Strip(s) == s;
    assert IndexOf("25", '.') == 2;
    assert WholeDigits("25") == "25";
    assert DigitsValue("25") == 25;
    assert IndexOf(s, '.') == 3;
    assert WholeDigits(s) == s && !IsDigit(s[2]);
  }

  /** A Latin-1 letter passes the codec as a byte, which the number parser then refuses:
      `float(u"25\xe9")` raises ValueError, not UnicodeEncodeError. */
  lemma UnicodeFloatLatin1()
    ensures !Refused("25" + [0xE9 as char])
    ensures UnicodeFloat("25" + [0xE9 as char]) == Err(ValueError)
  {
    var s := "25" + [0xE9 as char];
    EncodeDecimalSpec(s);
    assert !IsUnicodeSpace(s[2]);
    assert Blanked(s) == s;
    assert SkipSpaces(s, 0) == 0 && BackSpaces(s, 0, 3) == 3;
    assert Strip(s) == s;
    assert IndexOf(s, '.') == 3;
    assert WholeDigits(s) == s && !IsDigit(s[2]);
  }

  /** The decimal numeral of a natural number, most significant digit first. */
  function NatToString(n: nat): (s: string)
    ensures s != [] && AllDigits(s)
    decreases n
  {
    if n < 10 then [('0' as int + n) as char] else NatToString(n / 10) + [('0' as int + n % 10) as char]
  }

  /** Writing a natural number in decimal and reading the digits back gives the number. */
  lemma {:induction false} DigitsRoundTrip(n: nat)
    ensures DigitsValue(NatToString(n)) == n
    decreases n
  {
    var s := NatToString(n);
    if n >= 10 {
      DigitsRoundTrip(n / 10);
      assert s[..|s| - 1] == NatToString(n / 10);
    }
  }

  /** `float(str(n))` is `n`, and `float("-" + str(n))` is `-n`. */
  lemma ParseFloatRoundTrip(n: nat)
    ensures ParseFloat(NatToString(n)) == Some(n as real)
    ensures ParseFloat("-" + NatToString(n)) == Some(-(n as real))
  {
    DigitsRoundTrip(n);
    ParseNumeral(NatToString(n), n);
    ParseNegatedNumeral(NatToString(n), n);
  }

  lemma ParseNumeral(s: string, n: nat)
    requires s != [] && AllDigits(s) && DigitsValue(s) == n
    ensures ParseFloat(s) == Some(n as real)
  {
    ParseDigits(false, s, s, n);
  }

  lemma ParseNegatedNumeral(s: string, n: nat)
    requires s != [] && AllDigits(s) && DigitsValue(s) == n
    ensures ParseFloat("-" + s) == Some(-(n as real))
  {
    ParseDigits(true, s, "-" + s, n);
  }

  lemma ParseDigits(neg: bool, s: string, t: string, n: nat)
    requires s != [] && AllDigits(s) && DigitsValue(s) == n && t == if neg then "-" + s else s
    ensures ParseFloat(t) == Some(if neg then -(n as real) else n as real)
  {
    SignedDigitsShape(neg, s, t);
    NoDotNoSpace(s);
    SignedDigitsValue(neg, s, t);
    assert Strip(t) == t;
  }

  lemma SignedDigitsShape(neg: bool, s: string, t: string)
    requires s != [] && AllDigits(s) && t == if neg then "-" + s else s
    ensures Strip(t) == t && Unsigned(t) == s && Negative(t) == neg
  {
    var first, last := s[0], s[|s| - 1];
    assert IsDigit(first) && IsDigit(last);
    assert t[|t| - 1] == last;
    if neg {
      assert t[0] == '-' && t[1..] == s;
    } else {
      assert t[0] == first;
    }
  }

  lemma SignedDigitsValue(neg: bool, s: string, t: string)
    requires s != [] && AllDigits(s)
    requires Unsigned(t) == s && Negative(t) == neg
    requires WholeDigits(s) == s && FracDigits(s) == []
    ensures IsDecimalText(t)
    ensures DecimalValue(t) == if neg then -(DigitsValue(s) as real) else DigitsValue(s) as real
  {
    assert Fraction([]) == 0.0;
  }

  lemma NoDotNoSpace(s: string)
    requires s != [] && AllDigits(s)
    ensures WholeDigits(s) == s && FracDigits(s) == []
  {
    assert IsDigit(s[0]) && IsDigit(s[|s| - 1]);
  }
}
