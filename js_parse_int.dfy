/** `Number.parseInt(text)` with no radix, as ECMAScript defines it (section
    19.2.5 of ECMA-262): leading white space and line terminators are skipped,
    one sign is read, a `0x`/`0X` prefix selects base 16 (base 10 otherwise),
    and the longest run of digits of that base is read. No digit gives NaN,
    modelled as `None`. The text "undefined" (a missing query parameter) has no
    digit. Results are exact integers; the binary64 rounding of long digit runs
    is not modelled. */
module JsParseInt {
  import opened Wrappers

  /** ECMAScript WhiteSpace and LineTerminator code points. */
  predicate IsWhitespace(c: char) {
    || c == '\t' || c == '\n' || c == '\U{000B}' || c == '\U{000C}' || c == '\r' || c == ' '
    || c == '\U{00A0}' || c == '\U{1680}' || ('\U{2000}' <= c <= '\U{200A}')
    || c == '\U{2028}' || c == '\U{2029}' || c == '\U{202F}' || c == '\U{205F}'
    || c == '\U{3000}' || c == '\U{FEFF}'
  }

  /** The text without its leading white space. */
  function TrimStart(s: string): (r: string)
    ensures |r| <= |s| && r == s[|s| - |r|..]
    ensures r == [] || !IsWhitespace(r[0])
    ensures forall i | 0 <= i < |s| - |r| :: IsWhitespace(s[i])
  {
    if s != [] && IsWhitespace(s[0]) then TrimStart(s[1..]) else s
  }

  /** The value of a digit character in bases up to 36: `0`-`9`, then the
      letters in either case; 36 for any other character. */
  function DigitValue(c: char): (v: nat)
    ensures v <= 36
  {
    if '0' <= c <= '9' then c as int - '0' as int
    else if 'a' <= c <= 'z' then c as int - 'a' as int + 10
    else if 'A' <= c <= 'Z' then c as int - 'A' as int + 10
    else 36
  }

  predicate IsDigitIn(c: char, radix: nat) {
    DigitValue(c) < radix
  }

  /** The length of the longest prefix of digits of the base. */
  function DigitPrefixLength(s: string, radix: nat): (n: nat)
    ensures n <= |s|
    ensures forall i | 0 <= i < n :: IsDigitIn(s[i], radix)
    ensures n < |s| ==> !IsDigitIn(s[n], radix)
  {
    if s != [] && IsDigitIn(s[0], radix) then 1 + DigitPrefixLength(s[1..], radix) else 0
  }

  /** The number a run of digits denotes in the base, most significant first. */
  function DigitsValue(digits: string, radix: nat): nat {
    if digits == [] then 0
    else DigitsValue(digits[..|digits| - 1], radix) * radix + DigitValue(digits[|digits| - 1])
  }

  /** The number at the head of a text with no sign: a `0x`/`0X` prefix
      selects base 16, base 10 otherwise; None when no digit follows. */
  function ParseUnsigned(s: string): Option<nat> {
    var hex := |s| >= 2 && s[0] == '0' && (s[1] == 'x' || s[1] == 'X');
    var radix := if hex then 16 else 10;
    var body := if hex then s[2..] else s;
    var n := DigitPrefixLength(body, radix);
    if n == 0 then None else Some(DigitsValue(body[..n], radix))
  }

  /** The number at the head of a text that starts with at most one sign. */
  function ParseSigned(s: string): Option<int> {
    var signed := |s| > 0 && (s[0] == '-' || s[0] == '+');
    match ParseUnsigned(if signed then s[1..] else s)
    case None => None
    case Some(v) => Some(if signed && s[0] == '-' then -(v as int) else v)
  }

  /** parseInt is NaN unless its text holds a decimal digit (the `0` of a
      `0x` prefix included). */
  function ParseInt(input: string): (r: Option<int>)
    ensures r.Some? ==> exists i | 0 <= i < |input| :: IsDigitIn(input[i], 10)
  {
    DigitUnderParse(input);
    ParseSigned(TrimStart(input))
  }

  lemma DigitUnderParse(input: string)
    ensures ParseSigned(TrimStart(input)).Some? ==> exists i | 0 <= i < |input| :: IsDigitIn(input[i], 10)
  {
    var t := TrimStart(input);
    var signed := |t| > 0 && (t[0] == '-' || t[0] == '+');
    var u := if signed then t[1..] else t;
    if ParseUnsigned(u).Some? {
      LeadingDigit(u);
      var k := |input| - |t| + (if signed then 1 else 0);
      assert input[k] == u[0];
    }
  }

  /** A text with no sign parses only when it starts with a decimal digit. */
  lemma LeadingDigit(u: string)
    requires ParseUnsigned(u).Some?
    ensures |u| > 0 && IsDigitIn(u[0], 10)
  {
    var hex := |u| >= 2 && u[0] == '0' && (u[1] == 'x' || u[1] == 'X');
    if !hex {
      assert DigitPrefixLength(u, 10) > 0;
    }
  }


  function Negated(r: Option<int>): Option<int> {
    match r
    case None => None
    case Some(v) => Some(-v)
  }

  /** The decimal digit for 0..9. */
  function DecimalDigit(d: nat): (c: char)
    requires d < 10
    ensures IsDigitIn(c, 10) && DigitValue(c) == d
  {
    ('0' as int + d) as char
  }

  /** The shortest decimal text of a natural number (what `String(n)` gives). */
  function DecimalText(n: nat): (r: string)
    ensures |r| >= 1
    ensures forall i | 0 <= i < |r| :: IsDigitIn(r[i], 10)
    ensures |r| > 1 ==> r[0] != '0'
  {
    if n < 10 then [DecimalDigit(n)] else DecimalText(n / 10) + [DecimalDigit(n % 10)]
  }

  // ---------------------------------------------------------------------------
  // Facts

  /** DigitsValue reads DecimalText back. */
  lemma {:induction false} DecimalTextValue(n: nat)
    ensures DigitsValue(DecimalText(n), 10) == n
  {
    if n >= 10 {
      var t := DecimalText(n / 10);
      var r := t + [DecimalDigit(n % 10)];
      assert r[..|r| - 1] == t;
      DecimalTextValue(n / 10);
    }
  }

  lemma {:induction false} DigitPrefixOfRun(digits: string, rest: string, radix: nat)
    requires forall i | 0 <= i < |digits| :: IsDigitIn(digits[i], radix)
    requires rest == [] || !IsDigitIn(rest[0], radix)
    ensures DigitPrefixLength(digits + rest, radix) == |digits|
  {
    if digits == [] {
      assert digits + rest == rest;
    } else {
      var s := digits + rest;
      assert s[0] == digits[0];
      assert s[1..] == digits[1..] + rest;
      DigitPrefixOfRun(digits[1..], rest, radix);
    }
  }

  lemma {:induction false} TrimStartOfPadded(ws: string, t: string)
    requires forall i | 0 <= i < |ws| :: IsWhitespace(ws[i])
    requires t == [] || !IsWhitespace(t[0])
    ensures TrimStart(ws + t) == t
  {
    if ws == [] {
      assert ws + t == t;
    } else {
      var s := ws + t;
      assert s[0] == ws[0];
      assert s[1..] == ws[1..] + t;
      TrimStartOfPadded(ws[1..], t);
    }
  }

  /** The unsigned part reads back any decimal text followed by a non-digit. */
  lemma ParseUnsignedDecimal(n: nat, rest: string)
    requires rest == [] || !IsDigitIn(rest[0], 10)
    requires n == 0 && rest != [] ==> rest[0] != 'x' && rest[0] != 'X'
    ensures ParseUnsigned(DecimalText(n) + rest) == Some(n)
  {
    var text := DecimalText(n);
    var s := text + rest;
    assert s[0] == text[0];
    if |s| >= 2 && s[0] == '0' {
      assert |text| == 1;
      assert s[1] == rest[0];
    }
    DigitPrefixOfRun(text, rest, 10);
    assert s[..|text|] == text;
    DecimalTextValue(n);
  }

  /** An optional minus sign negates the number that follows it. */
  lemma ParseSignedOf(negative: bool, u: string)
    requires u == [] || (u[0] != '-' && u[0] != '+')
    ensures var v := ParseUnsigned(u);
            ParseSigned((if negative then "-" else "") + u) == if negative then Negated(v) else v
  {
    if negative {
      assert ("-" + u)[1..] == u;
    } else {
      assert "" + u == u;
    }
  }

  /** A signed decimal text followed by a non-digit reads back as its number. */
  lemma ParseSignedDecimal(negative: bool, n: nat, rest: string)
    requires rest == [] || !IsDigitIn(rest[0], 10)
    requires n == 0 && rest != [] ==> rest[0] != 'x' && rest[0] != 'X'
    ensures ParseSigned((if negative then "-" else "") + (DecimalText(n) + rest))
            == Some(if negative then -(n as int) else n)
  {
    var unsigned := DecimalText(n) + rest;
    assert unsigned[0] == DecimalText(n)[0];
    ParseUnsignedDecimal(n, rest);
    ParseSignedOf(negative, unsigned);
  }

  /** parseInt reads back the bare decimal text of any natural number. */
  lemma ParseDecimal(n: nat)
    ensures ParseInt(DecimalText(n)) == Some(n)
  {
    var text := DecimalText(n);
    var empty: string := [];
    assert empty + empty + text + empty == text;
    ParseIntDecimalRoundTrip(empty, false, n, empty);
  }

  /** parseInt reads back the decimal text of any integer, whatever white
      space precedes it and whatever non-digit follows it. */
  lemma ParseIntDecimalRoundTrip(ws: string, negative: bool, n: nat, rest: string)
    requires forall i | 0 <= i < |ws| :: IsWhitespace(ws[i])
    requires rest == [] || !IsDigitIn(rest[0], 10)
    requires n == 0 && rest != [] ==> rest[0] != 'x' && rest[0] != 'X'
    ensures ParseInt(ws + (if negative then "-" else "") + DecimalText(n) + rest)
            == Some(if negative then -(n as int) else n)
  {
    var text := DecimalText(n);
    var sign := if negative then "-" else "";
    var signed := sign + (text + rest);
    assert ws + sign + text + rest == ws + signed;
    assert !IsWhitespace(signed[0]) by {
      if !negative {
        assert signed[0] == text[0];
      }
    }
    TrimStartOfPadded(ws, signed);
    ParseSignedDecimal(negative, n, rest);
  }

  /** A text whose first character after the white space is neither a sign
      nor a decimal digit has no number: parseInt gives NaN. */
  lemma ParseIntNoDigits(s: string)
    requires var t := TrimStart(s); t == [] || (!IsDigitIn(t[0], 10) && t[0] != '-' && t[0] != '+')
    ensures ParseInt(s) == None
  {
  }

  /** A minus sign negates what follows it. */
  lemma ParseIntMinus(s: string)
    requires s == [] || (!IsWhitespace(s[0]) && s[0] != '-' && s[0] != '+')
    ensures ParseInt("-" + s) == Negated(ParseInt(s))
  {
    TrimStartOfPadded([], s);
    TrimStartOfPadded([], "-" + s);
    assert [] + s == s && [] + ("-" + s) == "-" + s;
    ParseSignedOf(true, s);
    ParseSignedOf(false, s);
  }

  /** A missing query parameter reaches parseInt as "undefined": NaN. */
  lemma ParseIntUndefined()
    ensures ParseInt("undefined") == None
  {
    assert !IsWhitespace('u') && DigitValue('u') == 30;
    assert TrimStart("undefined") == "undefined";
    assert DigitPrefixLength("undefined", 10) == 0;
    assert ParseUnsigned("undefined") == None;
  }

  /** The limit of the handler's test: "25". */
  lemma ParseIntLimitExample()
    ensures ParseInt("25") == Some(25)
  {
    assert TrimStart("25") == "25";
    assert "25"[1..] == "5" && "5"[1..] == "";
    assert DigitPrefixLength("25", 10) == 2;
    assert "25"[..2] == "25" && "25"[..1] == "2" && "2"[..0] == "";
    assert DigitsValue("25", 10) == 25;
  }

  /** The start of the handler's test: "10". */
  lemma ParseIntStartExample()
    ensures ParseInt("10") == Some(10)
  {
    assert TrimStart("10") == "10";
    assert "10"[1..] == "0" && "0"[1..] == "";
    assert DigitPrefixLength("10", 10) == 2;
    assert "10"[..2] == "10" && "10"[..1] == "1" && "1"[..0] == "";
    assert DigitsValue("10", 10) == 10;
  }

  /** A `0x` prefix selects base 16: "0x10" is 16, and "0x" with no digit after it is NaN. */
  lemma ParseIntHexExamples()
    ensures ParseInt("0x10") == Some(16)
    ensures ParseInt("0x") == None
  {
    assert TrimStart("0x10") == "0x10";
    var body := "0x10"[2..];
    assert body == "10";
    assert DigitPrefixLength(body, 16) == 2 by {
      assert body[1..] == "0";
      assert DigitPrefixLength("0", 16) == 1 by {
        assert "0"[1..] == "";
      }
    }
    assert body[..2] == "10";
    assert DigitsValue("10", 16) == 16 by {
      assert "10"[..1] == "1";
      assert "1"[..0] == "";
    }
    assert TrimStart("0x") == "0x";
    assert "0x"[2..] == "";
  }

  lemma ParseIntEmpty()
    ensures ParseInt("") == None
  {
  }
}
