/**
 * The parts of PHP's value semantics that the plugin's handlers rely on:
 * empty() on strings, trim(), sanitize_key(), intval() and strval() of integers.
 * PHP strings are byte strings; a `ByteString` is a string whose characters are bytes.
 */
module PhpValues {
  import opened Wrappers

  type ByteString = s: string | forall i :: 0 <= i < |s| ==> s[i] as int < 256

  /** PHP's empty() on a string: only "" and "0" are empty. */
  predicate EmptyString(s: string)
  {
    s == "" || s == "0"
  }

  /** empty() is false for a blank, for "00", for "0.0" and for "false". */
  lemma EmptyStringCases()
    ensures EmptyString("") && EmptyString("0")
    ensures !EmptyString(" ") && !EmptyString("00") && !EmptyString("0.0") && !EmptyString("false")
  {
    assert "00" != "0" by { assert |"00"| != |"0"|; }
    assert "0.0" != "0" by { assert |"0.0"| != |"0"|; }
  }

  // ---------------------------------------------------------------- trim()

  /** `s` without the characters `ws` accepts at its start. */
  function TrimLeft(s: string, ws: char -> bool): (r: string)
    ensures |r| <= |s| && r == s[|s| - |r|..]
    ensures r == [] || !ws(r[0])
    ensures forall i :: 0 <= i < |s| - |r| ==> ws(s[i])
  {
    if s == [] || !ws(s[0]) then s else TrimLeft(s[1..], ws)
  }

  /** `s` without the characters `ws` accepts at its end. */
  function TrimRight(s: string, ws: char -> bool): (r: string)
    ensures |r| <= |s| && r == s[..|r|]
    ensures r == [] || !ws(r[|r| - 1])
    ensures forall i :: |r| <= i < |s| ==> ws(s[i])
  {
    if s == [] || !ws(s[|s| - 1]) then s else TrimRight(s[..|s| - 1], ws)
  }

  /** How many characters trimming takes off the start of `s`. */
  function LeadLength(s: string, ws: char -> bool): nat
  {
    |s| - |TrimLeft(s, ws)|
  }

  /**
   * `r` is `s` trimmed by a character class: the infix of `s` that starts after the leading run
   * of accepted characters and ends before the trailing run, so that it neither starts nor ends
   * with one. These facts determine `r`.
   */
  ghost predicate TrimmedBy(s: string, r: string, ws: char -> bool)
  {
    && LeadLength(s, ws) + |r| <= |s| && r == s[LeadLength(s, ws)..LeadLength(s, ws) + |r|]
    && (forall i :: 0 <= i < LeadLength(s, ws) ==> ws(s[i]))
    && (forall i :: LeadLength(s, ws) + |r| <= i < |s| ==> ws(s[i]))
    && (r == [] || (!ws(r[0]) && !ws(r[|r| - 1])))
  }

  /** At most one string is `s` trimmed by a given class. */
  lemma TrimmedByUnique(s: string, r1: string, r2: string, ws: char -> bool)
    requires TrimmedBy(s, r1, ws) && TrimmedBy(s, r2, ws)
    ensures r1 == r2
  {
    var a := LeadLength(s, ws);
    assert r1 != [] ==> r1[|r1| - 1] == s[a + |r1| - 1];
    assert r2 != [] ==> r2[|r2| - 1] == s[a + |r2| - 1];
  }

  /** Trimming by a character class. */
  function TrimWith(s: string, ws: char -> bool): (r: string)
    ensures TrimmedBy(s, r, ws)
  {
    TrimBothEnds(s, ws);
    TrimRight(TrimLeft(s, ws), ws)
  }

  lemma TrimBothEnds(s: string, ws: char -> bool)
    ensures TrimmedBy(s, TrimRight(TrimLeft(s, ws), ws), ws)
  {
    var t := TrimLeft(s, ws);
    var a := LeadLength(s, ws);
    assert t == s[a..];
    TrimRightOfSuffix(s, t, a, ws);
  }

  /** Trimming the end of the suffix of `s` from `a` on gives an infix of `s` followed only by accepted characters. */
  lemma TrimRightOfSuffix(s: string, t: string, a: nat, ws: char -> bool)
    requires a <= |s| && t == s[a..]
    ensures var r := TrimRight(t, ws);
      && a + |r| <= |s| && r == s[a..a + |r|]
      && (forall i :: a + |r| <= i < |s| ==> ws(s[i]))
      && (r != [] ==> r[0] == t[0])
  {
    var r := TrimRight(t, ws);
    assert r == t[..|r|];
    forall i | a + |r| <= i < |s|
      ensures ws(s[i])
    {
      assert s[i] == t[i - a];
    }
  }

  /** Trimming changes nothing in a string that already starts and ends with other characters. */
  lemma TrimWithOfTrimmed(s: string, ws: char -> bool)
    requires s == [] || (!ws(s[0]) && !ws(s[|s| - 1]))
    ensures TrimWith(s, ws) == s
  {
    assert TrimLeft(s, ws) == s;
    assert TrimRight(s, ws) == s;
  }

  /** Trimming removes exactly the padding around a text that starts and ends with other characters. */
  lemma TrimWithOfPadded(lead: string, r: string, trail: string, ws: char -> bool)
    requires forall i :: 0 <= i < |lead| ==> ws(lead[i])
    requires forall i :: 0 <= i < |trail| ==> ws(trail[i])
    requires r != [] && !ws(r[0]) && !ws(r[|r| - 1])
    ensures TrimWith(lead + r + trail, ws) == r
  {
    var s := lead + r + trail;
    assert LeadLength(s, ws) == |lead| by {
      assert lead + (r + trail) == s;
      TrimLeftSkips(lead, r + trail, ws);
    }
    assert s[|lead|..|lead| + |r|] == r;
    forall i | 0 <= i < |lead|
      ensures ws(s[i])
    {
      assert s[i] == lead[i];
    }
    forall i | |lead| + |r| <= i < |s|
      ensures ws(s[i])
    {
      assert s[i] == trail[i - |lead| - |r|];
    }
    TrimmedByUnique(s, TrimWith(s, ws), r, ws);
  }


  lemma {:induction false} TrimLeftSkips(lead: string, rest: string, ws: char -> bool)
    requires forall i :: 0 <= i < |lead| ==> ws(lead[i])
    requires rest == [] || !ws(rest[0])
    ensures TrimLeft(lead + rest, ws) == rest
  {
    if lead != [] {
      assert (lead + rest)[1..] == lead[1..] + rest;
      TrimLeftSkips(lead[1..], rest, ws);
    }
  }

  /** The characters PHP's trim() strips by default: space, \t, \n, \r, \0 and \x0B. */
  predicate IsTrimChar(c: char)
  {
    c == ' ' || c == '\t' || c == '\n' || c == '\r' || c as int == 0 || c as int == 11
  }

  /** trim(): the characters of IsTrimChar removed from both ends, and only there. */
  function Trim(s: string): (r: string)
    ensures TrimmedBy(s, r, IsTrimChar)
  {
    TrimWith(s, IsTrimChar)
  }

  /** trim() is idempotent. */
  lemma TrimIdempotent(s: string)
    ensures Trim(Trim(s)) == Trim(s)
  {
    TrimWithOfTrimmed(Trim(s), IsTrimChar);
  }

  // ---------------------------------------------------------- sanitize_key()

  /** The characters sanitize_key() keeps once the key is lower-cased: a-z, 0-9, '_' and '-'. */
  predicate IsKeyChar(c: char)
  {
    ('a' <= c <= 'z') || ('0' <= c <= '9') || c == '_' || c == '-'
  }

  /** strtolower() on one byte: only ASCII letters change. */
  function LowerAscii(c: char): (r: char)
    ensures 'A' <= c <= 'Z' ==> 'a' <= r <= 'z'
    ensures !('A' <= c <= 'Z') ==> r == c
  {
    if 'A' <= c <= 'Z' then (c as int + 32) as char else c
  }

  /** strtolower() on a string: each ASCII letter lower-cased, every other byte kept. */
  function Lower(s: string): (r: string)
    ensures |r| == |s| && forall i :: 0 <= i < |s| ==> r[i] == LowerAscii(s[i])
  {
    seq(|s|, i requires 0 <= i < |s| => LowerAscii(s[i]))
  }

  /** sanitize_key(): lower-case ASCII letters, then drop every byte outside [a-z0-9_-]. */
  function SanitizeKey(s: string): (r: string)
    ensures |r| <= |s|
    ensures forall i :: 0 <= i < |r| ==> IsKeyChar(r[i])
    ensures forall i :: 0 <= i < |s| && IsKeyChar(LowerAscii(s[i])) ==> LowerAscii(s[i]) in r
    ensures r == [] <==> forall i :: 0 <= i < |s| ==> !IsKeyChar(LowerAscii(s[i]))
  {
    if s == [] then []
    else
      var c := LowerAscii(s[0]);
      var rest := SanitizeKey(s[1..]);
      assert forall i :: 1 <= i < |s| ==> s[i] == s[1..][i - 1];
      (if IsKeyChar(c) then [c] else []) + rest
  }

  /**
   * sanitize_key() works byte by byte and keeps the order: the key of two strings one after
   * the other is their two keys one after the other.
   */
  lemma {:induction false} SanitizeKeyAppend(a: string, b: string)
    ensures SanitizeKey(a + b) == SanitizeKey(a) + SanitizeKey(b)
  {
    if a == [] {
      assert a + b == b;
    } else {
      assert (a + b)[0] == a[0] && (a + b)[1..] == a[1..] + b;
      SanitizeKeyAppend(a[1..], b);
    }
  }

  /** A single byte is kept, lower-cased, exactly when it lower-cases to a key character; with SanitizeKeyAppend this fixes the key of every string. */
  lemma SanitizeKeyOfByte(c: char)
    ensures SanitizeKey([c]) == if IsKeyChar(LowerAscii(c)) then [LowerAscii(c)] else []
  {
    assert [c][1..] == [];
  }

  /** A key made only of key characters passes sanitize_key() unchanged. */
  lemma {:induction false} SanitizeKeyKeeps(s: string)
    requires forall i :: 0 <= i < |s| ==> IsKeyChar(s[i])
    ensures SanitizeKey(s) == s
  {
    if s != [] {
      SanitizeKeyKeeps(s[1..]);
    }
  }

  /** sanitize_key() is idempotent. */
  lemma SanitizeKeyIdempotent(s: string)
    ensures SanitizeKey(SanitizeKey(s)) == SanitizeKey(s)
  {
    SanitizeKeyKeeps(SanitizeKey(s));
  }

  /** Every byte from 0x80 up (each byte of a non-ASCII UTF-8 character) is erased by sanitize_key(). */
  lemma {:induction false} SanitizeKeyErasesHighBytes(s: string)
    requires forall i :: 0 <= i < |s| ==> s[i] as int >= 128
    ensures SanitizeKey(s) == ""
  {
    if s != [] {
      SanitizeKeyErasesHighBytes(s[1..]);
    }
  }

  // ------------------------------------------------------ strval() and intval()

  predicate IsDigit(c: char)
  {
    '0' <= c <= '9'
  }

  function DigitChar(d: nat): (c: char)
    requires d < 10
    ensures IsDigit(c) && c as int - '0' as int == d
  {
    ('0' as int + d) as char
  }

  /** The decimal digits of a natural number, without leading zeros. */
  function NatToString(n: nat): (r: string)
    ensures |r| >= 1 && (|r| > 1 ==> r[0] != '0')
    ensures forall i :: 0 <= i < |r| ==> IsDigit(r[i])
  {
    if n < 10 then [DigitChar(n)] else NatToString(n / 10) + [DigitChar(n % 10)]
  }

  /** strval() of an integer. */
  function IntToString(n: int): (r: string)
    ensures |r| >= 1
  {
    if n < 0 then "-" + NatToString(-n) else NatToString(n)
  }

  function DigitOf(c: char): (d: nat)
    requires IsDigit(c)
    ensures d < 10
  {
    c as int - '0' as int
  }

  /** The value of a string of decimal digits. */
  function DigitsValue(ds: string): nat
    requires forall i :: 0 <= i < |ds| ==> IsDigit(ds[i])
  {
    if ds == [] then 0
    else DigitsValue(ds[..|ds| - 1]) * 10 + DigitOf(ds[|ds| - 1])
  }

  /** The longest prefix of `s` made of decimal digits. */
  function LeadingDigits(s: string): (r: string)
    ensures |r| <= |s| && r == s[..|r|]
    ensures forall i :: 0 <= i < |r| ==> IsDigit(r[i])
    ensures |r| < |s| ==> !IsDigit(s[|r|])
  {
    if s == [] || !IsDigit(s[0]) then [] else [s[0]] + LeadingDigits(s[1..])
  }

  /** The whitespace intval() skips before the number: space, \t, \n, \r, \v and \f. */
  predicate IsLeadingSpace(c: char)
  {
    c == ' ' || c == '\t' || c == '\n' || c == '\r' || c as int == 11 || c as int == 12
  }

  function SkipSpaces(s: string): (r: string)
    ensures |r| <= |s| && r == s[|s| - |r|..]
    ensures r == [] || !IsLeadingSpace(r[0])
  {
    if s == [] || !IsLeadingSpace(s[0]) then s else SkipSpaces(s[1..])
  }

  /** PHP_INT_MAX and PHP_INT_MIN of a 64-bit build. */
  const PhpIntMax: int := 0x7FFF_FFFF_FFFF_FFFF
  const PhpIntMin: int := -0x8000_0000_0000_0000

  /** The magnitude from which a decimal number rounds to infinity as an IEEE-754 double: 2^1024 - 2^970. */
  const DoubleOverflow: nat := 0xFFFF_FFFF_FFFF_FC00_0000_0000_0000_0000_0000_0000_0000_0000_0000_0000_0000_0000_0000_0000_0000_0000_0000_0000_0000_0000_0000_0000_0000_0000_0000_0000_0000_0000_0000_0000_0000_0000_0000_0000_0000_0000_0000_0000_0000_0000_0000_0000_0000_0000_0000_0000_0000_0000_0000_0000_0000_0000_0000_0000_0000_0000_0000_0000_0000_0000_0000_0000

  /** An integer brought into PHP's integer range: values beyond it stick at the nearer bound. */
  function Saturate(x: int): (r: int)
    ensures PhpIntMin <= r <= PhpIntMax
    ensures PhpIntMin <= x <= PhpIntMax ==> r == x
    ensures x > PhpIntMax ==> r == PhpIntMax
    ensures x < PhpIntMin ==> r == PhpIntMin
  {
    if x > PhpIntMax then PhpIntMax else if x < PhpIntMin then PhpIntMin else x
  }

  /** m * 10^k. */
  function Scale(m: nat, k: nat): nat
  {
    if k == 0 then m else 10 * Scale(m, k - 1)
  }

  /** The whole part of m / 10^k. */
  function Shrink(m: nat, k: nat): nat
  {
    if k == 0 then m else Shrink(m, k - 1) / 10
  }

  /**
   * The number at the start of a string, as PHP's numeric-string reader sees it: an optional
   * sign, then digits alone (the integer form), or digits with a decimal point or an exponent
   * (the floating form, worth ±mantissa * 10^scale).
   */
  datatype Numeric =
    | NotNumeric
    | IntegerForm(negative: bool, digits: nat)
    | FloatForm(negative: bool, mantissa: nat, scale: int)

  /** The exponent an "e" or "E" introduces, when an optionally signed digit follows it. */
  function ExponentOf(t: string): Option<int>
  {
    if |t| >= 2 && (t[0] == 'e' || t[0] == 'E') then
      if IsDigit(t[1]) then Some(DigitsValue(LeadingDigits(t[1..])) as int)
      else if |t| >= 3 && (t[1] == '+' || t[1] == '-') && IsDigit(t[2]) then
        var e := DigitsValue(LeadingDigits(t[2..]));
        Some(if t[1] == '-' then -(e as int) else e)
      else None
    else None
  }

  /** `t` without its sign, if it has one. */
  function Unsigned(t: string): (u: string)
    ensures |t| > 0 && (t[0] == '-' || t[0] == '+') ==> u == t[1..]
    ensures !(|t| > 0 && (t[0] == '-' || t[0] == '+')) ==> u == t
  {
    if |t| > 0 && (t[0] == '-' || t[0] == '+') then t[1..] else t
  }

  /** The numeric prefix of `t`; `t` starts after the whitespace intval() skips. */
  function ReadNumeric(t: string): Numeric
  {
    var u := Unsigned(t);
    var whole := LeadingDigits(u);
    ReadMantissa(|t| > 0 && t[0] == '-', whole, u[|whole|..])
  }

  /** The number made of the digits `whole` and what follows them, `rest`. */
  function ReadMantissa(negative: bool, whole: string, rest: string): Numeric
    requires forall i :: 0 <= i < |whole| ==> IsDigit(whole[i])
  {
    if |rest| > 0 && rest[0] == '.' then
      var fraction := LeadingDigits(rest[1..]);
      if whole == "" && fraction == "" then NotNumeric
      else
        var exponent := ExponentOf(rest[1 + |fraction|..]);
        FloatForm(negative, DigitsValue(whole + fraction), (if exponent.Some? then exponent.value else 0) - |fraction|)
    else if whole == "" then NotNumeric
    else
      match ExponentOf(rest)
      case None => IntegerForm(negative, DigitsValue(whole))
      case Some(e) => FloatForm(negative, DigitsValue(whole), e)
  }

  /** mantissa * 10^scale rounds to infinity as a double. */
  predicate Overflows(mantissa: nat, scale: int)
  {
    if scale >= 0 then Scale(mantissa, scale) >= DoubleOverflow else mantissa >= Scale(DoubleOverflow, -scale)
  }

  /** The whole part of mantissa * 10^scale. */
  function WholePart(mantissa: nat, scale: int): nat
  {
    if scale >= 0 then Scale(mantissa, scale) else Shrink(mantissa, -scale)
  }

  /**
   * The integer PHP makes of a numeric prefix: 0 for none; an integer form beyond the 64-bit
   * range sticks at the bound; a floating form is cut toward zero and sticks at the bounds,
   * except that one too large for a double is infinite and becomes 0.
   */
  function NumericValue(n: Numeric): int
  {
    match n
    case NotNumeric => 0
    case IntegerForm(negative, d) => Saturate(if negative then -(d as int) else d)
    case FloatForm(negative, m, e) =>
      if Overflows(m, e) then 0
      else
        var w := WholePart(m, e);
        Saturate(if negative then -(w as int) else w)
  }

  /**
   * intval() of a string (PHP 7.1 and later): leading whitespace, then the numeric prefix,
   * integer or floating, with the decimal point and the exponent form; 0 when there is none.
   * The result always lies in PHP's integer range.
   */
  function IntVal(s: string): (r: int)
    ensures PhpIntMin <= r <= PhpIntMax
    ensures ReadNumeric(SkipSpaces(s)).NotNumeric? ==> r == 0
  {
    NumericValue(ReadNumeric(SkipSpaces(s)))
  }

  lemma {:induction false} DigitsValueOfNatToString(n: nat)
    ensures DigitsValue(NatToString(n)) == n
  {
    if n >= 10 {
      var r := NatToString(n);
      DigitsValueOfNatToString(n / 10);
      assert r[..|r| - 1] == NatToString(n / 10);
    }
  }

  lemma {:induction false} LeadingDigitsOfDigits(s: string)
    requires forall i :: 0 <= i < |s| ==> IsDigit(s[i])
    ensures LeadingDigits(s) == s
  {
    if s != [] {
      LeadingDigitsOfDigits(s[1..]);
    }
  }

  /** Digits with nothing after them are the integer form. */
  lemma ReadMantissaOfDigits(negative: bool, ds: string)
    requires |ds| >= 1 && forall i :: 0 <= i < |ds| ==> IsDigit(ds[i])
    ensures ReadMantissa(negative, ds, "") == IntegerForm(negative, DigitsValue(ds))
  {
    assert ExponentOf("") == None;
  }

  /** A string of digits alone is read in the integer form. */
  lemma ReadDigits(ds: string)
    requires |ds| >= 1 && forall i :: 0 <= i < |ds| ==> IsDigit(ds[i])
    ensures ReadNumeric(ds) == IntegerForm(false, DigitsValue(ds))
  {
    assert Unsigned(ds) == ds;
    LeadingDigitsOfDigits(ds);
    assert ds[|ds|..] == "";
    ReadMantissaOfDigits(false, ds);
  }

  /** A minus sign and digits alone are read as the negative integer form. */
  lemma ReadNegatedDigits(ds: string)
    requires |ds| >= 1 && forall i :: 0 <= i < |ds| ==> IsDigit(ds[i])
    ensures ReadNumeric("-" + ds) == IntegerForm(true, DigitsValue(ds))
  {
    var s := "-" + ds;
    assert s[0] == '-' && s[1..] == ds;
    assert Unsigned(s) == ds;
    LeadingDigitsOfDigits(ds);
    assert ds[|ds|..] == "";
    ReadMantissaOfDigits(true, ds);
  }

  lemma IntValOfDigits(ds: string)
    requires |ds| >= 1 && forall i :: 0 <= i < |ds| ==> IsDigit(ds[i])
    ensures IntVal(ds) == Saturate(DigitsValue(ds))
  {
    assert !IsLeadingSpace(ds[0]);
    assert SkipSpaces(ds) == ds;
    ReadDigits(ds);
    IntValOfIntegerForm(ds, false, DigitsValue(ds));
  }

  lemma IntValOfNegatedDigits(ds: string, d: nat)
    requires |ds| >= 1 && forall i :: 0 <= i < |ds| ==> IsDigit(ds[i])
    requires d == DigitsValue(ds)
    ensures IntVal("-" + ds) == Saturate(-(d as int))
  {
    ReadNegatedDigits(ds);
    var s := "-" + ds;
    assert SkipSpaces(s) == s by {
      assert s[0] == '-' && !IsLeadingSpace(s[0]);
    }
    IntValOfIntegerForm(s, true, d);
  }

  /** A string with no leading space whose numeric prefix is an integer form. */
  lemma IntValOfIntegerForm(s: string, negative: bool, d: nat)
    requires SkipSpaces(s) == s && ReadNumeric(s) == IntegerForm(negative, d)
    ensures IntVal(s) == Saturate(if negative then -(d as int) else d)
  {
    IntegerFormValue(negative, d);
  }

  lemma IntegerFormValue(negative: bool, d: nat)
    ensures NumericValue(IntegerForm(negative, d)) == Saturate(if negative then -(d as int) else d)
  {
  }

  lemma IntValOfNegative(n: int)
    requires n < 0
    ensures IntVal(IntToString(n)) == Saturate(n)
  {
    var m: nat := -n;
    IntValOfMinusDigits(m);
    assert IntToString(n) == "-" + NatToString(m);
  }

  /** A minus sign followed by the digits of `m` reads back as -m, brought into range. */
  lemma IntValOfMinusDigits(m: nat)
    ensures IntVal("-" + NatToString(m)) == Saturate(-(m as int))
  {
    var ds := NatToString(m);
    DigitsValueOfNatToString(m);
    IntValOfNegatedDigits(ds, m);
  }

  lemma IntValOfNonNegative(n: int)
    requires n >= 0
    ensures IntVal(IntToString(n)) == Saturate(n)
  {
    var ds := NatToString(n);
    assert IntToString(n) == ds;
    IntValOfDigits(ds);
    DigitsValueOfNatToString(n);
  }

  /**
   * intval(strval(n)): printing an integer and reading it back gives the integer when it is
   * a PHP integer, and the nearer bound otherwise.
   */
  lemma IntValOfIntToString(n: int)
    ensures IntVal(IntToString(n)) == Saturate(n)
    ensures PhpIntMin <= n <= PhpIntMax ==> IntVal(IntToString(n)) == n
  {
    if n < 0 {
      IntValOfNegative(n);
    } else {
      IntValOfNonNegative(n);
    }
  }

  /** A positive floating form below the integer bound is its whole part. */
  lemma FloatFormValue(m: nat, e: int)
    requires WholePart(m, e) <= PhpIntMax && !Overflows(m, e)
    ensures NumericValue(FloatForm(false, m, e)) == WholePart(m, e)
  {
  }

  /** intval("5e1") is 50: the exponent form is read. */
  lemma IntValOfExponentExample()
    ensures IntVal("5e1") == 50
  {
    var s := "5e1";
    assert SkipSpaces(s) == s by { assert !IsLeadingSpace(s[0]); }
    ReadExponentExample();
    assert Scale(5, 1) == 50;
    FloatFormValue(5, 1);
  }

  lemma ReadExponentExample()
    ensures ReadNumeric("5e1") == FloatForm(false, 5, 1)
  {
    var s := "5e1";
    assert Unsigned(s) == s;
    assert LeadingDigits(s) == "5" by {
      assert s[1..] == "e1" && LeadingDigits("e1") == [];
    }
    assert ExponentOf("e1") == Some(1) by {
      assert "e1"[1..] == "1" && LeadingDigits("1") == "1" && DigitsValue("1") == 1;
    }
    assert s[1..] == "e1";
    assert DigitsValue("5") == 5;
  }

  /** intval("1.5e3") is 1500: the decimal point and the exponent are read together. */
  lemma IntValOfDecimalExample()
    ensures IntVal("1.5e3") == 1500
  {
    var s := "1.5e3";
    assert SkipSpaces(s) == s by { assert !IsLeadingSpace(s[0]); }
    ReadDecimalExample();
    assert Scale(15, 2) == 1500;
    FloatFormValue(15, 2);
  }

  lemma ReadDecimalExample()
    ensures ReadNumeric("1.5e3") == FloatForm(false, 15, 2)
  {
    var s := "1.5e3";
    var rest := ".5e3";
    assert Unsigned(s) == s;
    assert LeadingDigits(s) == "1" by {
      assert s[1..] == rest && LeadingDigits(rest) == [];
    }
    assert s[1..] == rest;
    ReadDecimalRestExample();
  }

  lemma ReadDecimalRestExample()
    ensures ReadMantissa(false, "1", ".5e3") == FloatForm(false, 15, 2)
  {
    var rest := ".5e3";
    assert LeadingDigits(rest[1..]) == "5" by {
      assert rest[1..] == "5e3" && "5e3"[1..] == "e3" && LeadingDigits("e3") == [];
    }
    assert rest[2..] == "e3";
    assert ExponentOf("e3") == Some(3) by {
      assert "e3"[1..] == "3" && LeadingDigits("3") == "3" && DigitsValue("3") == 3;
    }
    assert DigitsValue("1" + "5") == 15 by {
      assert ("1" + "5")[..1] == "1";
    }
  }

  /** intval(" 12abc") is 12: leading whitespace is skipped and trailing text ignored. */
  lemma IntValOfPrefixExample()
    ensures IntVal(" 12abc") == 12
  {
    var s := " 12abc";
    var t := "12abc";
    assert SkipSpaces(s) == t by {
      assert s[1..] == t && !IsLeadingSpace(t[0]);
    }
    ReadPrefixExample();
    IntegerFormValue(false, 12);
  }

  lemma ReadPrefixExample()
    ensures ReadNumeric("12abc") == IntegerForm(false, 12)
  {
    var t := "12abc";
    assert Unsigned(t) == t;
    assert LeadingDigits(t) == "12" by {
      assert t[1..] == "2abc" && "2abc"[1..] == "abc" && LeadingDigits("abc") == [];
    }
    assert t[2..] == "abc";
    assert ExponentOf("abc") == None;
    assert DigitsValue("12") == 12 by {
      assert "12"[..1] == "1";
    }
  }

  /**
   * A string that PHP turns into an integer array key: exactly the canonical decimal form of
   * an integer inside the 64-bit range ("123", "-5", "0"; not "012", "+1", " 1", "-0", "1e3"
   * or "9223372036854775808").
   */
  predicate IsIntegerKey(s: string)
  {
    IntToString(IntVal(s)) == s
  }

  /** The decimal form of every PHP integer is an integer key, and a string key outside that range. */
  lemma IntToStringIsIntegerKey(n: int)
    ensures IsIntegerKey(IntToString(n)) <==> PhpIntMin <= n <= PhpIntMax
  {
    IntValOfIntToString(n);
    if !(PhpIntMin <= n <= PhpIntMax) {
      IntToStringInjective(n, Saturate(n));
    }
  }

  /** The integer a minus sign and the digits after it denote, with no range limit. */
  function DecimalValue(s: string): int
  {
    if |s| > 0 && s[0] == '-' then -(DigitsValue(LeadingDigits(s[1..])) as int) else DigitsValue(LeadingDigits(s))
  }

  lemma DecimalValueOfIntToString(n: int)
    ensures DecimalValue(IntToString(n)) == n
  {
    if n < 0 {
      var ds := NatToString(-n);
      assert IntToString(n)[1..] == ds;
      LeadingDigitsOfDigits(ds);
      DigitsValueOfNatToString(-n);
    } else {
      LeadingDigitsOfDigits(NatToString(n));
      DigitsValueOfNatToString(n);
    }
  }

  /** Different integers print differently. */
  lemma IntToStringInjective(a: int, b: int)
    ensures IntToString(a) == IntToString(b) ==> a == b
  {
    DecimalValueOfIntToString(a);
    DecimalValueOfIntToString(b);
  }

  // ------------------------------------------------------ percentages

  lemma MulMonotone(x: int, y: int, t: int)
    requires x <= y && t >= 0
    ensures x * t <= y * t
  {
  }

  lemma {:induction false} DivMonotone(a: nat, b: nat, t: nat)
    requires a <= b && t > 0
    ensures a / t <= b / t
  {
    var qa, qb := a / t, b / t;
    if qa > qb {
      MulMonotone(qb + 1, qa, t);
      assert false;
    }
  }

  /**
   * `intval(($done / $total) * 100)` for 0 <= done <= total, with 0 when total is 0:
   * the share of done items as a truncated whole percentage.
   */
  function Percent(done: nat, total: nat): (p: nat)
    requires done <= total
    ensures p <= 100
    ensures p == 100 <==> total > 0 && done == total
    ensures total == 0 ==> p == 0
  {
    if total == 0 then 0
    else
      var q := done * 100 / total;
      assert q <= 100 && (q == 100 <==> done == total) by {
        if done == total {
          assert done * 100 == 100 * total;
        } else if q >= 100 {
          MulMonotone(100, q, total);
          assert false;
        }
        if q > 100 {
          MulMonotone(101, q, total);
          assert false;
        }
      }
      q
  }

  /** With the same total, more done items never give a lower percentage. */
  lemma PercentMonotone(d1: nat, d2: nat, total: nat)
    requires d1 <= d2 <= total
    ensures Percent(d1, total) <= Percent(d2, total)
  {
    if total > 0 {
      DivMonotone(d1 * 100, d2 * 100, total);
    }
  }
}
