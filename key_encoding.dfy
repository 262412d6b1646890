/**
 * Pricing-matrix keys: a book size is stored under the setting key
 * "pricing_matrix_" followed by the base64 encoding (section 4 of RFC 4648) of its bytes,
 * and read back with a strict base64 decode. Lower-casing and filtering the size with
 * sanitize_key() instead loses Persian size names entirely.
 * Also models the consistency checks that confirm the encoding (test-encoding-fix.php).
 */
module KeyEncoding {
  import opened Wrappers
  import opened PhpValues

  const MatrixKeyPrefix: string := "pricing_matrix_"

  // ------------------------------------------------------------ the alphabet

  /** The character for a 6-bit value: A-Z, a-z, 0-9, '+', '/'. */
  function Sextet(v: nat): (c: char)
    requires v < 64
    ensures IsAlphabetChar(c)
  {
    if v < 26 then ('A' as int + v) as char
    else if v < 52 then ('a' as int + v - 26) as char
    else if v < 62 then ('0' as int + v - 52) as char
    else if v == 62 then '+'
    else '/'
  }

  predicate IsAlphabetChar(c: char)
  {
    ('A' <= c <= 'Z') || ('a' <= c <= 'z') || ('0' <= c <= '9') || c == '+' || c == '/'
  }

  /** The 6-bit value of an alphabet character; None for any other character, '=' included. */
  function SextetValue(c: char): (r: Option<nat>)
    ensures r.Some? <==> IsAlphabetChar(c)
    ensures r.Some? ==> r.value < 64 && Sextet(r.value) == c
  {
    if 'A' <= c <= 'Z' then Some(c as int - 'A' as int)
    else if 'a' <= c <= 'z' then Some(c as int - 'a' as int + 26)
    else if '0' <= c <= '9' then Some(c as int - '0' as int + 52)
    else if c == '+' then Some(62)
    else if c == '/' then Some(63)
    else None
  }

  lemma SextetValueOfSextet(v: nat)
    requires v < 64
    ensures SextetValue(Sextet(v)) == Some(v)
  {
  }

  // ------------------------------------------------------------ encoding

  function EncodeGroup(b0: nat, b1: nat, b2: nat): (r: string)
    requires b0 < 256 && b1 < 256 && b2 < 256
    ensures |r| == 4 && Base64Chars(r)
    ensures IsAlphabetChar(r[3])
  {
    [Sextet(b0 / 4), Sextet((b0 % 4) * 16 + b1 / 16), Sextet((b1 % 16) * 4 + b2 / 64), Sextet(b2 % 64)]
  }

  /** A final single byte: two characters and "==". */
  function EncodeLastOne(b0: nat): (r: string)
    requires b0 < 256
    ensures |r| == 4 && Base64Chars(r)
  {
    [Sextet(b0 / 4), Sextet((b0 % 4) * 16), '=', '=']
  }

  /** A final pair of bytes: three characters and "=". */
  function EncodeLastTwo(b0: nat, b1: nat): (r: string)
    requires b0 < 256 && b1 < 256
    ensures |r| == 4 && Base64Chars(r)
  {
    [Sextet(b0 / 4), Sextet((b0 % 4) * 16 + b1 / 16), Sextet((b1 % 16) * 4), '=']
  }

  /** base64_encode(): three bytes to four characters, the last group padded with '='. */
  function Encode(s: ByteString): (r: string)
    ensures |r| == 4 * ((|s| + 2) / 3)
    ensures Base64Chars(r)
    decreases |s|
  {
    if |s| == 0 then ""
    else if |s| == 1 then EncodeLastOne(s[0] as int)
    else if |s| == 2 then EncodeLastTwo(s[0] as int, s[1] as int)
    else
      var g, rest := EncodeGroup(s[0] as int, s[1] as int, s[2] as int), Encode(s[3..]);
      Base64CharsAppend(g, rest);
      EncodedLengthStep(|s|);
      g + rest
  }

  /** Three more bytes make one more group of four characters. */
  lemma EncodedLengthStep(n: nat)
    requires n >= 3
    ensures 4 + 4 * ((n - 3 + 2) / 3) == 4 * ((n + 2) / 3)
  {
    assert (n + 2) / 3 == (n - 1) / 3 + 1;
  }

  /** Every character is an alphabet character or the padding '='. */
  predicate Base64Chars(t: string)
  {
    forall i :: 0 <= i < |t| ==> IsAlphabetChar(t[i]) || t[i] == '='
  }

  lemma Base64CharsAppend(a: string, b: string)
    requires Base64Chars(a) && Base64Chars(b)
    ensures Base64Chars(a + b)
  {
    forall i | 0 <= i < |a + b| ensures IsAlphabetChar((a + b)[i]) || (a + b)[i] == '=' {
      if i < |a| { assert (a + b)[i] == a[i]; } else { assert (a + b)[i] == b[i - |a|]; }
    }
  }

  // ------------------------------------------------------------ strict decoding

  predicate IsByteString(s: string)
  {
    forall i :: 0 <= i < |s| ==> s[i] as int < 256
  }

  function Byte(v: nat): (c: char)
    requires v < 256
    ensures c as int == v
  {
    v as char
  }

  function DecodeGroup(q: string): (r: Option<string>)
    requires |q| == 4
    ensures r.Some? ==> |r.value| == 3 && IsByteString(r.value)
  {
    match (SextetValue(q[0]), SextetValue(q[1]), SextetValue(q[2]), SextetValue(q[3]))
    case (Some(v0), Some(v1), Some(v2), Some(v3)) =>
      Some([Byte(v0 * 4 + v1 / 16), Byte((v1 % 16) * 16 + v2 / 4), Byte((v2 % 4) * 64 + v3)])
    case _ => None
  }

  /**
   * The strict decoder once blanks are skipped: every group of four characters must be
   * alphabet characters, except that the last group may end in "=" or "=="; any other
   * character is rejected (None, PHP's false). Only complete groups of four are read, so a
   * last group left without its padding, which PHP's strict decoder accepts, is rejected.
   */
  function DecodeGroups(t: string): (r: Option<string>)
    ensures r.Some? ==> IsByteString(r.value)
    decreases |t|
  {
    if |t| == 0 then Some([])
    else if |t| < 4 then None
    else if |t| == 4 && t[3] == '=' then
      if t[2] == '=' then
        match (SextetValue(t[0]), SextetValue(t[1]))
        case (Some(v0), Some(v1)) => Some([Byte(v0 * 4 + v1 / 16)])
        case _ => None
      else
        match (SextetValue(t[0]), SextetValue(t[1]), SextetValue(t[2]))
        case (Some(v0), Some(v1), Some(v2)) => Some([Byte(v0 * 4 + v1 / 16), Byte((v1 % 16) * 16 + v2 / 4)])
        case _ => None
    else
      match (DecodeGroup(t[..4]), DecodeGroups(t[4..]))
      case (Some(g), Some(rest)) => Some(g + rest)
      case _ => None
  }

  lemma GroupArithmetic(b0: nat, b1: nat, b2: nat)
    requires b0 < 256 && b1 < 256 && b2 < 256
    ensures (b0 / 4) * 4 + ((b0 % 4) * 16 + b1 / 16) / 16 == b0
    ensures (((b0 % 4) * 16 + b1 / 16) % 16) * 16 + ((b1 % 16) * 4 + b2 / 64) / 4 == b1
    ensures (((b1 % 16) * 4 + b2 / 64) % 4) * 64 + b2 % 64 == b2
  {
    assert ((b0 % 4) * 16 + b1 / 16) / 16 == b0 % 4;
    assert ((b0 % 4) * 16 + b1 / 16) % 16 == b1 / 16;
    assert ((b1 % 16) * 4 + b2 / 64) / 4 == b1 % 16;
    assert ((b1 % 16) * 4 + b2 / 64) % 4 == b2 / 64;
  }

  lemma DecodeFullGroup(v0: nat, v1: nat, v2: nat, v3: nat)
    requires v0 < 64 && v1 < 64 && v2 < 64 && v3 < 64
    ensures DecodeGroup([Sextet(v0), Sextet(v1), Sextet(v2), Sextet(v3)])
         == Some([Byte(v0 * 4 + v1 / 16), Byte((v1 % 16) * 16 + v2 / 4), Byte((v2 % 4) * 64 + v3)])
  {
    SextetValueOfSextet(v0);
    SextetValueOfSextet(v1);
    SextetValueOfSextet(v2);
    SextetValueOfSextet(v3);
  }

  lemma DecodeEncodeGroup(b0: nat, b1: nat, b2: nat)
    requires b0 < 256 && b1 < 256 && b2 < 256
    ensures DecodeGroup(EncodeGroup(b0, b1, b2)) == Some([Byte(b0), Byte(b1), Byte(b2)])
  {
    var v0, v1, v2, v3 := b0 / 4, (b0 % 4) * 16 + b1 / 16, (b1 % 16) * 4 + b2 / 64, b2 % 64;
    assert EncodeGroup(b0, b1, b2) == [Sextet(v0), Sextet(v1), Sextet(v2), Sextet(v3)];
    DecodeFullGroup(v0, v1, v2, v3);
    var x0, x1, x2 := v0 * 4 + v1 / 16, (v1 % 16) * 16 + v2 / 4, (v2 % 4) * 64 + v3;
    assert x0 == b0 && x1 == b1 && x2 == b2 by {
      GroupArithmetic(b0, b1, b2);
    }
    assert [Byte(x0), Byte(x1), Byte(x2)] == [Byte(b0), Byte(b1), Byte(b2)];
  }

  lemma DecodeDoublePadded(v0: nat, v1: nat)
    requires v0 < 64 && v1 < 64
    ensures DecodeGroups([Sextet(v0), Sextet(v1), '=', '=']) == Some([Byte(v0 * 4 + v1 / 16)])
  {
    SextetValueOfSextet(v0);
    SextetValueOfSextet(v1);
  }

  lemma DecodeSinglePadded(v0: nat, v1: nat, v2: nat)
    requires v0 < 64 && v1 < 64 && v2 < 64
    ensures DecodeGroups([Sextet(v0), Sextet(v1), Sextet(v2), '='])
         == Some([Byte(v0 * 4 + v1 / 16), Byte((v1 % 16) * 16 + v2 / 4)])
  {
    SextetValueOfSextet(v0);
    SextetValueOfSextet(v1);
    SextetValueOfSextet(v2);
  }

  lemma DecodeEncodeLastOne(b0: nat)
    requires b0 < 256
    ensures DecodeGroups(EncodeLastOne(b0)) == Some([Byte(b0)])
  {
    var v0, v1 := b0 / 4, (b0 % 4) * 16;
    assert EncodeLastOne(b0) == [Sextet(v0), Sextet(v1), '=', '='];
    DecodeDoublePadded(v0, v1);
    assert v0 * 4 + v1 / 16 == b0 by {
      GroupArithmetic(b0, 0, 0);
    }
  }

  lemma DecodeEncodeOne(s: ByteString)
    requires |s| == 1
    ensures DecodeGroups(Encode(s)) == Some(s)
  {
    DecodeEncodeLastOne(s[0] as int);
    assert [Byte(s[0] as int)] == s;
  }

  lemma TwoBytesArithmetic(b0: nat, b1: nat)
    requires b0 < 256 && b1 < 256
    ensures (b0 / 4) * 4 + ((b0 % 4) * 16 + b1 / 16) / 16 == b0
    ensures (((b0 % 4) * 16 + b1 / 16) % 16) * 16 + ((b1 % 16) * 4) / 4 == b1
  {
    GroupArithmetic(b0, b1, 0);
  }

  lemma DecodeEncodeLastTwo(b0: nat, b1: nat)
    requires b0 < 256 && b1 < 256
    ensures DecodeGroups(EncodeLastTwo(b0, b1)) == Some([Byte(b0), Byte(b1)])
  {
    var v0, v1, v2 := b0 / 4, (b0 % 4) * 16 + b1 / 16, (b1 % 16) * 4;
    assert EncodeLastTwo(b0, b1) == [Sextet(v0), Sextet(v1), Sextet(v2), '='];
    DecodeSinglePadded(v0, v1, v2);
    var x0, x1 := v0 * 4 + v1 / 16, (v1 % 16) * 16 + v2 / 4;
    assert x0 == b0 && x1 == b1 by {
      TwoBytesArithmetic(b0, b1);
    }
    assert [Byte(x0), Byte(x1)] == [Byte(b0), Byte(b1)];
  }

  lemma DecodeEncodeTwo(s: ByteString)
    requires |s| == 2
    ensures DecodeGroups(Encode(s)) == Some(s)
  {
    var b0, b1 := s[0] as int, s[1] as int;
    assert Encode(s) == EncodeLastTwo(b0, b1);
    assert [Byte(b0), Byte(b1)] == s;
    DecodeEncodeLastTwo(b0, b1);
  }

  /** A full group followed by more input decodes group by group. */
  lemma DecodeFullGroupThen(g: string, rest: string)
    requires |g| == 4 && g[3] != '='
    ensures DecodeGroups(g + rest) ==
      if DecodeGroup(g).Some? && DecodeGroups(rest).Some? then Some(DecodeGroup(g).value + DecodeGroups(rest).value)
      else None
  {
    var t := g + rest;
    assert t[..4] == g && t[4..] == rest;
  }

  lemma EncodeFullGroup(s: ByteString)
    requires |s| >= 3
    ensures Encode(s) == EncodeGroup(s[0] as int, s[1] as int, s[2] as int) + Encode(s[3..])
  {
  }

  lemma SplitFirstThree(s: ByteString)
    requires |s| >= 3
    ensures [Byte(s[0] as int), Byte(s[1] as int), Byte(s[2] as int)] + s[3..] == s
  {
    assert Byte(s[0] as int) == s[0] && Byte(s[1] as int) == s[1] && Byte(s[2] as int) == s[2];
  }

  lemma DecodeEncodeStep(s: ByteString)
    requires |s| >= 3
    requires DecodeGroups(Encode(s[3..])) == Some(s[3..])
    ensures DecodeGroups(Encode(s)) == Some(s)
  {
    var b0, b1, b2 := s[0] as int, s[1] as int, s[2] as int;
    var g := EncodeGroup(b0, b1, b2);
    var rest := Encode(s[3..]);
    assert Encode(s) == g + rest by {
      EncodeFullGroup(s);
    }
    assert [Byte(b0), Byte(b1), Byte(b2)] + s[3..] == s by {
      SplitFirstThree(s);
    }
    assert DecodeGroup(g) == Some([Byte(b0), Byte(b1), Byte(b2)]) by {
      DecodeEncodeGroup(b0, b1, b2);
    }
    assert DecodeGroups(g + rest) == Some([Byte(b0), Byte(b1), Byte(b2)] + s[3..]) by {
      assert g[3] != '=' by {
        assert IsAlphabetChar(g[3]);
      }
      DecodeFullGroupThen(g, rest);
    }
  }

  lemma {:induction false} DecodeGroupsEncode(s: ByteString)
    ensures DecodeGroups(Encode(s)) == Some(s)
    decreases |s|
  {
    if |s| == 0 {
    } else if |s| == 1 {
      DecodeEncodeOne(s);
    } else if |s| == 2 {
      DecodeEncodeTwo(s);
    } else {
      DecodeGroupsEncode(s[3..]);
      DecodeEncodeStep(s);
    }
  }

  /** The characters PHP's strict decoder skips wherever they occur: tab, LF, CR and space. */
  predicate IsBase64Blank(c: char)
  {
    c == '\t' || c == '\n' || c == '\r' || c == ' '
  }

  /** The input with those characters removed and the rest kept in order. */
  function SkipBlanks(t: string): (r: string)
    ensures |r| <= |t|
    ensures forall i :: 0 <= i < |r| ==> !IsBase64Blank(r[i])
    ensures forall c :: c in r <==> c in t && !IsBase64Blank(c)
    ensures (forall i :: 0 <= i < |t| ==> !IsBase64Blank(t[i])) ==> r == t
    decreases |t|
  {
    if t == [] then []
    else
      assert forall c :: c in t <==> c == t[0] || c in t[1..];
      (if IsBase64Blank(t[0]) then [] else [t[0]]) + SkipBlanks(t[1..])
  }

  /**
   * base64_decode($s, true): tab, LF, CR and space are skipped, and the rest is decoded
   * strictly; None stands for PHP's false.
   */
  function Decode(t: string): (r: Option<string>)
    ensures r.Some? ==> IsByteString(r.value)
  {
    DecodeGroups(SkipBlanks(t))
  }

  /** Skipping blanks a second time changes nothing, so blanks never alter a decode. */
  lemma DecodeSkipsBlanks(t: string)
    ensures Decode(SkipBlanks(t)) == Decode(t)
  {
    var u := SkipBlanks(t);
    assert SkipBlanks(u) == u;
  }

  /** Blanks are skipped piecewise: the two halves of a string are cleaned separately. */
  lemma {:induction false} SkipBlanksAppend(a: string, b: string)
    ensures SkipBlanks(a + b) == SkipBlanks(a) + SkipBlanks(b)
    decreases |a|
  {
    if a == [] {
      assert a + b == b;
    } else {
      assert (a + b)[0] == a[0] && (a + b)[1..] == a[1..] + b;
      SkipBlanksAppend(a[1..], b);
    }
  }

  /** A blank after blank-free input does not change what it decodes to. */
  lemma DecodeWithTrailingBlank(body: string, c: char)
    requires IsBase64Blank(c)
    requires forall i :: 0 <= i < |body| ==> !IsBase64Blank(body[i])
    ensures Decode(body + [c]) == DecodeGroups(body)
  {
    var t := body + [c];
    assert SkipBlanks(t) == body by {
      SkipBlanksAppend(body, [c]);
      assert SkipBlanks(body) == body;
      assert [c][1..] == [];
      assert SkipBlanks([c]) == [] + SkipBlanks([c][1..]);
    }
  }

  /** A key with a trailing newline still decodes: "QTU=\n" reads as "A5". */
  lemma DecodeOfTrailingNewline()
    ensures Decode("QTU=\n") == Some("A5")
  {
    var body: string := [Sextet(16), Sextet(19), Sextet(20), '='];
    assert "QTU=\n" == body + ['\n'];
    DecodeWithTrailingBlank(body, '\n');
    DecodeSinglePadded(16, 19, 20);
    assert [Byte(16 * 4 + 19 / 16), Byte((19 % 16) * 16 + 20 / 4)] == "A5";
  }

  /** The strict decoder accepts every encoding and gives back the original bytes. */
  lemma DecodeEncode(s: ByteString)
    ensures Decode(Encode(s)) == Some(s)
  {
    var e := Encode(s);
    assert forall i :: 0 <= i < |e| ==> !IsBase64Blank(e[i]);
    DecodeGroupsEncode(s);
  }

  /** Distinct book sizes get distinct encodings. */
  lemma EncodeInjective(a: ByteString, b: ByteString)
    requires Encode(a) == Encode(b)
    ensures a == b
  {
    DecodeEncode(a);
    DecodeEncode(b);
  }

  // ------------------------------------------------------------ matrix keys

  /** The setting key under which the pricing matrix of a book size is stored. */
  function MatrixKey(bookSize: ByteString): (k: string)
    ensures |MatrixKeyPrefix| <= |k| && k[..|MatrixKeyPrefix|] == MatrixKeyPrefix
    ensures forall i :: |MatrixKeyPrefix| <= i < |k| ==> k[i] != '_'
  {
    MatrixKeyPrefix + Encode(bookSize)
  }

  /** Two book sizes share a matrix key only when they are the same size. */
  lemma MatrixKeyInjective(a: ByteString, b: ByteString)
    requires MatrixKey(a) == MatrixKey(b)
    ensures a == b
  {
    assert Encode(a) == MatrixKey(a)[|MatrixKeyPrefix|..];
    assert Encode(b) == MatrixKey(b)[|MatrixKeyPrefix|..];
    EncodeInjective(a, b);
  }

  /** The key built with sanitize_key() instead of base64 (the broken construction). */
  function SanitizedMatrixKey(bookSize: ByteString): string
  {
    MatrixKeyPrefix + SanitizeKey(bookSize)
  }

  /** For every non-empty size the sanitize_key() construction misses the stored key. */
  lemma {:induction false} SanitizedKeyDiffers(bookSize: ByteString)
    requires |bookSize| > 0
    ensures SanitizedMatrixKey(bookSize) != MatrixKey(bookSize)
  {
    assert |SanitizeKey(bookSize)| < |Encode(bookSize)|;
  }

  /** All sizes written in a non-Latin script collapse onto the one key "pricing_matrix_". */
  lemma {:induction false} SanitizedKeysCollide(a: ByteString, b: ByteString)
    requires forall i :: 0 <= i < |a| ==> a[i] as int >= 128
    requires forall i :: 0 <= i < |b| ==> b[i] as int >= 128
    ensures SanitizedMatrixKey(a) == SanitizedMatrixKey(b) == MatrixKeyPrefix
  {
    SanitizeKeyErasesHighBytes(a);
    SanitizeKeyErasesHighBytes(b);
  }

  // ------------------------------------------------------------ the consistency checks

  /** UTF-8 bytes of the Persian size names used as test cases. */
  const Roghei: ByteString := [0xD8 as char, 0xB1 as char, 0xD9 as char, 0x82 as char, 0xD8 as char, 0xB9 as char, 0xDB as char, 0x8C as char]
  const Vaziri: ByteString := [0xD9 as char, 0x88 as char, 0xD8 as char, 0xB2 as char, 0xDB as char, 0x8C as char, 0xD8 as char, 0xB1 as char, 0xDB as char, 0x8C as char]
  const Kheshti: ByteString := [0xD8 as char, 0xAE as char, 0xD8 as char, 0xB4 as char, 0xD8 as char, 0xAA as char, 0xDB as char, 0x8C as char]

  const EncodingCases: seq<ByteString> := ["A5", "A4", "B5", Roghei, Vaziri, Kheshti]
  const KeyCases: seq<ByteString> := ["A5", Roghei]

  /**
   * The encoding check: for each size, the encoding equals the expected one, the strict
   * decode of it is the size, and the round trip holds. It passes for every list of sizes.
   */
  method TestEncodingConsistency(cases: seq<ByteString>) returns (allPassed: bool)
    ensures allPassed
  {
    allPassed := true;
    var i := 0;
    while i < |cases|
      invariant 0 <= i <= |cases|
      invariant allPassed
    {
      var bookSize := cases[i];
      var expected := Encode(bookSize);
      var encoded := Encode(bookSize);
      var decoded := Decode(encoded);
      DecodeEncode(bookSize);
      var encodingOk := encoded == expected;
      var decodingOk := decoded == Some(bookSize);
      var roundTripOk := Decode(Encode(bookSize)) == Some(bookSize);
      if !encodingOk || !decodingOk || !roundTripOk {
        allPassed := false;
      }
      i := i + 1;
    }
  }

  /** The informational sanitize_key() expectations: "A5" becomes "a5", Persian names become "". */
  lemma SanitizeKeyCases()
    ensures SanitizeKey("A5") == "a5" && SanitizeKey("A4") == "a4"
    ensures SanitizeKey(Roghei) == "" && SanitizeKey(Vaziri) == "" && SanitizeKey(Kheshti) == ""
  {
    LatinSizesLowered();
    PersianSizesErased();
  }

  lemma LatinSizesLowered()
    ensures SanitizeKey("A5") == "a5" && SanitizeKey("A4") == "a4"
  {
    assert SanitizeKey("A5") == "a5" by {
      assert "A5"[1..] == "5" && "5"[1..] == [];
    }
    assert SanitizeKey("A4") == "a4" by {
      assert "A4"[1..] == "4" && "4"[1..] == [];
    }
  }

  lemma PersianSizesErased()
    ensures SanitizeKey(Roghei) == "" && SanitizeKey(Vaziri) == "" && SanitizeKey(Kheshti) == ""
  {
    SanitizeKeyErasesHighBytes(Roghei);
    SanitizeKeyErasesHighBytes(Vaziri);
    SanitizeKeyErasesHighBytes(Kheshti);
  }

  /**
   * The key-construction check: the base64 key matches the expected key for every case,
   * and the sanitize_key() key (shown as "should fail") never does.
   */
  method TestKeyConstruction(cases: seq<ByteString>) returns (allPassed: bool, brokenMatches: seq<bool>)
    ensures allPassed
    ensures |brokenMatches| == |cases|
    ensures forall i :: 0 <= i < |cases| && |cases[i]| > 0 ==> !brokenMatches[i]
  {
    allPassed := true;
    brokenMatches := [];
    var i := 0;
    while i < |cases|
      invariant 0 <= i <= |cases|
      invariant allPassed
      invariant |brokenMatches| == i
      invariant forall j :: 0 <= j < i && |cases[j]| > 0 ==> !brokenMatches[j]
    {
      var bookSize := cases[i];
      var expectedKey := MatrixKey(bookSize);
      var correctKey := MatrixKeyPrefix + Encode(bookSize);
      var brokenKey := SanitizedMatrixKey(bookSize);
      if |bookSize| > 0 {
        SanitizedKeyDiffers(bookSize);
      }
      brokenMatches := brokenMatches + [brokenKey == expectedKey];
      if correctKey != expectedKey {
        allPassed := false;
      }
      i := i + 1;
    }
  }

  /** array_reduce with && over the results, seeded with true. */
  function AllPassed(results: seq<bool>): (r: bool)
    ensures r <==> forall i :: 0 <= i < |results| ==> results[i]
  {
    if results == [] then true else AllPassed(results[..|results| - 1]) && results[|results| - 1]
  }

  /** The exit status: 0 when every check passed, 1 otherwise. */
  function ExitStatus(results: seq<bool>): (code: int)
    ensures code == 0 <==> forall i :: 0 <= i < |results| ==> results[i]
    ensures code == 0 || code == 1
  {
    if AllPassed(results) then 0 else 1
  }

  /** The suite as run on its own cases: it always exits with status 0. */
  method RunTests() returns (code: int)
    ensures code == 0
  {
    var encoding := TestEncodingConsistency(EncodingCases);
    SanitizeKeyCases();
    var keyConstruction, _ := TestKeyConstruction(KeyCases);
    code := ExitStatus([encoding, keyConstruction]);
  }
}
