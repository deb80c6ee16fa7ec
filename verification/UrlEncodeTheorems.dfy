/** What urlEncode promises: it loses nothing, it is percent-encoding exactly where `char` cannot bite, and it fits. */
module UrlEncodeTheorems {
  import opened Basics
  import opened UrlEncode

  // ---- the shape of a code word -------------------------------------------------------------------------------

  predicate High(b: Byte) {
    b >= 128
  }

  lemma HexOfTwo(v: nat)
    requires 16 <= v < 256
    ensures Hex(v) == [Digit(v / 16), Digit(v % 16)]
  {
  }

  lemma HexOfEight(b: Byte)
    requires High(b)
    ensures Hex(0xFFFFFF00 + b) == "FFFFFF" + [Digit(b / 16), Digit(b % 16)]
  {
    assert Hex(0xFF) == "FF";
    assert Hex(0xFFF) == "FFF";
    assert Hex(0xFFFF) == "FFFF";
    assert Hex(0xFFFFF) == "FFFFF";
    assert Hex(0xFFFFFF) == "FFFFFF";
    var v := 0xFFFFFF0 + b / 16;
    assert v / 16 == 0xFFFFFF && v % 16 == b / 16;
    assert Hex(v) == "FFFFFF" + [Digit(b / 16)];
  }

  lemma WordDigits(b: Byte, signedChar: bool)
    ensures RfcUnreserved(b) ==> CodeWord(b, signedChar) == [b as char]
    ensures !RfcUnreserved(b) && !(signedChar && High(b)) ==>
              CodeWord(b, signedChar) == ['%', Digit(b / 16), Digit(b % 16)]
    ensures !RfcUnreserved(b) && signedChar && High(b) ==>
              CodeWord(b, signedChar) == "%FFFFFF" + [Digit(b / 16), Digit(b % 16)]
  {
    UnreservedIsTheRfcs(b);
    if signedChar && High(b) {
      HexOfEight(b);
    } else if b >= 16 {
      HexOfTwo(b);
    }
  }

  lemma DigitIs(d: nat)
    requires d < 16
    ensures Digit(d) == HEX_DIGITS[d]
  {
    assert HEX_DIGITS[..10] == "0123456789" && HEX_DIGITS[10..] == "ABCDEF";
  }

  /** One, three or nine characters: the byte itself if and only if it is unreserved, else `%` and its two digits, with
      six Fs before them for a high byte of a signed `char`. */
  lemma CodeWordShape(b: Byte, signedChar: bool)
    ensures CodeWord(b, signedChar) == [b as char] <==> RfcUnreserved(b)
    ensures !RfcUnreserved(b) && !(signedChar && High(b)) ==>
              CodeWord(b, signedChar) == ['%', HEX_DIGITS[b / 16], HEX_DIGITS[b % 16]]
    ensures !RfcUnreserved(b) && signedChar && High(b) ==>
              CodeWord(b, signedChar) == "%FFFFFF" + [HEX_DIGITS[b / 16], HEX_DIGITS[b % 16]]
  {
    WordDigits(b, signedChar);
    CodeWordIsTheByte(b, signedChar);
    DigitIs(b / 16);
    DigitIs(b % 16);
    hide CodeWord, Digit, RfcUnreserved;
  }

  predicate UpperHex(c: char) {
    '0' <= c <= '9' || 'A' <= c <= 'F'
  }

  lemma DigitValue(d: nat)
    requires d < 16
    ensures HexValue(Digit(d)) == Some(d) && UpperHex(Digit(d))
    ensures Digit(d) != '%' && RfcUnreserved(Digit(d) as int)
  {
  }

  lemma {:induction false} EncodeConcat(a: seq<Byte>, b: seq<Byte>, signedChar: bool)
    ensures Encode(a + b, signedChar) == Encode(a, signedChar) + Encode(b, signedChar)
    decreases |b|
  {
    hide CodeWord;
    if b == [] {
      assert a + b == a;
    } else {
      var m, e := ButLast(b), Last(b);
      EncodeConcat(a, m, signedChar);
      assert b == m + [e] && a + b == (a + m) + [e];
      hide Encode;
      EncodeAppend(m, e, signedChar);
      EncodeAppend(a + m, e, signedChar);
    }
  }

  lemma EncodeHead(s: seq<Byte>, signedChar: bool)
    requires s != []
    ensures Encode(s, signedChar) == CodeWord(s[0], signedChar) + Encode(s[1..], signedChar)
  {
    hide CodeWord;
    EncodeAppend([], s[0], signedChar);
    EncodeConcat([s[0]], s[1..], signedChar);
    assert [] + [s[0]] == [s[0]] && s == [s[0]] + s[1..];
  }

  // ---- nothing is lost ----------------------------------------------------------------------------------------

  /** Reads one code word off the front of a text. */
  function Parse(s: string, signedChar: bool): (r: Option<(Byte, string)>)
    ensures r.Some? ==> |r.value.1| < |s|
  {
    if s == [] then None
    else if s[0] != '%' then (if s[0] as int < 256 then Some((s[0] as int, s[1..])) else None)
    else if signedChar && |s| >= 9 && s[1] == 'F' then Two(s[7], s[8], s[9..])
    else if |s| >= 3 then Two(s[1], s[2], s[3..])
    else None
  }

  function Two(hi: char, lo: char, rest: string): (r: Option<(Byte, string)>)
    ensures r.Some? ==> r.value.1 == rest
  {
    match (HexValue(hi), HexValue(lo))
    case (Some(h), Some(l)) => if 16 * h + l < 256 then Some((16 * h + l, rest)) else None
    case _ => None
  }

  lemma ParseInverts(b: Byte, rest: string, signedChar: bool)
    ensures Parse(CodeWord(b, signedChar) + rest, signedChar) == Some((b, rest))
  {
    WordDigits(b, signedChar);
    DigitValue(b / 16);
    DigitValue(b % 16);
    var w := CodeWord(b, signedChar) + rest;
    if RfcUnreserved(b) {
      assert w[1..] == rest;
    } else if signedChar && High(b) {
      assert w[9..] == rest;
    } else {
      assert w[3..] == rest;
    }
  }

  /** The code words form a prefix code, the nine-character ones of a signed `char` included. */
  lemma PrefixFree(a: Byte, b: Byte, signedChar: bool)
    requires CodeWord(a, signedChar) <= CodeWord(b, signedChar)
    ensures a == b
  {
    var rest := CodeWord(b, signedChar)[|CodeWord(a, signedChar)|..];
    assert CodeWord(b, signedChar) == CodeWord(a, signedChar) + rest;
    assert CodeWord(b, signedChar) == CodeWord(b, signedChar) + [];
    ParseInverts(a, rest, signedChar);
    ParseInverts(b, [], signedChar);
  }

  /** urlEncode is injective on all byte strings, whatever the sign of `char`. */
  lemma {:induction false} Injective(x: seq<Byte>, y: seq<Byte>, signedChar: bool)
    requires Encode(x, signedChar) == Encode(y, signedChar)
    ensures x == y
    decreases |x|
  {
    if x == [] || y == [] {
      LengthBounds(x, signedChar);
      LengthBounds(y, signedChar);
    } else {
      EncodeHead(x, signedChar);
      EncodeHead(y, signedChar);
      ParseInverts(x[0], Encode(x[1..], signedChar), signedChar);
      ParseInverts(y[0], Encode(y[1..], signedChar), signedChar);
      Injective(x[1..], y[1..], signedChar);
      assert x == [x[0]] + x[1..] && y == [y[0]] + y[1..];
    }
  }

  // ---- percent-decoding ---------------------------------------------------------------------------------------

  /** Section 2.1 of RFC 3986: a triple `%` HEXDIG HEXDIG stands for one byte, any other character for itself. */
  function Decode(s: string): Option<seq<Byte>> {
    if s == [] then Some([])
    else if s[0] == '%' then
      if |s| < 3 then None
      else match (HexValue(s[1]), HexValue(s[2]), Decode(s[3..]))
        case (Some(h), Some(l), Some(rest)) => if 16 * h + l < 256 then Some([16 * h + l] + rest) else None
        case _ => None
    else if s[0] as int >= 256 then None
    else match Decode(s[1..])
      case Some(rest) => Some([s[0] as int] + rest)
      case None => None
  }

  function After(first: seq<Byte>, rest: Option<seq<Byte>>): Option<seq<Byte>> {
    if rest.Some? then Some(first + rest.value) else None
  }

  predicate Plain(c: char) {
    c != '%' && c as int < 256
  }

  lemma DecodePlain(c: char, rest: string)
    requires Plain(c)
    ensures Decode([c] + rest) == After([c as int], Decode(rest))
  {
    assert ([c] + rest)[1..] == rest;
  }

  lemma DecodeTriple(b: Byte, rest: string)
    ensures Decode(['%', Digit(b / 16), Digit(b % 16)] + rest) == After([b], Decode(rest))
  {
    DigitValue(b / 16);
    DigitValue(b % 16);
    assert (['%', Digit(b / 16), Digit(b % 16)] + rest)[3..] == rest;
  }

  lemma DecodeLow(b: Byte, signedChar: bool, rest: string)
    requires !(signedChar && High(b))
    ensures Decode(CodeWord(b, signedChar) + rest) == After([b], Decode(rest))
  {
    WordDigits(b, signedChar);
    if RfcUnreserved(b) {
      DecodePlain(b as char, rest);
    } else {
      DecodeTriple(b, rest);
    }
  }

  lemma {:induction false} DecodePlains(p: string, rest: string)
    requires forall i | 0 <= i < |p| :: Plain(p[i])
    requires Decode(rest).Some?
    ensures Decode(p + rest).Some? && |Decode(p + rest).value| == |p| + |Decode(rest).value|
    decreases |p|
  {
    if p == [] {
      assert p + rest == rest;
    } else {
      DecodePlains(p[1..], rest);
      DecodePlain(p[0], p[1..] + rest);
      hide Decode;
      assert p + rest == [p[0]] + (p[1..] + rest);
    }
  }

  lemma DecodeNine(hi: char, lo: char, rest: string)
    requires Plain(hi) && Plain(lo) && Decode(rest).Some?
    ensures var s := "%FFFFFF" + [hi, lo] + rest;
            Decode(s).Some? && |Decode(s).value| == 7 + |Decode(rest).value|
  {
    var p := "FFFF" + [hi, lo];
    DigitFifteen();
    hide Decode, Digit;
    DecodePlains(p, rest);
    DecodeTriple(255, p + rest);
    assert "%FFFFFF" + [hi, lo] + rest == ['%', 'F', 'F'] + (p + rest);
  }

  /** The nine characters of a high byte under a signed `char` decode to seven bytes. */
  lemma DecodeHigh(b: Byte, rest: string)
    requires High(b) && Decode(rest).Some?
    ensures Decode(CodeWord(b, true) + rest).Some?
    ensures |Decode(CodeWord(b, true) + rest).value| == 7 + |Decode(rest).value|
  {
    WordDigits(b, true);
    DigitValue(b / 16);
    DigitValue(b % 16);
    HighIsReserved(b);
    DecodeNine(Digit(b / 16), Digit(b % 16), rest);
    hide Decode, CodeWord, Digit, RfcUnreserved;
  }

  lemma HighIsReserved(b: Byte)
    requires High(b)
    ensures !RfcUnreserved(b)
  {
  }

  lemma DigitFifteen()
    ensures Digit(15) == 'F'
  {
  }

  function Highs(s: seq<Byte>): nat {
    if s == [] then 0 else (if High(s[0]) then 1 else 0) + Highs(s[1..])
  }

  lemma {:induction false} NoHighs(s: seq<Byte>)
    ensures Highs(s) == 0 <==> forall b | b in s :: !High(b)
  {
    if s != [] {
      NoHighs(s[1..]);
      assert s == [s[0]] + s[1..];
    }
  }

  lemma {:induction false} DecodesWhenPlain(s: seq<Byte>, signedChar: bool)
    requires !signedChar || Highs(s) == 0
    ensures Decode(Encode(s, signedChar)) == Some(s)
    decreases |s|
  {
    if s == [] {
      assert Encode(s, signedChar) == [];
    } else {
      hide Decode, Encode, CodeWord, High;
      var b, rest := s[0], s[1..];
      assert s == [b] + rest;
      EncodeHead(s, signedChar);
      DecodesWhenPlain(rest, signedChar);
      DecodeLow(b, signedChar, Encode(rest, signedChar));
    }
  }

  lemma {:induction false} DecodedLength(s: seq<Byte>)
    ensures Decode(Encode(s, true)).Some? && |Decode(Encode(s, true)).value| == |s| + 6 * Highs(s)
    decreases |s|
  {
    if s != [] {
      EncodeHead(s, true);
      DecodedLength(s[1..]);
      if High(s[0]) {
        DecodeHigh(s[0], Encode(s[1..], true));
      } else {
        DecodeLow(s[0], true, Encode(s[1..], true));
      }
    }
  }

  /** Percent-decoding gives the input back exactly when `char` is unsigned or no byte is above 127. With a signed
      `char` a single such byte breaks the round trip. */
  lemma RoundTripExactlyWhen(s: seq<Byte>, signedChar: bool)
    ensures Decode(Encode(s, signedChar)) == Some(s) <==> !signedChar || forall b | b in s :: !High(b)
  {
    NoHighs(s);
    if !signedChar || Highs(s) == 0 {
      DecodesWhenPlain(s, signedChar);
    } else {
      DecodedLength(s);
    }
  }

  lemma OneByte(b: Byte, signedChar: bool)
    ensures Encode([b], signedChar) == CodeWord(b, signedChar)
  {
    hide CodeWord;
    EncodeAppend([], b, signedChar);
    assert [] + [b] == [b];
  }

  /** The byte C3, as in the UTF-8 form of an accented letter, on a platform whose `char` is signed. */
  lemma SignedCharBreaksUtf8()
    ensures Encode([0xC3], true) == "%FFFFFFC3" && Encode([0xC3], false) == "%C3"
    ensures Decode(Encode([0xC3], true)) != Some([0xC3])
  {
    hide Decode, CodeWord, Encode, HexValue;
    OneByte(0xC3, true);
    OneByte(0xC3, false);
    WordDigits(0xC3, true);
    WordDigits(0xC3, false);
    RoundTripExactlyWhen([0xC3], true);
    assert Digit(0xC) == 'C' && Digit(3) == '3';
  }

  // ---- the text itself ----------------------------------------------------------------------------------------

  /** Only unreserved characters and triples of `%` and two upper-case digits. */
  predicate PercentText(s: string) {
    || s == []
    || (RfcUnreserved(s[0] as int) && PercentText(s[1..]))
    || (s[0] == '%' && |s| >= 3 && UpperHex(s[1]) && UpperHex(s[2]) && PercentText(s[3..]))
  }

  lemma {:induction false} PlainText(p: string, rest: string)
    requires (forall i | 0 <= i < |p| :: RfcUnreserved(p[i] as int)) && PercentText(rest)
    ensures PercentText(p + rest)
    decreases |p|
  {
    if p == [] {
      assert p + rest == rest;
    } else {
      PlainText(p[1..], rest);
      assert (p + rest)[1..] == p[1..] + rest;
    }
  }

  lemma TripleText(hi: char, lo: char, rest: string)
    requires UpperHex(hi) && UpperHex(lo) && PercentText(rest)
    ensures PercentText(['%', hi, lo] + rest)
  {
    assert (['%', hi, lo] + rest)[3..] == rest;
  }

  lemma HighText(hi: char, lo: char, rest: string)
    requires UpperHex(hi) && UpperHex(lo) && PercentText(rest)
    ensures PercentText("%FFFFFF" + [hi, lo] + rest)
  {
    var p := "FFFF" + [hi, lo];
    PlainText(p, rest);
    TripleText('F', 'F', p + rest);
    hide PercentText;
    assert "%FFFFFF" + [hi, lo] + rest == ['%', 'F', 'F'] + (p + rest);
  }

  lemma WordText(b: Byte, signedChar: bool, rest: string)
    requires PercentText(rest)
    ensures PercentText(CodeWord(b, signedChar) + rest)
  {
    hide CodeWord, PercentText, Digit, HexValue, UpperHex;
    WordDigits(b, signedChar);
    DigitValue(b / 16);
    DigitValue(b % 16);
    if RfcUnreserved(b) {
      PlainText([b as char], rest);
    } else if signedChar && High(b) {
      HighText(Digit(b / 16), Digit(b % 16), rest);
    } else {
      TripleText(Digit(b / 16), Digit(b % 16), rest);
    }
  }

  lemma {:induction false} OutputIsPercentText(s: seq<Byte>, signedChar: bool)
    ensures PercentText(Encode(s, signedChar))
    decreases |s|
  {
    if s != [] {
      EncodeHead(s, signedChar);
      OutputIsPercentText(s[1..], signedChar);
      hide Encode, CodeWord, PercentText;
      WordText(s[0], signedChar, Encode(s[1..], signedChar));
    }
  }

  /** Between n and 3n characters for an unsigned `char`, at most 9n for a signed one. */
  lemma {:induction false} LengthBounds(s: seq<Byte>, signedChar: bool)
    ensures |s| <= |Encode(s, signedChar)| <= (if signedChar then 9 else 3) * |s|
    decreases |s|
  {
    if s != [] {
      EncodeHead(s, signedChar);
      WordDigits(s[0], signedChar);
      LengthBounds(s[1..], signedChar);
    }
  }
}
