/** urlEncode (src/StrUtil.cpp) for both readings of `char`, against percent-encoding as section 2.1 of RFC 3986
    defines it. Bytes are numbers below 256; text is a string of one-byte characters. */
module UrlEncode {
  import opened Basics

  type Byte = b: nat | b < 256

  // ---- characters ---------------------------------------------------------------------------------------------

  /** `isalnum` in the C locale, or one of `-`, `_`, `.`, `~`. */
  predicate Unreserved(b: int) {
    || ('0' as int <= b <= '9' as int)
    || ('A' as int <= b <= 'Z' as int)
    || ('a' as int <= b <= 'z' as int)
    || b == '-' as int || b == '_' as int || b == '.' as int || b == '~' as int
  }

  /** The unreserved set of section 2.3 of RFC 3986 by code point: DIGIT, ALPHA, hyphen, period, underscore, tilde. */
  predicate RfcUnreserved(cp: int) {
    48 <= cp <= 57 || 65 <= cp <= 90 || 97 <= cp <= 122 || cp == 45 || cp == 46 || cp == 95 || cp == 126
  }

  lemma UnreservedIsTheRfcs(b: int)
    ensures Unreserved(b) <==> RfcUnreserved(b)
  {
  }

  const HEX_DIGITS := "0123456789ABCDEF"

  function Digit(d: nat): (c: char)
    requires d < 16
  {
    if d < 10 then ('0' as int + d) as char else ('A' as int + d - 10) as char
  }

  /** A hexadecimal digit of either case, as section 2.1 of RFC 3986 reads them. */
  function HexValue(c: char): Option<nat> {
    if '0' <= c <= '9' then Some(c as int - '0' as int)
    else if 'A' <= c <= 'F' then Some(c as int - 'A' as int + 10)
    else if 'a' <= c <= 'f' then Some(c as int - 'a' as int + 10)
    else None
  }

  /** What `%X` prints: the digits of v without leading zeros. */
  function Hex(v: nat): (s: string)
    ensures s != []
  {
    if v < 16 then [Digit(v)] else Hex(v / 16) + [Digit(v % 16)]
  }

  /** The argument `sprintf` sees: a signed char above 127 is a negative int, read back as a 32-bit unsigned. */
  function Promote(b: Byte, signedChar: bool): (v: nat)
    ensures v < 0x1_0000_0000
  {
    if signedChar && b >= 128 then 0x1_0000_0000 + b - 256 else b
  }

  function CodeWord(b: Byte, signedChar: bool): string {
    if Unreserved(b) then [b as char]
    else (if b < 16 then "%0" else "%") + Hex(Promote(b, signedChar))
  }

  function Encode(s: seq<Byte>, signedChar: bool): string {
    if s == [] then [] else Encode(ButLast(s), signedChar) + CodeWord(Last(s), signedChar)
  }

  lemma EncodeAppend(s: seq<Byte>, b: Byte, signedChar: bool)
    ensures Encode(s + [b], signedChar) == Encode(s, signedChar) + CodeWord(b, signedChar)
  {
    hide CodeWord;
    assert ButLast(s + [b]) == s;
  }

  // ---- the loop -----------------------------------------------------------------------------------------------

  /** `sprintf(bufHex, "%X", v)`: the digits and a terminating NUL, inside the ten bytes there are. */
  method SprintfX(bufHex: array<char>, v: nat) returns (n: nat)
    requires bufHex.Length == 10 && v < 0x1_0000_0000
    modifies bufHex
    ensures n < 10 && bufHex[..n] == Hex(v) && bufHex[n] == '\0'
  {
    HexLength(v);
    n := HexLen(v);
    var i, rest := n, v;
    bufHex[n] := '\0';
    while i > 0
      invariant 0 <= i <= n && bufHex[n] == '\0'
      invariant i > 0 ==> Hex(v) == Hex(rest) + bufHex[i..n] && HexLen(rest) == i
      invariant i == 0 ==> Hex(v) == bufHex[..n]
    {
      i := i - 1;
      bufHex[i] := Digit(rest % 16);
      rest := rest / 16;
      assert bufHex[i..n] == [bufHex[i]] + bufHex[i + 1..n];
    }
  }

  function HexLen(v: nat): (n: nat)
    ensures n >= 1
  {
    if v < 16 then 1 else 1 + HexLen(v / 16)
  }

  lemma HexLength(v: nat)
    requires v < 0x1_0000_0000
    ensures |Hex(v)| == HexLen(v) <= 8
  {
    HexLenIs(v);
    HexLenBound(v, 8);
  }

  lemma {:induction false} HexLenIs(v: nat)
    ensures |Hex(v)| == HexLen(v)
  {
    if v >= 16 {
      HexLenIs(v / 16);
    }
  }

  function Pow16(k: nat): nat {
    if k == 0 then 1 else 16 * Pow16(k - 1)
  }

  lemma {:induction false} HexLenBound(v: nat, k: nat)
    requires k >= 1 && v < Pow16(k)
    ensures HexLen(v) <= k
    decreases k
  {
    if v >= 16 {
      HexLenBound(v / 16, k - 1);
    }
  }

  /** A byte stays as it is if and only if it is unreserved. */
  lemma CodeWordIsTheByte(b: Byte, signedChar: bool)
    ensures CodeWord(b, signedChar) == [b as char] <==> RfcUnreserved(b)
  {
    UnreservedIsTheRfcs(b);
  }

  /** The loop body of urlEncode: appends the code word of one byte. */
  method AppendByte(c: Byte, signedChar: bool, bufHex: array<char>, before: string) returns (result: string)
    requires bufHex.Length == 10
    modifies bufHex
    ensures result == before + CodeWord(c, signedChar)
    ensures RfcUnreserved(c) ==> result == before + [c as char]
    ensures !RfcUnreserved(c) ==> |result| > |before| + 1 && result[|before|] == '%'
  {
    UnreservedIsTheRfcs(c);
    hide Hex, RfcUnreserved;
    result := before;
    if Unreserved(c) {
      result := result + [c as char];
    } else {
      var n := SprintfX(bufHex, Promote(c, signedChar));
      if c < 16 {
        result := result + "%0";
      } else {
        result := result + "%";
      }
      result := result + bufHex[..n];
    }
  }

  method UrlEncode(str: seq<Byte>, signedChar: bool) returns (result: string)
    ensures result == Encode(str, signedChar)
  {
    hide CodeWord, Hex;
    result := "";
    var bufHex := new char[10];
    var i := 0;
    while i < |str|
      invariant 0 <= i <= |str|
      invariant result == Encode(str[..i], signedChar)
    {
      EncodeAppend(str[..i], str[i], signedChar);
      assert str[..i + 1] == str[..i] + [str[i]];
      result := AppendByte(str[i], signedChar, bufHex, result);
      i := i + 1;
    }
    assert str[..|str|] == str;
  }
}
