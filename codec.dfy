/**
 * The byte encodings bitdb converts between: hex, utf8 and base64. The source
 * reaches them through iconv-lite and Node's Buffer; here each encoding is a
 * pair of explicit functions, one reading text as bytes (`iconv.encode(text, enc)`)
 * and one writing bytes as text (`buffer.toString(enc)`).
 */
module Codec {

  /** A byte, as the integer 0..255. */
  type Byte = b: int | 0 <= b < 0x100

  /** The value of one base64 digit. */
  type Sextet = v: int | 0 <= v < 64

  /** The encoding names a schema may give. */
  datatype Enc = Hex | Utf8 | Base64

  /**
   * `iconv.encode(s, enc)`: the bytes that the text s stands for in enc. Hex and base64
   * text shrinks into bytes; utf8 text takes one to four bytes per character.
   */
  function ToBytes(s: string, enc: Enc): (b: seq<Byte>)
    ensures enc == Hex ==> 2 * |b| <= |s|
    ensures enc == Base64 ==> 4 * |b| <= 3 * |s|
    ensures enc == Utf8 ==> |s| <= |b| <= 4 * |s|
  {
    match enc
    case Hex => HexDecode(s)
    case Utf8 => Utf8Encode(s)
    case Base64 => Base64Decode(s)
  }

  /**
   * `buffer.toString(enc)`: the bytes b written as text in enc. Hex takes two characters
   * per byte, base64 four per started group of three, utf8 at most one per byte.
   */
  function Render(b: seq<Byte>, enc: Enc): (s: string)
    ensures enc == Hex ==> |s| == 2 * |b|
    ensures enc == Base64 ==> |s| == 4 * ((|b| + 2) / 3)
    ensures enc == Utf8 ==> |s| <= |b|
  {
    match enc
    case Hex => HexEncode(b)
    case Utf8 => Utf8Decode(b)
    case Base64 => Base64Encode(b)
  }

  // ---------------------------------------------------------------------------
  // base16, section 8 of RFC 4648

  predicate IsHexDigit(c: char)
  {
    '0' <= c <= '9' || 'a' <= c <= 'f' || 'A' <= c <= 'F'
  }

  function HexValue(c: char): (v: int)
    requires IsHexDigit(c)
    ensures 0 <= v < 16
  {
    if '0' <= c <= '9' then c as int - '0' as int
    else if 'a' <= c <= 'f' then c as int - 'a' as int + 10
    else c as int - 'A' as int + 10
  }

  /** The lower-case digit that Buffer writes for v. */
  function HexDigit(v: int): (c: char)
    requires 0 <= v < 16
    ensures IsHexDigit(c) && HexValue(c) == v
  {
    if v < 10 then ('0' as int + v) as char else ('a' as int + v - 10) as char
  }

  /** `buffer.toString("hex")`: two lower-case digits per byte, high nibble first. */
  function HexEncode(b: seq<Byte>): (s: string)
    ensures |s| == 2 * |b|
  {
    if b == [] then [] else [HexDigit(b[0] / 16), HexDigit(b[0] % 16)] + HexEncode(b[1..])
  }

  /**
   * `Buffer.from(s, "hex")`: reads two digits per byte, either case, and stops at the
   * first pair that is not two hex digits; a lone trailing digit is dropped.
   */
  function HexDecode(s: string): (b: seq<Byte>)
    ensures |b| <= |s| / 2
  {
    if |s| < 2 || !IsHexDigit(s[0]) || !IsHexDigit(s[1]) then []
    else [HexValue(s[0]) * 16 + HexValue(s[1])] + HexDecode(s[2..])
  }

  /** Decoding what was encoded gives back the bytes. */
  lemma {:induction false} HexRoundTrip(b: seq<Byte>)
    ensures HexDecode(HexEncode(b)) == b
  {
    if b != [] {
      var s := HexEncode(b);
      assert s[2..] == HexEncode(b[1..]);
      HexRoundTrip(b[1..]);
    }
  }

  /**
   * What HexDecode reads, stated without recursion: byte i comes from characters 2i and
   * 2i+1, every character before the stopping point is a hex digit, and decoding stops
   * only at the end of the text or at a pair that is not two digits.
   */
  lemma {:induction false} HexDecodeReadsPairs(s: string)
    ensures var b := HexDecode(s);
      && (forall i :: 0 <= i < |b| ==>
            (IsHexDigit(s[2 * i]) && IsHexDigit(s[2 * i + 1])
             && b[i] == HexValue(s[2 * i]) * 16 + HexValue(s[2 * i + 1])))
      && (2 * |b| + 1 < |s| ==> !IsHexDigit(s[2 * |b|]) || !IsHexDigit(s[2 * |b| + 1]))
  {
    var b := HexDecode(s);
    forall i | 0 <= i < |b|
      ensures IsHexDigit(s[2 * i]) && IsHexDigit(s[2 * i + 1])
           && b[i] == HexValue(s[2 * i]) * 16 + HexValue(s[2 * i + 1])
    {
      HexDecodePair(s, i);
    }
    HexDecodeStop(s);
  }

  /** Byte i of the decoding comes from characters 2i and 2i+1, both hex digits. */
  lemma {:induction false} HexDecodePair(s: string, i: nat)
    requires i < |HexDecode(s)|
    ensures 2 * i + 1 < |s| && IsHexDigit(s[2 * i]) && IsHexDigit(s[2 * i + 1])
    ensures HexDecode(s)[i] == HexValue(s[2 * i]) * 16 + HexValue(s[2 * i + 1])
  {
    if i > 0 {
      var t := s[2..];
      assert HexDecode(s) == [HexValue(s[0]) * 16 + HexValue(s[1])] + HexDecode(t);
      HexDecodePair(t, i - 1);
      assert HexDecode(s)[i] == HexDecode(t)[i - 1];
      assert s[2 * i] == t[2 * (i - 1)] && s[2 * i + 1] == t[2 * (i - 1) + 1];
    }
  }

  /** Decoding stops at the end of the text or at a pair that is not two hex digits. */
  lemma {:induction false} HexDecodeStop(s: string)
    ensures var n := |HexDecode(s)|;
      2 * n + 1 < |s| ==> !IsHexDigit(s[2 * n]) || !IsHexDigit(s[2 * n + 1])
  {
    if 2 <= |s| && IsHexDigit(s[0]) && IsHexDigit(s[1]) {
      var t := s[2..];
      HexDecodeStop(t);
      var n := |HexDecode(t)|;
      assert |HexDecode(s)| == n + 1;
      assert 2 * (n + 1) + 1 < |s| ==> s[2 * (n + 1)] == t[2 * n] && s[2 * (n + 1) + 1] == t[2 * n + 1];
    }
  }

  // ---------------------------------------------------------------------------
  // base64, section 4 of RFC 4648

  /** The standard alphabet plus the URL-safe '-' and '_', all of which Buffer accepts. */
  predicate IsBase64Char(c: char)
  {
    'A' <= c <= 'Z' || 'a' <= c <= 'z' || '0' <= c <= '9' || c == '+' || c == '/' || c == '-' || c == '_'
  }

  function Base64Value(c: char): (v: Sextet)
    requires IsBase64Char(c)
  {
    if 'A' <= c <= 'Z' then c as int - 'A' as int
    else if 'a' <= c <= 'z' then c as int - 'a' as int + 26
    else if '0' <= c <= '9' then c as int - '0' as int + 52
    else if c == '+' || c == '-' then 62
    else 63
  }

  /** The digit of the standard alphabet for v. */
  function Base64Digit(v: Sextet): (c: char)
    ensures IsBase64Char(c) && Base64Value(c) == v
    ensures v == 62 ==> c == '+'
    ensures v == 63 ==> c == '/'
  {
    if v < 26 then ('A' as int + v) as char
    else if v < 52 then ('a' as int + v - 26) as char
    else if v < 62 then ('0' as int + v - 52) as char
    else if v == 62 then '+'
    else '/'
  }

  /** `buffer.toString("base64")`: four digits per three bytes, the last group padded with '='. */
  function Base64Encode(b: seq<Byte>): (s: string)
    ensures |s| == 4 * ((|b| + 2) / 3)
  {
    PaddingFills(|b|);
    Spell(Groups(b)) + Padding(|b|)
  }

  /** The encoding is whole groups of four characters. */
  lemma Base64Padded(b: seq<Byte>)
    ensures |Base64Encode(b)| % 4 == 0
  {
    var groups := (|b| + 2) / 3;
    assert |Base64Encode(b)| == 4 * groups;
  }

  /** The digits of b, three bytes to four digits, a short last group filled with zero bits. */
  function Groups(b: seq<Byte>): (v: seq<Sextet>)
    ensures |v| == (4 * |b| + 2) / 3
  {
    if |b| == 0 then []
    else if |b| == 1 then [Digit0(b[0]), Digit1(b[0], 0)]
    else if |b| == 2 then [Digit0(b[0]), Digit1(b[0], b[1]), Digit2(b[1], 0)]
    else [Digit0(b[0]), Digit1(b[0], b[1]), Digit2(b[1], b[2]), Digit3(b[2])] + Groups(b[3..])
  }

  /** The '=' characters that fill the last group to four. */
  function Padding(n: nat): string
  {
    if n >= 3 then Padding(n - 3) else if n == 1 then "==" else if n == 2 then "=" else ""
  }

  /** Padding brings n up to a multiple of three and is made of '=' only. */
  lemma {:induction false} PaddingFills(n: nat)
    ensures |Padding(n)| == (3 - n % 3) % 3
    ensures Padding(n) == [] || Padding(n)[0] == '='
  {
    if n >= 3 {
      PaddingFills(n - 3);
    }
  }

  /** The first digit of a group: the top six bits of its first byte. */
  function Digit0(b0: Byte): Sextet
  {
    b0 / 4
  }

  /** The second digit: the low two bits of the first byte, the top four of the second. */
  function Digit1(b0: Byte, b1: Byte): Sextet
  {
    (b0 % 4) * 16 + b1 / 16
  }

  /** The third digit: the low four bits of the second byte, the top two of the third. */
  function Digit2(b1: Byte, b2: Byte): Sextet
  {
    (b1 % 16) * 4 + b2 / 64
  }

  /** The fourth digit: the low six bits of the third byte. */
  function Digit3(b2: Byte): Sextet
  {
    b2 % 64
  }

  /** The characters of the standard alphabet for the digits v. */
  function Spell(v: seq<Sextet>): (s: string)
    ensures |s| == |v|
  {
    seq(|v|, i requires 0 <= i < |v| => Base64Digit(v[i]))
  }

  /**
   * The digits that `Buffer.from(s, "base64")` reads: characters outside the alphabet
   * (whitespace among them) are skipped, and the first '=' ends the input.
   */
  function Base64Digits(s: string): (v: seq<Sextet>)
    ensures |v| <= |s|
  {
    if s == [] || s[0] == '=' then []
    else if IsBase64Char(s[0]) then [Base64Value(s[0])] + Base64Digits(s[1..])
    else Base64Digits(s[1..])
  }

  /** Four digits give three bytes; a last group of two or three digits gives one or two, a lone digit none. */
  function FromDigits(v: seq<Sextet>): (b: seq<Byte>)
    ensures |b| == 3 * (|v| / 4) + (if |v| % 4 == 0 then 0 else |v| % 4 - 1)
  {
    if |v| < 2 then []
    else if |v| == 2 then [FirstByte(v[0], v[1])]
    else if |v| == 3 then [FirstByte(v[0], v[1]), SecondByte(v[1], v[2])]
    else [FirstByte(v[0], v[1]), SecondByte(v[1], v[2]), ThirdByte(v[2], v[3])] + FromDigits(v[4..])
  }

  /** The first byte of a group: six bits of the first digit, two of the second. */
  function FirstByte(d0: Sextet, d1: Sextet): Byte
  {
    (d0 as int) * 4 + d1 / 16
  }

  /** The second byte of a group: four bits of the second digit, four of the third. */
  function SecondByte(d1: Sextet, d2: Sextet): Byte
  {
    (d1 % 16) * 16 + d2 / 4
  }

  /** The third byte of a group: two bits of the third digit, six of the fourth. */
  function ThirdByte(d2: Sextet, d3: Sextet): Byte
  {
    (d2 % 4) * 64 + d3
  }

  /** `Buffer.from(s, "base64")`: at most three bytes for every four characters. */
  function Base64Decode(s: string): (b: seq<Byte>)
    ensures 4 * |b| <= 3 * |s|
  {
    FromDigits(Base64Digits(s))
  }

  /** A digit at the head of the text is read, and reading goes on with the rest. */
  lemma DigitsCons(c: char, rest: string)
    requires IsBase64Char(c)
    ensures Base64Digits([c] + rest) == [Base64Value(c)] + Base64Digits(rest)
  {
    assert ([c] + rest)[1..] == rest;
  }

  /** Reading spelled digits gives the digits back, whatever padding follows them. */
  lemma {:induction false} SpelledDigits(v: seq<Sextet>, pad: string)
    requires pad == [] || pad[0] == '='
    ensures Base64Digits(Spell(v) + pad) == v
  {
    if v != [] {
      assert Spell(v) + pad == [Base64Digit(v[0])] + (Spell(v[1..]) + pad);
      DigitsCons(Base64Digit(v[0]), Spell(v[1..]) + pad);
      SpelledDigits(v[1..], pad);
    }
  }

  /** The three bytes of a group come back from its four digits. */
  lemma GroupBytes(b0: Byte, b1: Byte, b2: Byte)
    ensures FirstByte(Digit0(b0), Digit1(b0, b1)) == b0
    ensures SecondByte(Digit1(b0, b1), Digit2(b1, b2)) == b1
    ensures ThirdByte(Digit2(b1, b2), Digit3(b2)) == b2
  {
  }

  /** Every group of digits gives back the bytes it was made from. */
  lemma {:induction false} GroupsRoundTrip(b: seq<Byte>)
    ensures FromDigits(Groups(b)) == b
  {
    if |b| == 1 {
      calc {
        FromDigits(Groups(b));
        [FirstByte(Digit0(b[0]), Digit1(b[0], 0))];
        { GroupBytes(b[0], 0, 0); }
        [b[0]];
        b;
      }
    } else if |b| == 2 {
      calc {
        FromDigits(Groups(b));
        [FirstByte(Digit0(b[0]), Digit1(b[0], b[1])), SecondByte(Digit1(b[0], b[1]), Digit2(b[1], 0))];
        { GroupBytes(b[0], b[1], 0); }
        [b[0], b[1]];
        b;
      }
    } else if |b| >= 3 {
      var v := Groups(b);
      calc {
        FromDigits(v);
        { assert v[4..] == Groups(b[3..]); }
        [FirstByte(v[0], v[1]), SecondByte(v[1], v[2]), ThirdByte(v[2], v[3])] + FromDigits(Groups(b[3..]));
        { GroupBytes(b[0], b[1], b[2]); }
        [b[0], b[1], b[2]] + FromDigits(Groups(b[3..]));
        { GroupsRoundTrip(b[3..]); }
        [b[0], b[1], b[2]] + b[3..];
        b;
      }
    }
  }

  /** Decoding what was encoded gives back the bytes. */
  lemma Base64RoundTrip(b: seq<Byte>)
    ensures Base64Decode(Base64Encode(b)) == b
  {
    PaddingFills(|b|);
    SpelledDigits(Groups(b), Padding(|b|));
    GroupsRoundTrip(b);
  }

  // ---------------------------------------------------------------------------
  // UTF-8, RFC 3629

  /** The one to four bytes RFC 3629 assigns to the scalar value of c. */
  function Utf8EncodeChar(c: char): (b: seq<Byte>)
    ensures 1 <= |b| <= 4
  {
    var n := c as int;
    if n < 0x80 then [n]
    else if n < 0x800 then [0xC0 + n / 0x40, 0x80 + n % 0x40]
    else if n < 0x10000 then
      var lo := n % 0x1000;
      [0xE0 + n / 0x1000, 0x80 + lo / 0x40, 0x80 + lo % 0x40]
    else
      var mid := n % 0x40000;
      var lo := mid % 0x1000;
      [0xF0 + n / 0x40000, 0x80 + mid / 0x1000, 0x80 + lo / 0x40, 0x80 + lo % 0x40]
  }

  /** `Buffer.from(s, "utf8")`. */
  function Utf8Encode(s: string): (b: seq<Byte>)
    ensures |s| <= |b| <= 4 * |s|
  {
    if s == [] then [] else Utf8EncodeChar(s[0]) + Utf8Encode(s[1..])
  }

  /** The length of the sequence a first byte announces; 0 for a byte no sequence starts with. */
  function SequenceLength(b0: Byte): nat
  {
    if b0 < 0x80 then 1
    else if 0xC2 <= b0 <= 0xDF then 2
    else if 0xE0 <= b0 <= 0xEF then 3
    else if 0xF0 <= b0 <= 0xF4 then 4
    else 0
  }

  /** The second-byte ranges of section 4 of RFC 3629 (no overlong forms, no surrogates, nothing past U+10FFFF). */
  predicate SecondByteFits(b0: Byte, b1: Byte)
  {
    if b0 == 0xE0 then 0xA0 <= b1 <= 0xBF
    else if b0 == 0xED then 0x80 <= b1 <= 0x9F
    else if b0 == 0xF0 then 0x90 <= b1 <= 0xBF
    else if b0 == 0xF4 then 0x80 <= b1 <= 0x8F
    else 0x80 <= b1 <= 0xBF
  }

  predicate IsContinuation(b: Byte)
  {
    0x80 <= b <= 0xBF
  }

  /** The six payload bits of a continuation byte. */
  function Low6(b: Byte): int
  {
    b as int - 0x80
  }

  /** How many leading bytes of bs begin a well-formed sequence: its maximal subpart. */
  function WellFormedPrefix(bs: seq<Byte>): (k: nat)
    requires |bs| > 0
    ensures k <= |bs| && k <= SequenceLength(bs[0])
  {
    var n := SequenceLength(bs[0]);
    if n <= 1 then n
    else if |bs| < 2 || !SecondByteFits(bs[0], bs[1]) then 1
    else if n == 2 then 2
    else if |bs| < 3 || !IsContinuation(bs[2]) then 2
    else if n == 3 then 3
    else if |bs| < 4 || !IsContinuation(bs[3]) then 3
    else 4
  }

  predicate StartsWithCharacter(bs: seq<Byte>)
  {
    |bs| > 0 && 0 < WellFormedPrefix(bs) == SequenceLength(bs[0])
  }

  /** The character a complete well-formed sequence at the head of bs stands for. */
  function DecodeChar(bs: seq<Byte>): char
    requires StartsWithCharacter(bs)
  {
    var n := SequenceLength(bs[0]);
    var b0 := bs[0] as int;
    if n == 1 then b0 as char
    else if n == 2 then ((b0 - 0xC0) * 0x40 + Low6(bs[1])) as char
    else if n == 3 then ((b0 - 0xE0) * 0x1000 + Low6(bs[1]) * 0x40 + Low6(bs[2])) as char
    else ((b0 - 0xF0) * 0x40000 + Low6(bs[1]) * 0x1000 + Low6(bs[2]) * 0x40 + Low6(bs[3])) as char
  }

  /** U+FFFD, written for every maximal subpart of an ill-formed sequence. */
  const Replacement: char := '\U{FFFD}'

  /** `buffer.toString("utf8")`. */
  function Utf8Decode(b: seq<Byte>): (s: string)
    ensures |s| <= |b|
    decreases |b|
  {
    if b == [] then []
    else if StartsWithCharacter(b) then [DecodeChar(b)] + Utf8Decode(b[SequenceLength(b[0])..])
    else
      var k := WellFormedPrefix(b);
      [Replacement] + Utf8Decode(b[if k == 0 then 1 else k..])
  }

  /** The bytes of one character, followed by anything, decode back to that character. */
  lemma EncodedCharDecodes(c: char, rest: seq<Byte>)
    ensures var e := Utf8EncodeChar(c);
      StartsWithCharacter(e + rest) && SequenceLength(e[0]) == |e| && DecodeChar(e + rest) == c
  {
    var n := c as int;
    var e := Utf8EncodeChar(c);
    var bs := e + rest;
    if n < 0x80 {
    } else if n < 0x800 {
      assert bs[0] == 0xC0 + n / 0x40 && bs[1] == 0x80 + n % 0x40;
    } else if n < 0x10000 {
      var lo := n % 0x1000;
      assert bs[0] == 0xE0 + n / 0x1000 && bs[1] == 0x80 + lo / 0x40 && bs[2] == 0x80 + lo % 0x40;
      assert n == (n / 0x1000) * 0x1000 + (lo / 0x40) * 0x40 + lo % 0x40;
    } else {
      var mid := n % 0x40000;
      var lo := mid % 0x1000;
      assert bs[0] == 0xF0 + n / 0x40000 && bs[1] == 0x80 + mid / 0x1000;
      assert bs[2] == 0x80 + lo / 0x40 && bs[3] == 0x80 + lo % 0x40;
      assert n == (n / 0x40000) * 0x40000 + (mid / 0x1000) * 0x1000 + (lo / 0x40) * 0x40 + lo % 0x40;
    }
  }

  /** Decoding what was encoded gives back the text. */
  lemma {:induction false} Utf8RoundTrip(s: string)
    ensures Utf8Decode(Utf8Encode(s)) == s
  {
    if s != [] {
      var e := Utf8EncodeChar(s[0]);
      var r := Utf8Encode(s[1..]);
      EncodedCharDecodes(s[0], r);
      assert (e + r)[|e|..] == r;
      Utf8RoundTrip(s[1..]);
    }
  }

  // ---------------------------------------------------------------------------
  // The pair ToBytes / Render

  /** Writing bytes in hex or base64 and reading the text back in the same encoding loses nothing. */
  lemma BytesSurviveRender(b: seq<Byte>, enc: Enc)
    requires enc != Utf8
    ensures ToBytes(Render(b, enc), enc) == b
  {
    if enc == Hex { HexRoundTrip(b); } else { Base64RoundTrip(b); }
  }

  /** Reading text as utf8 and writing the bytes back as utf8 loses nothing. */
  lemma TextSurvivesUtf8(s: string)
    ensures Render(ToBytes(s, Utf8), Utf8) == s
  {
    Utf8RoundTrip(s);
  }
}
