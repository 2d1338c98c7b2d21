/** ECMAScript's `encodeURIComponent` (section 18.2.6.5 of ECMA-262, 6th
    edition) and its inverse `decodeURIComponent` (section 18.2.6.3), over
    strings of Unicode scalar values. A character outside the unescaped set
    is written as the UTF-8 bytes of its code point, each as a percent
    triplet "%XY" with upper-case hexadecimal digits (section 2.1 of
    RFC 3986). */
module UriComponent {

  import opened Wrappers

  /** The characters `encodeURIComponent` leaves as they are: ASCII letters,
      decimal digits and the marks - _ . ! ~ * ' ( ). */
  predicate IsUnescaped(c: char) {
    || ('A' <= c <= 'Z') || ('a' <= c <= 'z') || ('0' <= c <= '9')
    || c == '-' || c == '_' || c == '.' || c == '!' || c == '~' || c == '*' || c == '\'' || c == '(' || c == ')'
  }

  predicate IsUpperHexDigit(c: char) {
    ('0' <= c <= '9') || ('A' <= c <= 'F')
  }

  function HexDigit(d: nat): (c: char)
    requires d < 16
    ensures IsUpperHexDigit(c)
  {
    "0123456789ABCDEF"[d]
  }

  /** Reads one hexadecimal digit of either case, as the decoder does. */
  function HexValue(c: char): (r: Option<nat>)
    ensures r.Some? ==> r.value < 16
  {
    if '0' <= c <= '9' then Some(c as int - '0' as int)
    else if 'A' <= c <= 'F' then Some(c as int - 'A' as int + 10)
    else if 'a' <= c <= 'f' then Some(c as int - 'a' as int + 10)
    else None
  }

  lemma HexValueOfHexDigit(d: nat)
    requires d < 16
    ensures HexValue(HexDigit(d)) == Some(d)
  {
  }

  predicate IsByte(b: nat) {
    b < 0x100
  }

  /** "%XY" for one byte. */
  function Triplet(b: nat): (t: string)
    requires IsByte(b)
    ensures |t| == 3 && t[0] == '%' && IsUpperHexDigit(t[1]) && IsUpperHexDigit(t[2])
  {
    ['%', HexDigit(b / 16), HexDigit(b % 16)]
  }

  /** What an encoder may emit: unescaped characters, '%' and upper-case
      hexadecimal digits. */
  predicate IsEncodedText(s: string) {
    forall i | 0 <= i < |s| :: IsUnescaped(s[i]) || s[i] == '%' || IsUpperHexDigit(s[i])
  }

  function PercentBytes(bs: seq<nat>): (s: string)
    requires forall i | 0 <= i < |bs| :: IsByte(bs[i])
    ensures |s| == 3 * |bs|
    ensures IsEncodedText(s)
  {
    if bs == [] then [] else Triplet(bs[0]) + PercentBytes(bs[1..])
  }

  /** The UTF-8 encoding of one Unicode scalar value (RFC 3629, section 3). */
  function Utf8(c: char): (bs: seq<nat>)
    ensures 1 <= |bs| <= 4
    ensures forall i | 0 <= i < |bs| :: IsByte(bs[i])
    ensures |bs| == 1 <==> c as int < 0x80
  {
    var cp := c as int;
    if cp < 0x80 then [cp]
    else if cp < 0x800 then [0xC0 + cp / 0x40, 0x80 + cp % 0x40]
    else if cp < 0x10000 then [0xE0 + cp / 0x1000, 0x80 + (cp / 0x40) % 0x40, 0x80 + cp % 0x40]
    else [0xF0 + cp / 0x40000, 0x80 + (cp / 0x1000) % 0x40, 0x80 + (cp / 0x40) % 0x40, 0x80 + cp % 0x40]
  }

  function EncodeChar(c: char): (s: string)
    ensures IsEncodedText(s)
    ensures IsUnescaped(c) <==> s == [c]
  {
    if IsUnescaped(c) then [c] else PercentBytes(Utf8(c))
  }

  /** `encodeURIComponent(s)`. Every output character is an unescaped
      character, a '%' or an upper-case hexadecimal digit. */
  function Encode(s: string): (r: string)
    ensures IsEncodedText(r)
  {
    if s == [] then [] else EncodeChar(s[0]) + Encode(s[1..])
  }

  // ---------------------------------------------------------------- decoding

  /** The byte written by the percent triplet at the start of `s`, if any. */
  function LeadingByte(s: string): (r: Option<nat>)
    ensures r.Some? ==> IsByte(r.value)
  {
    if |s| >= 3 && s[0] == '%' && HexValue(s[1]).Some? && HexValue(s[2]).Some? then
      Some(HexValue(s[1]).value * 16 + HexValue(s[2]).value)
    else None
  }

  /** The bytes of a string made only of percent triplets. */
  function Triplets(s: string): (r: Option<seq<nat>>)
    decreases |s|
  {
    if s == [] then Some([])
    else match LeadingByte(s)
      case None => None
      case Some(b) =>
        match Triplets(s[3..])
        case None => None
        case Some(rest) => Some([b] + rest)
  }

  /** The number of bytes a UTF-8 sequence with leading byte `b` has; 0 when
      `b` cannot start a multi-byte sequence. */
  function SequenceLength(b: nat): nat {
    if 0xC0 <= b < 0xE0 then 2
    else if 0xE0 <= b < 0xF0 then 3
    else if 0xF0 <= b < 0xF8 then 4
    else 0
  }

  function LeadBits(b: nat, n: nat): int {
    if n == 2 then b - 0xC0 else if n == 3 then b - 0xE0 else b - 0xF0
  }

  predicate IsContinuation(b: nat) {
    0x80 <= b < 0xC0
  }

  /** The smallest code point that needs `n` bytes; anything smaller is an
      overlong encoding, which the decoder refuses. */
  function MinCodePoint(n: nat): nat {
    if n == 2 then 0x80 else if n == 3 then 0x800 else 0x10000
  }

  predicate IsScalarValue(v: int) {
    (0 <= v < 0xD800) || (0xE000 <= v < 0x110000)
  }

  /** The code point a well-formed sequence of 2 to 4 bytes carries: the
      payload bits of the leading byte followed by six bits from each
      continuation byte. */
  function Payload(bs: seq<nat>): int
    requires 2 <= |bs| <= 4
  {
    var lead := LeadBits(bs[0], |bs|);
    if |bs| == 2 then lead * 0x40 + (bs[1] as int - 0x80)
    else if |bs| == 3 then (lead * 0x40 + (bs[1] as int - 0x80)) * 0x40 + (bs[2] as int - 0x80)
    else ((lead * 0x40 + (bs[1] as int - 0x80)) * 0x40 + (bs[2] as int - 0x80)) * 0x40 + (bs[3] as int - 0x80)
  }

  /** Decodes one multi-byte UTF-8 sequence, or refuses it. */
  function Utf8Decode(bs: seq<nat>): (r: Option<char>)
  {
    if |bs| < 2 || SequenceLength(bs[0]) != |bs| then None
    else if !(forall i | 1 <= i < |bs| :: IsContinuation(bs[i])) then None
    else
      var v := Payload(bs);
      if v >= MinCodePoint(|bs|) && IsScalarValue(v) then Some(v as char) else None
  }

  /** `decodeURIComponent(s)`; `None` where the source throws `URIError`. */
  function Decode(s: string): (r: Option<string>)
    decreases |s|
  {
    if s == [] then Some([])
    else if s[0] != '%' then Prepend(s[0], Decode(s[1..]))
    else match LeadingByte(s)
      case None => None
      case Some(b) =>
        if b < 0x80 then Prepend(b as char, Decode(s[3..]))
        else
          var n := SequenceLength(b);
          if n == 0 || |s| < 3 * n then None
          else match Triplets(s[..3 * n])
            case None => None
            case Some(bs) =>
              match Utf8Decode(bs)
              case None => None
              case Some(c) => Prepend(c, Decode(s[3 * n..]))
  }

  function Prepend(c: char, r: Option<string>): Option<string> {
    if r.Some? then Some([c] + r.value) else None
  }

  // ---------------------------------------------------------------- proofs

  lemma LeadingByteOfTriplet(b: nat, t: string)
    requires IsByte(b)
    ensures LeadingByte(Triplet(b) + t) == Some(b)
  {
    HexValueOfHexDigit(b / 16);
    HexValueOfHexDigit(b % 16);
  }

  lemma {:induction false} TripletsRoundTrip(bs: seq<nat>)
    requires forall i | 0 <= i < |bs| :: IsByte(bs[i])
    ensures Triplets(PercentBytes(bs)) == Some(bs)
    decreases |bs|
  {
    if bs != [] {
      var s := PercentBytes(bs);
      assert s == Triplet(bs[0]) + PercentBytes(bs[1..]);
      LeadingByteOfTriplet(bs[0], PercentBytes(bs[1..]));
      assert s[3..] == PercentBytes(bs[1..]);
      TripletsRoundTrip(bs[1..]);
      assert [bs[0]] + bs[1..] == bs;
    }
  }

  lemma Utf8RoundTrip(c: char)
    requires c as int >= 0x80
    ensures Utf8Decode(Utf8(c)) == Some(c)
  {
    var cp := c as int;
    if cp < 0x800 {
      Utf8RoundTripTwo(c);
    } else if cp < 0x10000 {
      Utf8RoundTripThree(c);
    } else {
      Utf8RoundTripFour(c);
    }
  }

  lemma Utf8RoundTripTwo(c: char)
    requires 0x80 <= c as int < 0x800
    ensures Utf8Decode(Utf8(c)) == Some(c)
  {
    var cp := c as int;
    var bs := [0xC0 + cp / 0x40, 0x80 + cp % 0x40];
    assert Utf8(c) == bs;
    assert SequenceLength(bs[0]) == 2 && IsContinuation(bs[1]);
    assert Payload(bs) == (cp / 0x40) * 0x40 + cp % 0x40 == cp;
  }

  lemma Utf8RoundTripThree(c: char)
    requires 0x800 <= c as int < 0x10000
    ensures Utf8Decode(Utf8(c)) == Some(c)
  {
    var cp := c as int;
    var bs := [0xE0 + cp / 0x1000, 0x80 + (cp / 0x40) % 0x40, 0x80 + cp % 0x40];
    assert Utf8(c) == bs;
    assert SequenceLength(bs[0]) == 3 && IsContinuation(bs[1]) && IsContinuation(bs[2]);
    assert (cp / 0x1000) * 0x40 + (cp / 0x40) % 0x40 == cp / 0x40;
    assert Payload(bs) == (cp / 0x40) * 0x40 + cp % 0x40 == cp;
  }

  lemma Utf8RoundTripFour(c: char)
    requires 0x10000 <= c as int
    ensures Utf8Decode(Utf8(c)) == Some(c)
  {
    var cp := c as int;
    var bs := [0xF0 + cp / 0x40000, 0x80 + (cp / 0x1000) % 0x40, 0x80 + (cp / 0x40) % 0x40, 0x80 + cp % 0x40];
    assert Utf8(c) == bs;
    assert SequenceLength(bs[0]) == 4;
    assert IsContinuation(bs[1]) && IsContinuation(bs[2]) && IsContinuation(bs[3]);
    assert (cp / 0x40000) * 0x40 + (cp / 0x1000) % 0x40 == cp / 0x1000;
    assert (cp / 0x1000) * 0x40 + (cp / 0x40) % 0x40 == cp / 0x40;
    assert Payload(bs) == (cp / 0x40) * 0x40 + cp % 0x40 == cp;
  }

  lemma DecodeSingleByte(b: nat, t: string)
    requires b < 0x80
    ensures Decode(Triplet(b) + t) == Prepend(b as char, Decode(t))
  {
    var s := Triplet(b) + t;
    LeadingByteOfTriplet(b, t);
    assert s[3..] == t;
  }

  lemma DecodeMultiByte(c: char, t: string)
    requires c as int >= 0x80
    ensures Decode(PercentBytes(Utf8(c)) + t) == Prepend(c, Decode(t))
  {
    var bs := Utf8(c);
    var n := |bs|;
    var s := PercentBytes(bs) + t;
    assert PercentBytes(bs) == Triplet(bs[0]) + PercentBytes(bs[1..]);
    assert s == Triplet(bs[0]) + (PercentBytes(bs[1..]) + t);
    LeadingByteOfTriplet(bs[0], PercentBytes(bs[1..]) + t);
    assert s[..3 * n] == PercentBytes(bs) && s[3 * n..] == t;
    TripletsRoundTrip(bs);
    Utf8RoundTrip(c);
    DecodeSequence(s, bs[0], bs, c);
  }

  /** One step of the decoder over a multi-byte sequence. */
  lemma DecodeSequence(s: string, b: nat, bs: seq<nat>, c: char)
    requires s != [] && s[0] == '%' && LeadingByte(s) == Some(b) && b >= 0x80
    requires SequenceLength(b) != 0 && |s| >= 3 * SequenceLength(b)
    requires Triplets(s[..3 * SequenceLength(b)]) == Some(bs) && Utf8Decode(bs) == Some(c)
    ensures Decode(s) == Prepend(c, Decode(s[3 * SequenceLength(b)..]))
  {
  }

  lemma DecodeUnescapedChar(c: char, t: string)
    requires IsUnescaped(c)
    ensures Decode([c] + t) == Prepend(c, Decode(t))
  {
    assert ([c] + t)[0] == c && c != '%';
    assert ([c] + t)[1..] == t;
  }

  lemma EscapedAsciiEncoding(c: char)
    requires !IsUnescaped(c) && c as int < 0x80
    ensures EncodeChar(c) == Triplet(c as int)
  {
    assert Utf8(c) == [c as int];
    assert PercentBytes([c as int]) == Triplet(c as int) + PercentBytes([]);
  }

  lemma DecodeEscapedAscii(c: char, t: string)
    requires !IsUnescaped(c) && c as int < 0x80
    ensures Decode(EncodeChar(c) + t) == Prepend(c, Decode(t))
  {
    EscapedAsciiEncoding(c);
    DecodeSingleByte(c as int, t);
  }

  /** Decoding undoes the encoding of one character in front of any text. */
  lemma DecodeEncodeChar(c: char, t: string)
    ensures Decode(EncodeChar(c) + t) == Prepend(c, Decode(t))
  {
    if IsUnescaped(c) {
      DecodeUnescapedChar(c, t);
    } else if c as int < 0x80 {
      DecodeEscapedAscii(c, t);
    } else {
      DecodeMultiByte(c, t);
    }
  }

  /** `decodeURIComponent(encodeURIComponent(s)) == s` for every string. */
  lemma {:induction false} DecodeEncode(s: string)
    ensures Decode(Encode(s)) == Some(s)
    decreases |s|
  {
    if s != [] {
      DecodeEncodeChar(s[0], Encode(s[1..]));
      DecodeEncode(s[1..]);
      assert [s[0]] + s[1..] == s;
    }
  }

  /** A string of unescaped characters is its own encoding. */
  lemma {:induction false} EncodeKeepsUnescaped(s: string)
    requires forall i | 0 <= i < |s| :: IsUnescaped(s[i])
    ensures Encode(s) == s
    decreases |s|
  {
    if s != [] {
      EncodeKeepsUnescaped(s[1..]);
      assert [s[0]] + s[1..] == s;
    }
  }

  /** The encoding never contains the separators of a query string. */
  lemma EncodeHasNoSeparator(s: string)
    ensures '&' !in Encode(s) && '=' !in Encode(s) && '?' !in Encode(s) && '#' !in Encode(s)
  {
    var r := Encode(s);
    forall i | 0 <= i < |r| ensures r[i] != '&' && r[i] != '=' && r[i] != '?' && r[i] != '#' {
      EncodedCharIsNoSeparator(r[i]);
    }
  }

  lemma EncodedCharIsNoSeparator(c: char)
    requires IsUnescaped(c) || c == '%' || IsUpperHexDigit(c)
    ensures c != '&' && c != '=' && c != '?' && c != '#'
  {
  }
}
