/**
 * Base64 with the standard alphabet and `=` padding (section 4 of RFC 4648),
 * as Python's `base64.b64encode` and `base64.b64decode` use it.
 * Every 3 input bytes become 4 characters of 6 bits each; a final group of
 * 1 or 2 bytes is padded to 4 characters with `==` or `=`.
 */
module Base64 {
  import opened Wrappers

  type Byte = x: int | 0 <= x < 256
  type Bytes = seq<Byte>
  type Sextet = x: int | 0 <= x < 64

  const Pad: char := '='

  /** The character of the base64 alphabet ("A"-"Z", "a"-"z", "0"-"9", "+", "/") that encodes `v`. */
  function SextetChar(v: Sextet): (c: char)
    ensures c != Pad && c != ','
  {
    if v < 26 then ('A' as int + v) as char
    else if v < 52 then ('a' as int + (v - 26)) as char
    else if v < 62 then ('0' as int + (v - 52)) as char
    else if v == 62 then '+'
    else '/'
  }

  /** The value a character of the alphabet stands for; `None` off the alphabet (including `=`). */
  function SextetOf(c: char): (r: Option<Sextet>)
    ensures r.Some? ==> SextetChar(r.value) == c
  {
    if 'A' <= c <= 'Z' then Some(c as int - 'A' as int)
    else if 'a' <= c <= 'z' then Some(c as int - 'a' as int + 26)
    else if '0' <= c <= '9' then Some(c as int - '0' as int + 52)
    else if c == '+' then Some(62)
    else if c == '/' then Some(63)
    else None
  }

  predicate InAlphabet(c: char) {
    SextetOf(c).Some?
  }

  lemma SextetRoundTrip(v: Sextet)
    ensures SextetOf(SextetChar(v)) == Some(v)
  {
  }

  /** The four characters encoding three bytes. */
  function EncodeGroup(b0: Byte, b1: Byte, b2: Byte): string {
    [SextetChar(b0 / 4), SextetChar((b0 % 4) * 16 + b1 / 16),
     SextetChar((b1 % 16) * 4 + b2 / 64), SextetChar(b2 % 64)]
  }

  /** A final single byte: two characters and `==`. */
  function EncodeOne(b0: Byte): string {
    [SextetChar(b0 / 4), SextetChar((b0 % 4) * 16), Pad, Pad]
  }

  /** A final pair of bytes: three characters and `=`. */
  function EncodeTwo(b0: Byte, b1: Byte): string {
    [SextetChar(b0 / 4), SextetChar((b0 % 4) * 16 + b1 / 16), SextetChar((b1 % 16) * 4), Pad]
  }

  /** `base64.b64encode(b)`. */
  function Encode(b: Bytes): (s: string)
    ensures |s| == 4 * ((|b| + 2) / 3)
    ensures forall i :: 0 <= i < |s| ==> InAlphabet(s[i]) || s[i] == Pad
    ensures ',' !in s
  {
    if |b| == 0 then ""
    else if |b| == 1 then EncodeOne(b[0])
    else if |b| == 2 then EncodeTwo(b[0], b[1])
    else
      EncodeGroup(b[0], b[1], b[2]) + Encode(b[3..])
  }

  /** The test vectors of section 10 of RFC 4648 ("f", "fo", "foo", "foobar"). */
  lemma EncodeVectors()
    ensures Encode([102]) == "Zg=="
    ensures Encode([102, 111]) == "Zm8="
    ensures Encode([102, 111, 111]) == "Zm9v"
    ensures Encode([102, 111, 111, 98, 97, 114]) == "Zm9vYmFy"
  {
    assert [102, 111, 111, 98, 97, 114][3..] == [98, 97, 114];
  }

  /** Three bytes from four sextets. */
  function Bytes3(s0: Sextet, s1: Sextet, s2: Sextet, s3: Sextet): Bytes {
    [s0 * 4 + s1 / 16, (s1 % 16) * 16 + s2 / 4, (s2 % 4) * 64 + s3]
  }

  /**
   * The last group of four characters: four alphabet characters give three
   * bytes, `xxx=` two and `xx==` one. Bits left over past the last byte are
   * ignored, as Python does.
   */
  function DecodeLast(q: string): (r: Option<Bytes>)
    requires |q| == 4
    ensures r.Some? ==> 1 <= |r.value| <= 3
  {
    var s0, s1, s2, s3 := SextetOf(q[0]), SextetOf(q[1]), SextetOf(q[2]), SextetOf(q[3]);
    if s0.None? || s1.None? then None
    else if q[2] == Pad && q[3] == Pad then Some([s0.value * 4 + s1.value / 16])
    else if s2.Some? && q[3] == Pad then
      Some([s0.value * 4 + s1.value / 16, (s1.value % 16) * 16 + s2.value / 4])
    else if s2.Some? && s3.Some? then Some(Bytes3(s0.value, s1.value, s2.value, s3.value))
    else None
  }

  /**
   * `base64.b64decode(s)`, stricter than Python's default decoder: `None`
   * where Python raises `binascii.Error` (a length that is not a multiple of
   * four), and also where Python would discard characters off the alphabet
   * or ignore the data after a complete pad.
   */
  function Decode(s: string): (r: Option<Bytes>)
    ensures r.Some? ==> |s| % 4 == 0
    decreases |s|
  {
    if |s| == 0 then Some([])
    else if |s| < 4 then None
    else if |s| == 4 then DecodeLast(s)
    else
      var s0, s1, s2, s3 := SextetOf(s[0]), SextetOf(s[1]), SextetOf(s[2]), SextetOf(s[3]);
      if s0.None? || s1.None? || s2.None? || s3.None? then None
      else match Decode(s[4..])
        case None => None
        case Some(rest) => Some(Bytes3(s0.value, s1.value, s2.value, s3.value) + rest)
  }

  /** Four characters give three bytes, less one or two for the padding of the last group. */
  lemma {:induction false} DecodeLength(s: string)
    requires Decode(s).Some?
    ensures |s| / 4 * 3 - 2 <= |Decode(s).value| <= |s| / 4 * 3
    decreases |s|
  {
    if |s| > 4 {
      DecodeLength(s[4..]);
    }
  }

  lemma GroupRoundTrip(b0: Byte, b1: Byte, b2: Byte)
    ensures Bytes3(b0 / 4, (b0 % 4) * 16 + b1 / 16, (b1 % 16) * 4 + b2 / 64, b2 % 64) == [b0, b1, b2]
  {
  }

  lemma PairRoundTrip(b0: Byte, b1: Byte, v0: Sextet, v1: Sextet, v2: Sextet)
    requires v0 == b0 / 4 && v1 == (b0 % 4) * 16 + b1 / 16 && v2 == (b1 % 16) * 4
    ensures v0 * 4 + v1 / 16 == b0
    ensures (v1 % 16) * 16 + v2 / 4 == b1
  {
    assert v1 / 16 == b0 % 4;
    assert v1 % 16 == b1 / 16;
    assert v2 / 4 == b1 % 16;
  }

  lemma DecodeLastOne(b0: Byte)
    ensures DecodeLast(EncodeOne(b0)) == Some([b0])
  {
    var v0, v1 := b0 / 4, (b0 % 4) * 16;
    SextetRoundTrip(v0);
    SextetRoundTrip(v1);
    assert v0 * 4 + v1 / 16 == b0;
  }

  lemma DecodeLastTwo(b0: Byte, b1: Byte)
    ensures DecodeLast(EncodeTwo(b0, b1)) == Some([b0, b1])
  {
    var v0, v1, v2 := b0 / 4, (b0 % 4) * 16 + b1 / 16, (b1 % 16) * 4;
    SextetRoundTrip(v0);
    SextetRoundTrip(v1);
    SextetRoundTrip(v2);
    PairRoundTrip(b0, b1, v0, v1, v2);
  }

  lemma DecodeEncodeOne(b: Bytes)
    requires |b| == 1
    ensures Decode(Encode(b)) == Some(b)
  {
    DecodeLastOne(b[0]);
    assert b == [b[0]];
  }

  lemma DecodeEncodeTwo(b: Bytes)
    requires |b| == 2
    ensures Decode(Encode(b)) == Some(b)
  {
    DecodeLastTwo(b[0], b[1]);
    assert b == [b[0], b[1]];
  }

  /** The sextets of a full group decode back to its three bytes. */
  lemma DecodeGroup(b0: Byte, b1: Byte, b2: Byte)
    ensures var g := EncodeGroup(b0, b1, b2);
      SextetOf(g[0]).Some? && SextetOf(g[1]).Some? && SextetOf(g[2]).Some? && SextetOf(g[3]).Some? &&
      Bytes3(SextetOf(g[0]).value, SextetOf(g[1]).value, SextetOf(g[2]).value, SextetOf(g[3]).value) == [b0, b1, b2]
  {
    SextetRoundTrip(b0 / 4);
    SextetRoundTrip((b0 % 4) * 16 + b1 / 16);
    SextetRoundTrip((b1 % 16) * 4 + b2 / 64);
    SextetRoundTrip(b2 % 64);
    GroupRoundTrip(b0, b1, b2);
  }

  /** A full group in front of a decodable string decodes to its bytes in front of the rest. */
  lemma DecodeGroupThen(b0: Byte, b1: Byte, b2: Byte, rest: string, tail: Bytes)
    requires |rest| > 0 && Decode(rest) == Some(tail)
    ensures Decode(EncodeGroup(b0, b1, b2) + rest) == Some([b0, b1, b2] + tail)
  {
    var g := EncodeGroup(b0, b1, b2);
    var s := g + rest;
    DecodeGroup(b0, b1, b2);
    assert s[..4] == g;
    assert s[4..] == rest;
    assert s[0] == g[0] && s[1] == g[1] && s[2] == g[2] && s[3] == g[3];
  }

  lemma DecodeOneGroup(b0: Byte, b1: Byte, b2: Byte)
    ensures Decode(EncodeGroup(b0, b1, b2)) == Some([b0, b1, b2])
  {
    DecodeGroup(b0, b1, b2);
  }

  lemma FirstThree(b: Bytes)
    requires |b| >= 3
    ensures b == [b[0], b[1], b[2]] + b[3..]
  {
    assert b[..3] == [b[0], b[1], b[2]];
    assert b == b[..3] + b[3..];
  }

  /** Exactly three bytes: one group, no padding. */
  lemma DecodeEncodeThree(b: Bytes)
    requires |b| == 3
    ensures Decode(Encode(b)) == Some(b)
  {
    assert Encode(b[3..]) == "";
    assert Encode(b) == EncodeGroup(b[0], b[1], b[2]);
    DecodeOneGroup(b[0], b[1], b[2]);
    assert b == [b[0], b[1], b[2]];
  }

  /** One full group in front of a non-empty rest: if the rest round-trips, so does the whole. */
  lemma DecodeEncodeStep(b: Bytes)
    requires |b| > 3 && Decode(Encode(b[3..])) == Some(b[3..])
    ensures Decode(Encode(b)) == Some(b)
  {
    var rest := Encode(b[3..]);
    assert Encode(b) == EncodeGroup(b[0], b[1], b[2]) + rest;
    DecodeGroupThen(b[0], b[1], b[2], rest, b[3..]);
    FirstThree(b);
  }

  /** Decoding undoes encoding: `b64decode(b64encode(b)) == b` for every byte string. */
  lemma {:induction false} DecodeEncode(b: Bytes)
    ensures Decode(Encode(b)) == Some(b)
    decreases |b|
  {
    if |b| == 1 {
      DecodeEncodeOne(b);
    } else if |b| == 2 {
      DecodeEncodeTwo(b);
    } else if |b| == 3 {
      DecodeEncodeThree(b);
    } else if |b| > 3 {
      DecodeEncode(b[3..]);
      DecodeEncodeStep(b);
    }
  }
}
