/**
 * Base64 with the standard alphabet and `=` padding, as in section 4 of
 * RFC 4648. The session token of register_user.ts is this encoding of the
 * serialised claim. `Decode` is the strict decoder: it accepts exactly the
 * strings `Encode` produces and answers `None` for every other string.
 */
module Base64 {
  import opened Wrappers

  type byte = x: int | 0 <= x < 256

  /** A 6-bit group: an index into the 64-character alphabet. */
  type sextet = x: int | 0 <= x < 64

  const Pad: char := '='

  /** Table 1 of RFC 4648: A-Z, a-z, 0-9, '+', '/'. */
  function SextetChar(i: sextet): (c: char)
    ensures c != Pad
  {
    if i < 26 then ('A' as int + i) as char
    else if i < 52 then ('a' as int + (i - 26)) as char
    else if i < 62 then ('0' as int + (i - 52)) as char
    else if i == 62 then '+'
    else '/'
  }

  /** The inverse of the alphabet table; `None` for a character outside it. */
  function CharSextet(c: char): (r: Option<sextet>)
    ensures r.Some? ==> SextetChar(r.value) == c
  {
    if 'A' <= c <= 'Z' then Some(c as int - 'A' as int)
    else if 'a' <= c <= 'z' then Some(c as int - 'a' as int + 26)
    else if '0' <= c <= '9' then Some(c as int - '0' as int + 52)
    else if c == '+' then Some(62)
    else if c == '/' then Some(63)
    else None
  }

  lemma SextetCharRoundTrip(i: sextet)
    ensures CharSextet(SextetChar(i)) == Some(i)
  {
  }

  /** The corners of the alphabet table, as RFC 4648 lists them. */
  lemma AlphabetCorners()
    ensures SextetChar(0) == 'A' && SextetChar(25) == 'Z'
    ensures SextetChar(26) == 'a' && SextetChar(51) == 'z'
    ensures SextetChar(52) == '0' && SextetChar(61) == '9'
    ensures SextetChar(62) == '+' && SextetChar(63) == '/'
  {
  }

  // ------------------------------------------------------------------ encoding

  /** Three bytes (24 bits) become four characters. */
  function EncodeTriple(a: byte, b: byte, c: byte): string {
    [SextetChar(a / 4), SextetChar((a % 4) * 16 + b / 16),
     SextetChar((b % 16) * 4 + c / 64), SextetChar(c % 64)]
  }

  /** A final single byte: two characters and two pad characters. */
  function EncodeFinalOne(a: byte): string {
    [SextetChar(a / 4), SextetChar((a % 4) * 16), Pad, Pad]
  }

  /** A final pair of bytes: three characters and one pad character. */
  function EncodeFinalTwo(a: byte, b: byte): string {
    [SextetChar(a / 4), SextetChar((a % 4) * 16 + b / 16), SextetChar((b % 16) * 4), Pad]
  }

  function Encode(data: seq<byte>): (s: string)
    ensures |s| == 4 * ((|data| + 2) / 3)
    decreases |data|
  {
    if |data| == 0 then []
    else if |data| == 1 then EncodeFinalOne(data[0])
    else if |data| == 2 then EncodeFinalTwo(data[0], data[1])
    else EncodeTriple(data[0], data[1], data[2]) + Encode(data[3..])
  }

  // ------------------------------------------------------------------ decoding

  /** Four alphabet characters back into three bytes (no padding). */
  function DecodeQuad(q: string): (r: Option<seq<byte>>)
    requires |q| == 4
    ensures r.Some? ==> |r.value| == 3
  {
    var w, x, y, z := CharSextet(q[0]), CharSextet(q[1]), CharSextet(q[2]), CharSextet(q[3]);
    if w.None? || x.None? || y.None? || z.None? then None
    else
      Some([w.value * 4 + x.value / 16,
            (x.value % 16) * 16 + y.value / 4,
            (y.value % 4) * 64 + z.value])
  }

  /**
   * The last group of four characters, where padding may appear. The bits
   * that padding leaves unused must be zero (section 3.5 of RFC 4648), so
   * that each byte string has exactly one encoding.
   */
  function DecodeFinalQuad(q: string): (r: Option<seq<byte>>)
    requires |q| == 4
    ensures r.Some? ==> 1 <= |r.value| <= 3
  {
    if q[2] == Pad && q[3] == Pad then
      var w, x := CharSextet(q[0]), CharSextet(q[1]);
      if w.None? || x.None? || x.value % 16 != 0 then None
      else Some([w.value * 4 + x.value / 16])
    else if q[3] == Pad then
      var w, x, y := CharSextet(q[0]), CharSextet(q[1]), CharSextet(q[2]);
      if w.None? || x.None? || y.None? || y.value % 4 != 0 then None
      else Some([w.value * 4 + x.value / 16, (x.value % 16) * 16 + y.value / 4])
    else DecodeQuad(q)
  }

  /**
   * The strict decoder: groups of four characters, padding only in the last
   * group. It accepts only texts whose length is what `Encode` would give
   * for the bytes it returns.
   */
  function Decode(s: string): (r: Option<seq<byte>>)
    ensures r.Some? ==> |s| == 4 * ((|r.value| + 2) / 3)
    ensures |s| % 4 != 0 ==> r.None?
    decreases |s|
  {
    if |s| == 0 then Some([])
    else if |s| < 4 then None
    else if |s| == 4 then DecodeFinalQuad(s)
    else
      match DecodeQuad(s[..4])
      case None => None
      case Some(head) =>
        match Decode(s[4..])
        case None => None
        case Some(tail) => Some(head + tail)
  }

  // ------------------------------------------------------------------ round trips

  /** Bytes to sextets and back: the arithmetic of a full group. */
  lemma BytesSextetsBytes(a: byte, b: byte, c: byte)
    ensures var w, x, y, z := a / 4, (a % 4) * 16 + b / 16, (b % 16) * 4 + c / 64, c % 64;
      w * 4 + x / 16 == a && (x % 16) * 16 + y / 4 == b && (y % 4) * 64 + z == c
  {
    var w, x, y, z := a / 4, (a % 4) * 16 + b / 16, (b % 16) * 4 + c / 64, c % 64;
    assert a == w * 4 + a % 4;
    assert b == (b / 16) * 16 + b % 16;
    assert c == (c / 64) * 64 + z;
    assert x / 16 == a % 4 && x % 16 == b / 16;
    assert y / 4 == b % 16 && y % 4 == c / 64;
  }

  lemma TripleRoundTrip(a: byte, b: byte, c: byte)
    ensures DecodeQuad(EncodeTriple(a, b, c)) == Some([a, b, c])
    ensures DecodeFinalQuad(EncodeTriple(a, b, c)) == Some([a, b, c])
  {
    var w, x, y, z := a / 4, (a % 4) * 16 + b / 16, (b % 16) * 4 + c / 64, c % 64;
    BytesSextetsBytes(a, b, c);
    SextetCharRoundTrip(w);
    SextetCharRoundTrip(x);
    SextetCharRoundTrip(y);
    SextetCharRoundTrip(z);
    var q := EncodeTriple(a, b, c);
    assert q == [SextetChar(w), SextetChar(x), SextetChar(y), SextetChar(z)];
    assert CharSextet(q[0]) == Some(w) && CharSextet(q[1]) == Some(x);
    assert CharSextet(q[2]) == Some(y) && CharSextet(q[3]) == Some(z);
  }

  lemma FinalOneRoundTrip(a: byte)
    ensures DecodeFinalQuad(EncodeFinalOne(a)) == Some([a])
  {
    BytesSextetsBytes(a, 0, 0);
    SextetCharRoundTrip(a / 4);
    SextetCharRoundTrip((a % 4) * 16);
  }

  lemma FinalTwoRoundTrip(a: byte, b: byte)
    ensures DecodeFinalQuad(EncodeFinalTwo(a, b)) == Some([a, b])
  {
    BytesSextetsBytes(a, b, 0);
    SextetCharRoundTrip(a / 4);
    SextetCharRoundTrip((a % 4) * 16 + b / 16);
    SextetCharRoundTrip((b % 16) * 4);
  }

  /** A full group followed by at least one more group decodes group by group. */
  lemma DecodeGroups(head: string, tail: string)
    requires |head| == 4 && |tail| >= 4
    requires DecodeQuad(head).Some? && Decode(tail).Some?
    ensures Decode(head + tail) == Some(DecodeQuad(head).value + Decode(tail).value)
  {
    var s := head + tail;
    assert s[..4] == head && s[4..] == tail;
  }

  /** Decoding an encoding gives back the bytes exactly. */
  lemma {:induction false} DecodeEncode(data: seq<byte>)
    ensures Decode(Encode(data)) == Some(data)
    decreases |data|
  {
    if |data| == 1 {
      assert data == [data[0]];
      FinalOneRoundTrip(data[0]);
    } else if |data| == 2 {
      assert data == [data[0], data[1]];
      FinalTwoRoundTrip(data[0], data[1]);
    } else if |data| >= 3 {
      var a, b, c, rest := data[0], data[1], data[2], data[3..];
      assert data == [a, b, c] + rest;
      TripleRoundTrip(a, b, c);
      if |rest| == 0 {
        assert data == [a, b, c];
        assert Encode(data) == EncodeTriple(a, b, c) + Encode([]);
      } else {
        DecodeEncode(rest);
        DecodeGroups(EncodeTriple(a, b, c), Encode(rest));
      }
    }
  }

  /** Sextets to bytes and back: the arithmetic of a full group. */
  lemma SextetsBytesSextets(w: sextet, x: sextet, y: sextet, z: sextet)
    ensures var a, b, c := w * 4 + x / 16, (x % 16) * 16 + y / 4, (y % 4) * 64 + z;
      a / 4 == w && (a % 4) * 16 + b / 16 == x && (b % 16) * 4 + c / 64 == y && c % 64 == z
  {
    var a, b, c := w * 4 + x / 16, (x % 16) * 16 + y / 4, (y % 4) * 64 + z;
    assert x == (x / 16) * 16 + x % 16;
    assert y == (y / 4) * 4 + y % 4;
    assert a / 4 == w && a % 4 == x / 16;
    assert b / 16 == x % 16 && b % 16 == y / 4;
    assert c / 64 == y % 4 && c % 64 == z;
  }

  lemma QuadCanonical(q: string)
    requires |q| == 4 && DecodeQuad(q).Some?
    ensures var d := DecodeQuad(q).value; |d| == 3 && EncodeTriple(d[0], d[1], d[2]) == q
  {
    var w: int, x: int, y: int, z: int := CharSextet(q[0]).value, CharSextet(q[1]).value, CharSextet(q[2]).value, CharSextet(q[3]).value;
    assert SextetChar(w) == q[0] && SextetChar(x) == q[1] && SextetChar(y) == q[2] && SextetChar(z) == q[3];
    var a: byte, b: byte, c: byte := w * 4 + x / 16, (x % 16) * 16 + y / 4, (y % 4) * 64 + z;
    assert DecodeQuad(q).value == [a, b, c];
    SextetsBytesSextets(w, x, y, z);
    assert EncodeTriple(a, b, c) == [SextetChar(w), SextetChar(x), SextetChar(y), SextetChar(z)];
  }

  lemma FinalQuadCanonical(q: string)
    requires |q| == 4 && DecodeFinalQuad(q).Some?
    ensures Encode(DecodeFinalQuad(q).value) == q
  {
    if q[2] == Pad && q[3] == Pad {
      var w: int, x: int := CharSextet(q[0]).value, CharSextet(q[1]).value;
      assert SextetChar(w) == q[0] && SextetChar(x) == q[1];
      var a: byte := w * 4 + x / 16;
      assert DecodeFinalQuad(q).value == [a];
      SextetsBytesSextets(w, x, 0, 0);
      assert EncodeFinalOne(a) == [SextetChar(w), SextetChar(x), Pad, Pad];
    } else if q[3] == Pad {
      var w: int, x: int, y: int := CharSextet(q[0]).value, CharSextet(q[1]).value, CharSextet(q[2]).value;
      assert SextetChar(w) == q[0] && SextetChar(x) == q[1] && SextetChar(y) == q[2];
      var a: byte, b: byte := w * 4 + x / 16, (x % 16) * 16 + y / 4;
      assert DecodeFinalQuad(q).value == [a, b];
      SextetsBytesSextets(w, x, y, 0);
      assert EncodeFinalTwo(a, b) == [SextetChar(w), SextetChar(x), SextetChar(y), Pad];
    } else {
      QuadCanonical(q);
      var d := DecodeFinalQuad(q).value;
      assert d == [d[0], d[1], d[2]] + [];
      assert Encode(d) == EncodeTriple(d[0], d[1], d[2]) + Encode([]);
    }
  }

  /** The decoder accepts only canonical encodings: whatever it decodes encodes back to the same text. */
  lemma {:induction false} EncodeDecode(s: string)
    requires Decode(s).Some?
    ensures Encode(Decode(s).value) == s
    decreases |s|
  {
    if |s| == 4 {
      FinalQuadCanonical(s);
    } else if |s| > 4 {
      var head := DecodeQuad(s[..4]).value;
      var tail := Decode(s[4..]).value;
      EncodeDecode(s[4..]);
      QuadCanonical(s[..4]);
      var d := head + tail;
      assert d[3..] == tail;
      assert Encode(d) == EncodeTriple(d[0], d[1], d[2]) + Encode(tail);
      assert s == s[..4] + s[4..];
    }
  }

  /** The test vectors of section 10 of RFC 4648 ("f", "fo", "foobar"). */
  lemma StandardVectors()
    ensures Encode([]) == ""
    ensures Encode([102]) == "Zg=="
    ensures Encode([102, 111]) == "Zm8="
    ensures Encode([102, 111, 111]) == "Zm9v"
    ensures Encode([102, 111, 111, 98, 97, 114]) == "Zm9vYmFy"
  {
  }

  /** The decoder reads the last vector back. */
  lemma StandardVectorDecodes()
    ensures Decode("Zm9vYmFy") == Some([102, 111, 111, 98, 97, 114])
  {
    StandardVectors();
    DecodeEncode([102, 111, 111, 98, 97, 114]);
  }
}
