/** The masks and shifts of the Base64 code on octets, as the divisions and remainders the
    rest of the model is written with. */
module Masks {
  import opened Basics
  import opened Base64

  // "Or" of octets without a common bit is their sum.
  lemma OrIsSum(x: bv8, y: bv8)
    requires x & y == 0
    ensures (x | y) as int == x as int + y as int
  {
  }

  lemma HighSix(a: bv8)
    ensures ((a & 0xfc) >> 2) as int == a as int / 4
  {
  }

  lemma LowTwo(a: bv8)
    ensures ((a & 0x03) << 4) as int == a as int % 4 * 16
    ensures ((a & 0x03) << 4) & 0x0f == 0
  {
  }

  lemma HighFour(b: bv8)
    ensures ((b & 0xf0) >> 4) as int == b as int / 16
    ensures ((b & 0xf0) >> 4) & 0xf0 == 0
  {
  }

  lemma LowFour(b: bv8)
    ensures ((b & 0x0f) << 2) as int == b as int % 16 * 4
    ensures ((b & 0x0f) << 2) & 0x03 == 0
  {
  }

  lemma HighTwo(c: bv8)
    ensures ((c & 0xc0) >> 6) as int == c as int / 64
    ensures ((c & 0xc0) >> 6) & 0xfc == 0
  {
  }

  lemma LowSix(c: bv8)
    ensures (c & 0x3f) as int == c as int % 64
  {
  }

  /** The four table indices base64_encode computes from three octets. */
  lemma EncodeIndices(a: bv8, b: bv8, c: bv8)
    ensures ((a & 0xfc) >> 2) as int == a as int / 4
    ensures (((a & 0x03) << 4) | ((b & 0xf0) >> 4)) as int == a as int % 4 * 16 + b as int / 16
    ensures (((b & 0x0f) << 2) | ((c & 0xc0) >> 6)) as int == b as int % 16 * 4 + c as int / 64
    ensures (c & 0x3f) as int == c as int % 64
  {
    HighSix(a);
    LowTwo(a);
    HighFour(b);
    OrIsSum((a & 0x03) << 4, (b & 0xf0) >> 4);
    LowFour(b);
    HighTwo(c);
    OrIsSum((b & 0x0f) << 2, (c & 0xc0) >> 6);
    LowSix(c);
  }

  /** The masks and shifts of base64_encode select the characters of section 4 of RFC 4648. */
  lemma EncodeMasks(a: bv8, b: bv8, c: bv8)
    ensures Quad(Group(a as int, b as int, c as int)) == [
      Symbol(((a & 0xfc) >> 2) as int), Symbol((((a & 0x03) << 4) | ((b & 0xf0) >> 4)) as int),
      Symbol((((b & 0x0f) << 2) | ((c & 0xc0) >> 6)) as int), Symbol((c & 0x3f) as int)]
  {
    hide Quad, Group, Symbol;
    EncodeIndices(a, b, c);
    QuadIs(a as int, b as int, c as int, ((a & 0xfc) >> 2) as int, (((a & 0x03) << 4) | ((b & 0xf0) >> 4)) as int,
           (((b & 0x0f) << 2) | ((c & 0xc0) >> 6)) as int, (c & 0x3f) as int);
  }

  lemma QuadIs(a: byte, b: byte, c: byte, i: nat, j: nat, k: nat, l: nat)
    requires i == a / 4 && j == a % 4 * 16 + b / 16 && k == b % 16 * 4 + c / 64 && l == c % 64
    ensures Quad(Group(a, b, c)) == [Symbol(i), Symbol(j), Symbol(k), Symbol(l)]
  {
    QuadOfBytes(a, b, c);
    hide Quad, Group, Symbol;
  }

  lemma SixUp(p: bv8)
    requires p < 64
    ensures (p << 2) as int == p as int * 4 && (p << 2) & 0x03 == 0
  {
  }

  lemma MiddleTwo(q: bv8)
    requires q < 64
    ensures ((q & 0x30) >> 4) as int == q as int / 16 && ((q & 0x30) >> 4) & 0xfc == 0
  {
  }

  lemma FourUp(q: bv8)
    ensures ((q & 0x0f) << 4) as int == q as int % 16 * 16 && ((q & 0x0f) << 4) & 0x0f == 0
  {
  }

  lemma MiddleFour(r: bv8)
    requires r < 64
    ensures ((r & 0x3c) >> 2) as int == r as int / 4 && ((r & 0x3c) >> 2) & 0xf0 == 0
  {
  }

  lemma TwoUp(r: bv8)
    ensures ((r & 0x03) << 6) as int == r as int % 4 * 64 && ((r & 0x03) << 6) & 0x3f == 0
  {
  }

  /** The three octets base64_decode computes from four 6-bit values. */
  lemma DecodeOctets(p: bv8, q: bv8, r: bv8, s: bv8)
    requires p < 64 && q < 64 && r < 64 && s < 64
    ensures ((p << 2) | ((q & 0x30) >> 4)) as int == p as int * 4 + q as int / 16
    ensures (((q & 0x0f) << 4) | ((r & 0x3c) >> 2)) as int == q as int % 16 * 16 + r as int / 4
    ensures (((r & 0x03) << 6) | s) as int == r as int % 4 * 64 + s as int
  {
    SixUp(p);
    MiddleTwo(q);
    OrIsSum(p << 2, (q & 0x30) >> 4);
    FourUp(q);
    MiddleFour(r);
    OrIsSum((q & 0x0f) << 4, (r & 0x3c) >> 2);
    TwoUp(r);
    OrIsSum((r & 0x03) << 6, s);
  }

  /** The masks and shifts of base64_decode, on the values of four characters, give the three
      bytes of the group. */
  lemma DecodeMasks(t: seq<byte>, p: bv8, q: bv8, r: bv8, s: bv8)
    requires |t| == 4 && p < 64 && q < 64 && r < 64 && s < 64
    requires p as int == DecodeChar(t[0]) && q as int == DecodeChar(t[1])
    requires r as int == DecodeChar(t[2]) && s as int == DecodeChar(t[3])
    ensures Decode4(t) == [((p << 2) | ((q & 0x30) >> 4)) as int,
                           (((q & 0x0f) << 4) | ((r & 0x3c) >> 2)) as int,
                           (((r & 0x03) << 6) | s) as int]
  {
    hide DecodeChar;
    DecodeOctets(p, q, r, s);
  }
}
