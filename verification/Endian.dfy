/** Big- and little-endian integers of any byte width, and the unrolled stores and loads of
    the be and le namespaces.  An arithmetic shift right by 8 is a division by 256 rounding
    down; the cast to an octet keeps the remainder; "or" of disjoint octets is a sum. */
module Endian {
  import opened Basics

  function Power256(width: nat): (p: nat)
    ensures p > 0 && (width > 0 ==> p % 2 == 0)
  {
    if width == 0 then 1 else 256 * Power256(width - 1)
  }

  /** The `width` low octets of `v`, most significant first; two's complement if negative. */
  function BigEndian(width: nat, v: int): (s: seq<byte>)
    ensures |s| == width
  {
    if width == 0 then [] else BigEndian(width - 1, v / 256) + [v % 256]
  }

  function LittleEndian(width: nat, v: int): (s: seq<byte>)
    ensures |s| == width
  {
    if width == 0 then [] else [v % 256] + LittleEndian(width - 1, v / 256)
  }

  function Reversed(s: seq<byte>): (r: seq<byte>)
    ensures |r| == |s| && forall i | 0 <= i < |s| :: r[i] == s[|s| - 1 - i]
  {
    if s == [] then [] else Reversed(s[1..]) + [s[0]]
  }

  function FromBigEndian(s: seq<byte>): nat {
    if s == [] then 0 else FromBigEndian(s[..|s| - 1]) * 256 + s[|s| - 1]
  }

  function FromLittleEndian(s: seq<byte>): nat {
    if s == [] then 0 else s[0] + FromLittleEndian(s[1..]) * 256
  }

  /** An unsigned octet pattern read as a signed integer of the same width. */
  function AsSigned(width: nat, u: nat): int {
    if u >= Power256(width) / 2 then u - Power256(width) else u
  }

  predicate InUnsigned(width: nat, v: int) {
    0 <= v < Power256(width)
  }

  predicate InSigned(width: nat, v: int) {
    -(Power256(width) / 2) <= v < Power256(width) / 2
  }

  /** At every width the little-endian octets are the big-endian ones reversed ... */
  lemma {:induction false} LittleIsReversedBig(width: nat, v: int)
    ensures LittleEndian(width, v) == Reversed(BigEndian(width, v))
  {
    if width > 0 {
      LittleIsReversedBig(width - 1, v / 256);
      var big, r := BigEndian(width, v), Reversed(BigEndian(width, v));
      forall i | 0 <= i < width
        ensures LittleEndian(width, v)[i] == r[i]
      {
        assert r[i] == big[width - 1 - i];
        if i > 0 {
          assert Reversed(BigEndian(width - 1, v / 256))[i - 1] == BigEndian(width - 1, v / 256)[width - 1 - i];
        }
      }
    }
  }

  /** ... and read back as the same number. */
  lemma {:induction false} FromLittleReversed(s: seq<byte>)
    ensures FromLittleEndian(Reversed(s)) == FromBigEndian(s)
    decreases |s|
  {
    if s != [] {
      var n := |s| - 1;
      FromLittleReversed(s[..n]);
      assert Reversed(s)[0] == s[n];
      assert Reversed(s)[1..] == Reversed(s[..n]);
    }
  }

  lemma {:induction false} UnsignedRoundTrip(width: nat, v: int)
    requires InUnsigned(width, v)
    ensures FromBigEndian(BigEndian(width, v)) == v
  {
    if width > 0 {
      UnsignedRoundTrip(width - 1, v / 256);
      assert BigEndian(width, v)[..width - 1] == BigEndian(width - 1, v / 256);
    }
  }

  // Numbers that differ by a multiple of the width's range have the same octets.
  lemma {:induction false} WrapAround(width: nat, v: int)
    ensures BigEndian(width, v + Power256(width)) == BigEndian(width, v)
  {
    if width > 0 {
      var p := Power256(width - 1);
      assert (v + 256 * p) / 256 == v / 256 + p && (v + 256 * p) % 256 == v % 256;
      WrapAround(width - 1, v / 256);
    }
  }

  lemma SignedRoundTrip(width: nat, v: int)
    requires width > 0 && InSigned(width, v)
    ensures AsSigned(width, FromBigEndian(BigEndian(width, v))) == v
  {
    if v < 0 {
      WrapAround(width, v);
      UnsignedRoundTrip(width, v + Power256(width));
    } else {
      UnsignedRoundTrip(width, v);
    }
  }

  lemma Powers()
    ensures Power256(0) == 1 && Power256(1) == 0x100 && Power256(2) == 0x1_0000
    ensures Power256(4) == 0x1_0000_0000 && Power256(8) == 0x1_0000_0000_0000_0000
  {
    assert Power256(4) == 256 * (256 * Power256(2));
    assert Power256(6) == 256 * (256 * Power256(4));
    assert Power256(8) == 256 * (256 * Power256(6));
  }

  lemma DivideTwice(v: int, p: nat)
    requires p > 0
    ensures v / 256 / p == v / (256 * p)
  {
    var q, r := v / 256 / p, v / 256 % p;
    assert v == 256 * (q * p + r) + v % 256;
    assert 256 * (q * p + r) == q * (256 * p) + 256 * r;
    DivisionUnique(v, 256 * p, q, 256 * r + v % 256);
  }

  /** The octet worth 256^i: i-th from the front little-endian, from the end big-endian. */
  lemma {:induction false} OctetAt(width: nat, v: int, i: nat)
    requires i < width
    ensures LittleEndian(width, v)[i] == v / Power256(i) % 256 == BigEndian(width, v)[width - 1 - i]
    decreases i
  {
    if i > 0 {
      OctetAt(width - 1, v / 256, i - 1);
      DivideTwice(v, Power256(i - 1));
    }
  }

  // ---- The unrolled stores ----

  // `a` with `s` stored at `at`.
  ghost function Stored(a: seq<byte>, at: nat, s: seq<byte>): seq<byte>
    requires at + |s| <= |a|
  {
    a[..at] + s + a[at + |s|..]
  }

  lemma Octets2(v: int)
    ensures BigEndian(2, v) == [v / 0x100 % 256, v % 256]
  {
    assert BigEndian(1, v / 0x100) == [v / 0x100 % 256];
  }

  lemma Octets4(v: int)
    ensures BigEndian(4, v) == [v / 0x100_0000 % 256, v / 0x1_0000 % 256, v / 0x100 % 256, v % 256]
  {
    var w := v / 0x100 / 0x100;
    assert v / 0x1_0000 == w && v / 0x100_0000 == w / 0x100;
    Octets2(w);
    assert BigEndian(3, v / 0x100) == BigEndian(2, w) + [v / 0x100 % 256];
  }

  lemma Octets8(v: int)
    ensures BigEndian(8, v) == BigEndian(4, v / 0x1_0000_0000) + BigEndian(4, v)
  {
    var a, b, c, d := v / 256, v / 256 / 256, v / 256 / 256 / 256, v / 256 / 256 / 256 / 256;
    assert v / 0x1_0000_0000 == d;
    assert BigEndian(5, c) == BigEndian(4, d) + [c % 256];
    assert BigEndian(6, b) == BigEndian(5, c) + [b % 256];
    assert BigEndian(7, a) == BigEndian(6, b) + [a % 256];
    Octets4(v);
    assert v / 0x1_0000 == b && v / 0x100_0000 == c;
  }

  method StoreBig1(out: array<byte>, at: nat, v: int)
    requires at + 1 <= out.Length
    modifies out
    ensures out[..] == Stored(old(out[..]), at, BigEndian(1, v))
  {
    assert BigEndian(0, v / 256) == [];
    out[at] := v % 256;
  }

  method StoreBig2(out: array<byte>, at: nat, v: int)
    requires at + 2 <= out.Length
    modifies out
    ensures out[..] == Stored(old(out[..]), at, BigEndian(2, v))
  {
    Octets2(v);
    out[at] := v / 0x100 % 256;
    out[at + 1] := v % 256;
  }

  method StoreBig4(out: array<byte>, at: nat, v: int)
    requires at + 4 <= out.Length
    modifies out
    ensures out[..] == Stored(old(out[..]), at, BigEndian(4, v))
  {
    Octets4(v);
    out[at] := v / 0x100_0000 % 256;
    out[at + 1] := v / 0x1_0000 % 256;
    out[at + 2] := v / 0x100 % 256;
    out[at + 3] := v % 256;
  }

  lemma BigOctets8(v: int)
    ensures BigEndian(8, v) ==
      [v / 0x100_0000_0000_0000 % 256, v / 0x1_0000_0000_0000 % 256, v / 0x100_0000_0000 % 256, v / 0x1_0000_0000 % 256,
       v / 0x100_0000 % 256, v / 0x1_0000 % 256, v / 0x100 % 256, v % 256]
  {
    var high := v / 0x1_0000_0000;
    Octets8(v);
    Octets4(high);
    Octets4(v);
    assert high / 0x100_0000 == v / 0x100_0000_0000_0000;
    assert high / 0x1_0000 == v / 0x1_0000_0000_0000;
    assert high / 0x100 == v / 0x100_0000_0000;
  }

  method StoreBig8(out: array<byte>, at: nat, v: int)
    requires at + 8 <= out.Length
    modifies out
    ensures out[..] == Stored(old(out[..]), at, BigEndian(8, v))
  {
    BigOctets8(v);
    out[at] := v / 0x100_0000_0000_0000 % 256;
    out[at + 1] := v / 0x1_0000_0000_0000 % 256;
    out[at + 2] := v / 0x100_0000_0000 % 256;
    out[at + 3] := v / 0x1_0000_0000 % 256;
    out[at + 4] := v / 0x100_0000 % 256;
    out[at + 5] := v / 0x1_0000 % 256;
    out[at + 6] := v / 0x100 % 256;
    out[at + 7] := v % 256;
  }

  lemma ReverseOf(s: seq<byte>, r: seq<byte>)
    requires |r| == |s| && forall i | 0 <= i < |s| :: r[i] == s[|s| - 1 - i]
    ensures r == Reversed(s)
  {
  }

  method StoreLittle1(out: array<byte>, at: nat, v: int)
    requires at + 1 <= out.Length
    modifies out
    ensures out[..] == Stored(old(out[..]), at, LittleEndian(1, v))
  {
    assert LittleEndian(0, v / 256) == [];
    out[at] := v % 256;
  }

  method StoreLittle2(out: array<byte>, at: nat, v: int)
    requires at + 2 <= out.Length
    modifies out
    ensures out[..] == Stored(old(out[..]), at, LittleEndian(2, v))
  {
    Octets2(v);
    LittleIsReversedBig(2, v);
    ReverseOf(BigEndian(2, v), [v % 256, v / 0x100 % 256]);
    out[at] := v % 256;
    out[at + 1] := v / 0x100 % 256;
  }

  method StoreLittle4(out: array<byte>, at: nat, v: int)
    requires at + 4 <= out.Length
    modifies out
    ensures out[..] == Stored(old(out[..]), at, LittleEndian(4, v))
  {
    Octets4(v);
    LittleIsReversedBig(4, v);
    ReverseOf(BigEndian(4, v), [v % 256, v / 0x100 % 256, v / 0x1_0000 % 256, v / 0x100_0000 % 256]);
    out[at] := v % 256;
    out[at + 1] := v / 0x100 % 256;
    out[at + 2] := v / 0x1_0000 % 256;
    out[at + 3] := v / 0x100_0000 % 256;
  }

  method StoreLittle8(out: array<byte>, at: nat, v: int)
    requires at + 8 <= out.Length
    modifies out
    ensures out[..] == Stored(old(out[..]), at, LittleEndian(8, v))
  {
    BigOctets8(v);
    LittleIsReversedBig(8, v);
    ReverseOf(BigEndian(8, v),
      [v % 256, v / 0x100 % 256, v / 0x1_0000 % 256, v / 0x100_0000 % 256, v / 0x1_0000_0000 % 256,
       v / 0x100_0000_0000 % 256, v / 0x1_0000_0000_0000 % 256, v / 0x100_0000_0000_0000 % 256]);
    out[at] := v % 256;
    out[at + 1] := v / 0x100 % 256;
    out[at + 2] := v / 0x1_0000 % 256;
    out[at + 3] := v / 0x100_0000 % 256;
    out[at + 4] := v / 0x1_0000_0000 % 256;
    out[at + 5] := v / 0x100_0000_0000 % 256;
    out[at + 6] := v / 0x1_0000_0000_0000 % 256;
    out[at + 7] := v / 0x100_0000_0000_0000 % 256;
  }

  // ---- The unrolled loads ----

  function LoadBig2(p: seq<byte>): (v: nat)
    requires |p| == 2
    ensures v == FromBigEndian(p)
  {
    assert FromBigEndian(p[..1][..0]) == 0 && FromBigEndian(p[..1]) == p[0];
    p[0] as int * 0x100 + p[1] as int
  }

  function LoadBig4(p: seq<byte>): (v: nat)
    requires |p| == 4
    ensures v == FromBigEndian(p)
  {
    assert p[..3][..2] == p[..2] && LoadBig2(p[..2]) == FromBigEndian(p[..2]);
    p[0] as int * 0x100_0000 + p[1] as int * 0x1_0000 + p[2] as int * 0x100 + p[3] as int
  }

  function LoadBig8(p: seq<byte>): (v: nat)
    requires |p| == 8
    ensures v == FromBigEndian(p)
  {
    assert p[..7][..6] == p[..6] && p[..6][..5] == p[..5] && p[..5][..4] == p[..4];
    assert LoadBig4(p[..4]) == FromBigEndian(p[..4]);
    assert FromBigEndian(p[..5]) == FromBigEndian(p[..4]) * 0x100 + p[4];
    assert FromBigEndian(p[..6]) == FromBigEndian(p[..5]) * 0x100 + p[5];
    p[0] as int * 0x100_0000_0000_0000 + p[1] as int * 0x1_0000_0000_0000 + p[2] as int * 0x100_0000_0000
    + p[3] as int * 0x1_0000_0000 + p[4] as int * 0x100_0000 + p[5] as int * 0x1_0000
    + p[6] as int * 0x100 + p[7] as int
  }

  function LoadLittle2(p: seq<byte>): (v: nat)
    requires |p| == 2
    ensures v == FromLittleEndian(p)
  {
    assert FromLittleEndian(p[1..][1..]) == 0 && FromLittleEndian(p[1..]) == p[1];
    p[0] as int + p[1] as int * 0x100
  }

  function LoadLittle4(p: seq<byte>): (v: nat)
    requires |p| == 4
    ensures v == FromLittleEndian(p)
  {
    assert p[1..][1..] == p[2..] && LoadLittle2(p[2..]) == FromLittleEndian(p[2..]);
    p[0] as int + p[1] as int * 0x100 + p[2] as int * 0x1_0000 + p[3] as int * 0x100_0000
  }

  function LoadLittle8(p: seq<byte>): (v: nat)
    requires |p| == 8
    ensures v == FromLittleEndian(p)
  {
    assert p[1..][1..] == p[2..] && p[2..][1..] == p[3..] && p[3..][1..] == p[4..];
    assert LoadLittle4(p[4..]) == FromLittleEndian(p[4..]);
    assert FromLittleEndian(p[3..]) == p[3] + FromLittleEndian(p[4..]) * 0x100;
    assert FromLittleEndian(p[2..]) == p[2] + FromLittleEndian(p[3..]) * 0x100;
    p[0] as int + p[1] as int * 0x100 + p[2] as int * 0x1_0000 + p[3] as int * 0x100_0000
    + p[4] as int * 0x1_0000_0000 + p[5] as int * 0x100_0000_0000 + p[6] as int * 0x1_0000_0000_0000
    + p[7] as int * 0x100_0000_0000_0000
  }
}
