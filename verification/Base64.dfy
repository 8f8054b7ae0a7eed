/** base64_encode and base64_decode over a Buffer, against section 4 of RFC 4648. */
module Base64 {
  import opened Basics
  import opened Buffers

  const PAD: byte := 61   // '='

  /** Table 1 of RFC 4648, which is the code's encode_table: the character, as a byte, of each
      6-bit value ("A".."Z", "a".."z", "0".."9", "+", "/"). */
  function Symbol(value: nat): (c: byte)
    requires value < 64
    ensures c != PAD
  {
    if value < 26 then 65 + value
    else if value < 52 then 97 + (value - 26)
    else if value < 62 then 48 + (value - 52)
    else if value == 62 then 43
    else 47
  }

  // Table 1 of RFC 4648, in order.
  const ALPHABET: string := "ABCDEFGHIJKLMNOPQRSTUVWXYZ" + "abcdefghijklmnopqrstuvwxyz" + "0123456789" + "+/"

  /** The encoder's table is the standard's, the decoder's its inverse, and a character
      outside of it decodes as '/' does. */
  lemma SymbolTable(value: nat, c: byte)
    ensures value < 64 ==> Symbol(value) == ALPHABET[value] as int
    ensures DecodeChar(c) == 63 || Symbol(DecodeChar(c)) == c
    ensures forall v: nat | v < 64 && Symbol(v) == c :: DecodeChar(c) == v
  {
  }

  // Three octets as one 24-bit number.
  function Group(a: int, b: int, c: int): int {
    a * 65536 + b * 256 + c
  }

  // The four characters of a 24-bit group, high bits first.
  function Quad(group: int): (text: seq<byte>)
    ensures |text| == 4
  {
    [Symbol(group / 262144 % 64), Symbol(group / 4096 % 64), Symbol(group / 64 % 64), Symbol(group % 64)]
  }

  /** Section 4 of RFC 4648: each 24-bit group as four 6-bit values; a short last group is
      filled with zero bits and the missing characters are '='. */
  function Encoded(data: seq<byte>): (text: seq<byte>)
    ensures |text| == EncodedLength(|data|)
  {
    if data == [] then []
    else if |data| == 1 then Quad(Group(data[0], 0, 0))[..2] + [PAD, PAD]
    else if |data| == 2 then Quad(Group(data[0], data[1], 0))[..3] + [PAD]
    else
      EncodedLengthStep(|data|);
      Quad(Group(data[0], data[1], data[2])) + Encoded(data[3..])
  }

  // base64_encode_get_length
  function EncodedLength(size: nat): nat {
    (size + 2) / 3 * 4
  }

  lemma EncodedLengthStep(size: nat)
    requires size >= 3
    ensures EncodedLength(size) == 4 + EncodedLength(size - 3)
  {
    assert (size + 2) / 3 == 1 + (size - 3 + 2) / 3;
  }

  // The masks and shifts of the code pick out the four 6-bit fields of the group.
  lemma Sextets(a: byte, b: byte, c: byte)
    ensures Group(a, b, c) / 262144 % 64 == a / 4
    ensures Group(a, b, c) / 4096 % 64 == a % 4 * 16 + b / 16
    ensures Group(a, b, c) / 64 % 64 == b % 16 * 4 + c / 64
    ensures Group(a, b, c) % 64 == c % 64
  {
    HighSextets(a, b, c);
    LowSextets(a, b, c);
  }

  lemma By64(m: int, w: int)
    requires 0 <= w < 64
    ensures (64 * m + w) / 64 == m && (64 * m + w) % 64 == w
  {
  }

  lemma By4096(m: int, w: int)
    requires 0 <= w < 4096
    ensures (4096 * m + w) / 4096 == m
  {
  }

  lemma By262144(m: int, w: int)
    requires 0 <= w < 262144
    ensures (262144 * m + w) / 262144 == m
  {
  }

  lemma HighSextets(a: int, b: int, c: int)
    requires 0 <= a < 256 && 0 <= b < 256 && 0 <= c < 256
    ensures (a * 65536 + b * 256 + c) / 262144 == a / 4
    ensures (a * 65536 + b * 256 + c) / 4096 % 64 == a % 4 * 16 + b / 16
  {
    var x, y, z, w := a / 4, a % 4, b / 16, b % 16;
    assert a == 4 * x + y && b == 16 * z + w;
    By262144(x, 65536 * y + 4096 * z + 256 * w + c);
    By4096(64 * x + 16 * y + z, 256 * w + c);
    By64(x, 16 * y + z);
  }

  lemma LowSextets(a: int, b: int, c: int)
    requires 0 <= a < 256 && 0 <= b < 256 && 0 <= c < 256
    ensures (a * 65536 + b * 256 + c) / 64 % 64 == b % 16 * 4 + c / 64
    ensures (a * 65536 + b * 256 + c) % 64 == c % 64
  {
    var x, y, z, w := b / 16, b % 16, c / 64, c % 64;
    assert b == 16 * x + y && c == 64 * z + w;
    var high := 16 * a + x;
    By64(64 * high + 4 * y + z, w);
    By64(high, 4 * y + z);
  }

  // ---- Encoding ----

  // The first two characters of a group; the code's lambda encode_start.
  function EncodeStart(a: byte, b: byte): seq<byte> {
    [Symbol(a / 4), Symbol(a % 4 * 16 + b / 16)]
  }

  lemma QuadOfBytes(a: byte, b: byte, c: byte)
    ensures Quad(Group(a, b, c)) == EncodeStart(a, b) + [Symbol(b % 16 * 4 + c / 64), Symbol(c % 64)]
  {
    Sextets(a, b, c);
  }

  // The characters of the last one or two bytes.
  function EncodeEnd(data: seq<byte>): (text: seq<byte>)
    requires |data| < 3
    ensures text == Encoded(data)
  {
    if |data| == 2 then
      QuadOfBytes(data[0], data[1], 0);
      EncodeStart(data[0], data[1]) + [Symbol(data[1] % 16 * 4), PAD]
    else if |data| == 1 then
      QuadOfBytes(data[0], 0, 0);
      [Symbol(data[0] / 4), Symbol(data[0] % 4 * 16), PAD, PAD]
    else []
  }

  // Stores `bytes` at `dst`, extending what was written since `start`.
  method Put(out: array<byte>, start: nat, dst: nat, bytes: seq<byte>) returns (next: nat)
    requires start <= dst && dst + |bytes| <= out.Length
    modifies out
    ensures next == dst + |bytes| && out[start..next] == old(out[start..dst]) + bytes
    ensures out[..start] == old(out[..start])
  {
    MemCopy(out, dst, bytes);
    next := dst + |bytes|;
    assert out[..dst][start..] == out[start..dst] && out[..dst][..start] == out[..start];
    assert old(out[..dst])[start..] == old(out[start..dst]) && old(out[..dst])[..start] == old(out[..start]);
    assert out[start..next] == out[start..dst] + out[dst..next];
  }

  /** The encoding loop, writing characters at `start`. */
  method EncodeInto(out: array<byte>, start: nat, data: seq<byte>)
    requires start + EncodedLength(|data|) <= out.Length
    modifies out
    ensures out[start..start + EncodedLength(|data|)] == Encoded(data)
    ensures out[..start] == old(out[..start])
  {
    hide Encoded, Quad, Group, Symbol;
    var src, dst := 0, start;
    assert out[start..dst] + Encoded(data[src..]) == Encoded(data);
    while |data| - src >= 3
      invariant src <= |data| && start <= dst <= out.Length
      invariant out[start..dst] + Encoded(data[src..]) == Encoded(data)
      invariant out[..start] == old(out[..start])
    {
      var a, b, c := data[src], data[src + 1], data[src + 2];
      ghost var done, rest := out[start..dst], data[src..];
      var quad := EncodeStart(a, b) + [Symbol(b % 16 * 4 + c / 64), Symbol(c % 64)];
      EncodedStep(done, rest);
      QuadOfBytes(a, b, c);
      assert rest[3..] == data[src + 3..];
      dst := Put(out, start, dst, quad);
      src := src + 3;
    }
    assert |out[start..dst] + Encoded(data[src..])| == EncodedLength(|data|);
    var _ := Put(out, start, dst, EncodeEnd(data[src..]));
  }

  lemma EncodedUnfold(rest: seq<byte>)
    requires |rest| >= 3
    ensures Encoded(rest) == Quad(Group(rest[0], rest[1], rest[2])) + Encoded(rest[3..])
  {
    hide Quad, Group, EncodedLength;
  }

  lemma EncodedStep(done: seq<byte>, rest: seq<byte>)
    requires |rest| >= 3
    ensures done + Quad(Group(rest[0], rest[1], rest[2])) + Encoded(rest[3..]) == done + Encoded(rest)
    ensures 4 <= |Encoded(rest)|
  {
    hide *;
    EncodedUnfold(rest);
    Associative(done, Quad(Group(rest[0], rest[1], rest[2])), Encoded(rest[3..]));
  }

  // Counts in `size` bytes already written past the end.
  method Publish(buffer: Buffer, size: nat, granted: bool)
    requires buffer.Valid() && buffer.size + size <= buffer.capacity
    modifies buffer
    ensures buffer.Valid() && buffer.data == old(buffer.data) && buffer.maximum == old(buffer.maximum)
    ensures buffer.Bytes() == old(buffer.Bytes()) + old(buffer.Storage()[buffer.size..buffer.size + size])
  {
    ghost var storage, start := buffer.Storage(), buffer.size;
    assert storage[..start + size] == storage[..start] + storage[start..start + size];
    var _ := buffer.Resize(buffer.size + size, granted);
  }

  /** Appends the encoding of `data`; without memory nothing changes. */
  method Encode(buffer: Buffer, data: seq<byte>, granted: bool) returns (ok: bool)
    requires buffer.Valid() && buffer.size + EncodedLength(|data|) <= SIZE_MAX
    modifies buffer, buffer.data
    ensures buffer.Valid() && buffer.OwnStorage()
    ensures var size := old(buffer.size) + |Encoded(data)|;
      ok <==> data == [] || size <= old(buffer.capacity) || (size <= buffer.maximum && granted)
    ensures buffer.Bytes() == old(buffer.Bytes()) + if ok then Encoded(data) else []
  {
    var length := EncodedLength(|data|);
    if 0 == length {
      return true;
    }
    ok := buffer.Extend(length, granted);
    if !ok {
      return;
    }
    ghost var before := buffer.Bytes();
    assert before == buffer.data[..buffer.size];
    EncodeInto(buffer.data, buffer.size, data);
    assert buffer.Bytes() == before;
    Publish(buffer, length, granted);
  }

  // ---- Decoding ----

  /** The code's decode_char: any other character counts as '/'. */
  function DecodeChar(c: byte): (value: nat)
    ensures value < 64
  {
    if 65 <= c <= 90 then c - 65
    else if 97 <= c <= 122 then c - 97 + 26
    else if 48 <= c <= 57 then c - 48 + 52
    else if c == 43 then 62 else 63
  }

  lemma DecodeSymbol(value: nat)
    requires value < 64
    ensures DecodeChar(Symbol(value)) == value
  {
  }

  // The first, second and third byte of a group of characters.
  function First(p: byte, q: byte): byte {
    DecodeChar(p) * 4 + DecodeChar(q) / 16
  }

  function Second(q: byte, r: byte): byte {
    DecodeChar(q) % 16 * 16 + DecodeChar(r) / 4
  }

  function Third(r: byte, s: byte): byte {
    DecodeChar(r) % 4 * 64 + DecodeChar(s)
  }

  function Decode2(t: seq<byte>): seq<byte>
    requires |t| >= 2
  {
    [First(t[0], t[1])]
  }

  function Decode3(t: seq<byte>): seq<byte>
    requires |t| >= 3
  {
    Decode2(t) + [Second(t[1], t[2])]
  }

  function Decode4(t: seq<byte>): seq<byte>
    requires |t| >= 4
  {
    Decode3(t) + [Third(t[2], t[3])]
  }

  /** The bytes base64_decode writes. */
  function Decoded(text: seq<byte>): (data: seq<byte>)
    ensures |data| <= DecodedSize(|text|)
  {
    if |text| >= 5 then Decode4(text[..4]) + Decoded(text[4..])
    else if |text| == 4 then
      if text[3] != PAD then Decode4(text) else if text[2] != PAD then Decode3(text) else Decode2(text)
    else if |text| == 3 then Decode3(text)
    else []
  }

  // base64_decode_get_size
  function DecodedSize(length: nat): nat {
    3 * (length / 4) + 2
  }

  method DecodeInto(out: array<byte>, start: nat, text: seq<byte>) returns (ok: bool)
    requires start + DecodedSize(|text|) <= out.Length
    modifies out
    ensures ok <==> text != [] && |text| % 4 != 1
    ensures ok ==> Decoded(text) <= out[start..start + DecodedSize(|text|)]
    ensures out[..start] == old(out[..start])
  {
    hide Decoded, Decode2, Decode3, Decode4, DecodedSize;
    var src, dst := 0, start;
    ghost var groups := 0;
    while |text| - src >= 5
      invariant src == 4 * groups <= |text| && (src > 0 ==> src < |text|) && start <= dst <= out.Length
      invariant out[start..dst] + Decoded(text[src..]) == Decoded(text)
      invariant out[..start] == old(out[..start])
    {
      ghost var done, rest := out[start..dst], text[src..];
      DecodedStep(done, rest);
      assert rest[..4] == text[src..src + 4] && rest[4..] == text[src + 4..];
      dst := Put(out, start, dst, Decode4(text[src..src + 4]));
      src := src + 4;
      groups := groups + 1;
    }
    var rest := text[src..];
    var end := DecodeLast(rest);
    if end.None? {
      return false;
    }
    assert |out[start..dst] + end.value| == |Decoded(text)|;
    var next := Put(out, start, dst, end.value);
    SliceOfSlice(out[..], start, next - start, DecodedSize(|text|));
    ok := true;
  }

  // The switch on what is left after the loop; None where the code asserts.
  method DecodeLast(rest: seq<byte>) returns (end: Option<seq<byte>>)
    requires |rest| < 5
    ensures end == if |rest| < 2 then None else Some(Decoded(rest))
  {
    match |rest| {
      case 4 =>
        end := Some(if PAD != rest[3] then Decode4(rest) else if PAD != rest[2] then Decode3(rest) else Decode2(rest));
      case 3 =>
        end := Some(Decode3(rest));
      case 2 =>
        end := Some([]);
      case _ =>
        end := None;
    }
  }

  lemma DecodedUnfold(rest: seq<byte>)
    requires |rest| >= 5
    ensures Decoded(rest) == Decode4(rest[..4]) + Decoded(rest[4..])
  {
  }

  lemma DecodedStep(done: seq<byte>, rest: seq<byte>)
    requires |rest| >= 5
    ensures done + Decode4(rest[..4]) + Decoded(rest[4..]) == done + Decoded(rest)
    ensures |Decode4(rest[..4])| <= |Decoded(rest)|
  {
    hide *;
    DecodedUnfold(rest);
    Associative(done, Decode4(rest[..4]), Decoded(rest[4..]));
  }

  /** Appends DecodedSize bytes, of which the first are the decoded ones; the rest is
      whatever the storage held.  An allocation failure throws. */
  method Decode(buffer: Buffer, text: seq<byte>, granted: bool) returns (ok: bool)
    requires buffer.Valid() && buffer.size + DecodedSize(|text|) <= SIZE_MAX
    requires var size := buffer.size + DecodedSize(|text|);
      size <= buffer.capacity || (size <= buffer.maximum && granted)
    modifies buffer, buffer.data
    ensures buffer.Valid() && buffer.OwnStorage()
    ensures ok <==> text != [] && |text| % 4 != 1
    ensures !ok ==> buffer.Bytes() == old(buffer.Bytes())
    ensures ok ==> |buffer.Bytes()| == old(buffer.size) + 3 * (|text| / 4) + 2
    ensures ok ==> old(buffer.Bytes()) + Decoded(text) <= buffer.Bytes()
  {
    var size := DecodedSize(|text|);
    hide Decoded, DecodedSize;
    var _ := buffer.Extend(size, granted);
    ghost var before := buffer.Bytes();
    assert before == buffer.data[..buffer.size];
    ok := DecodeInto(buffer.data, buffer.size, text);
    assert buffer.Bytes() == before;
    if !ok {
      return;
    }
    ghost var extended := buffer.data[buffer.size..buffer.size + size];
    Publish(buffer, size, granted);
    PrefixOfSum(before, extended, Decoded(text));
  }

  lemma SliceOfSlice(s: seq<byte>, at: nat, n: nat, m: nat)
    requires n <= m && at + m <= |s|
    ensures s[at..at + m][..n] == s[at..at + n]
  {
  }

  lemma PrefixOfSum(a: seq<byte>, b: seq<byte>, c: seq<byte>)
    requires c <= b
    ensures a + c <= a + b
  {
  }

  // ---- The round trip ----

  lemma FirstRoundTrip(a: byte, b: byte)
    ensures First(Symbol(a / 4), Symbol(a % 4 * 16 + b / 16)) == a
  {
    var q := a % 4 * 16 + b / 16;
    DecodeSymbol(a / 4);
    DecodeSymbol(q);
    hide DecodeChar, Symbol;
    assert q / 16 == a % 4;
  }

  lemma SecondRoundTrip(a: byte, b: byte, c: byte)
    ensures Second(Symbol(a % 4 * 16 + b / 16), Symbol(b % 16 * 4 + c / 64)) == b
  {
    var high, low := b / 16, b % 16;
    var q, r := a % 4 * 16 + high, low * 4 + c / 64;
    DecodeSymbol(q);
    DecodeSymbol(r);
    hide DecodeChar, Symbol;
    assert q % 16 == high && r / 4 == low;
  }

  lemma ThirdRoundTrip(b: byte, c: byte)
    ensures Third(Symbol(b % 16 * 4 + c / 64), Symbol(c % 64)) == c
  {
    var r := b % 16 * 4 + c / 64;
    DecodeSymbol(r);
    DecodeSymbol(c % 64);
    hide DecodeChar, Symbol;
    assert r % 4 == c / 64;
  }

  lemma TripleRoundTrip(a: byte, b: byte, c: byte)
    ensures Decode4(Quad(Group(a, b, c))) == [a, b, c]
    ensures Decode3(Quad(Group(a, b, c))) == [a, b]
    ensures Decode2(Quad(Group(a, b, c))) == [a]
  {
    QuadOfBytes(a, b, c);
    FirstRoundTrip(a, b);
    SecondRoundTrip(a, b, c);
    ThirdRoundTrip(b, c);
  }

  /** Decoding an encoding writes the original bytes first ... */
  lemma {:induction false} EncodeDecode(data: seq<byte>)
    requires data != []
    ensures Decoded(Encoded(data)) == data
    decreases |data|
  {
    var text := Encoded(data);
    if |data| == 1 {
      TripleRoundTrip(data[0], 0, 0);
    } else if |data| == 2 {
      TripleRoundTrip(data[0], data[1], 0);
    } else {
      TripleRoundTrip(data[0], data[1], data[2]);
      var rest := data[3..];
      assert text[..4] == Quad(Group(data[0], data[1], data[2])) && text[4..] == Encoded(rest);
      assert data == [data[0], data[1], data[2]] + rest;
      if rest != [] {
        EncodeDecode(rest);
      } else {
        assert text == text[..4];
      }
    }
  }

  /** The test vectors of section 10 of RFC 4648, for "f" up to "foobar". */
  lemma Rfc4648Vectors()
    ensures Encoded([]) == []
    ensures Encoded([102]) == [90, 103, 61, 61]
    ensures Encoded([102, 111]) == [90, 109, 56, 61]
    ensures Encoded([102, 111, 111]) == [90, 109, 57, 118]
    ensures Encoded([102, 111, 111, 98]) == [90, 109, 57, 118, 89, 103, 61, 61]
    ensures Encoded([102, 111, 111, 98, 97]) == [90, 109, 57, 118, 89, 109, 69, 61]
    ensures Encoded([102, 111, 111, 98, 97, 114]) == [90, 109, 57, 118, 89, 109, 70, 121]
  {
    var foo, bar: seq<byte> := [102, 111, 111], [98, 97, 114];
    ShortVectors();
    assert Encoded([]) == [];
    hide Encoded, Quad, Group;
    OneGroup(foo, []);
    OneGroup(foo, [98]);
    OneGroup(foo, [98, 97]);
    OneGroup(bar, []);
    OneGroup(foo, bar);
    assert foo + [] == foo && bar + [] == bar;
    assert foo + [98] == [102, 111, 111, 98] && foo + [98, 97] == [102, 111, 111, 98, 97];
    assert foo + bar == [102, 111, 111, 98, 97, 114];
  }

  lemma ShortVectors()
    ensures Quad(Group(102, 111, 111)) == [90, 109, 57, 118] && Quad(Group(98, 97, 114)) == [89, 109, 70, 121]
    ensures Encoded([102]) == [90, 103, 61, 61] && Encoded([102, 111]) == [90, 109, 56, 61]
    ensures Encoded([98]) == [89, 103, 61, 61] && Encoded([98, 97]) == [89, 109, 69, 61]
  {
    QuadOfBytes(102, 111, 111);
    QuadOfBytes(98, 97, 114);
    assert EncodeEnd([102]) == Encoded([102]) && EncodeEnd([102, 111]) == Encoded([102, 111]);
    assert EncodeEnd([98]) == Encoded([98]) && EncodeEnd([98, 97]) == Encoded([98, 97]);
    hide Encoded, Quad, Group;
  }

  lemma OneGroup(data: seq<byte>, rest: seq<byte>)
    requires |data| == 3
    ensures Encoded(data + rest) == Quad(Group(data[0], data[1], data[2])) + Encoded(rest)
  {
    assert (data + rest)[3..] == rest;
  }

  predicate InAlphabet(c: byte) {
    Symbol(DecodeChar(c)) == c
  }

  /** The other way round: whole groups of characters of the alphabet, unpadded, come back
      when what they decode to is encoded. */
  lemma {:induction false} DecodeEncode(text: seq<byte>)
    requires |text| % 4 == 0 && forall c | c in text :: InAlphabet(c)
    ensures Encoded(Decoded(text)) == text
    decreases |text|
  {
    if text != [] {
      var quad, rest := text[..4], text[4..];
      assert text == quad + rest && forall i | 0 <= i < 4 :: quad[i] in text;
      DecodeEncode(rest);
      GroupComesBack(quad);
      FirstGroup(quad, rest);
      hide Encoded, Decoded, Decode4, Quad, Group;
      OneGroup(Decode4(quad), Decoded(rest));
    }
  }

  lemma FirstGroup(quad: seq<byte>, rest: seq<byte>)
    requires |quad| == 4 && |rest| % 4 == 0 && PAD !in quad
    ensures Decoded(quad + rest) == Decode4(quad) + Decoded(rest)
  {
    hide Decode4, Decode3, Decode2;
    assert (quad + rest)[..4] == quad && (quad + rest)[4..] == rest;
    assert quad[3] in quad;
    if rest == [] {
      assert quad + rest == quad && Decoded([]) == [];
    }
  }

  lemma GroupComesBack(quad: seq<byte>)
    requires |quad| == 4 && forall c | c in quad :: InAlphabet(c)
    ensures var data := Decode4(quad); Quad(Group(data[0], data[1], data[2])) == quad
    ensures PAD !in quad
  {
    assert quad[0] in quad && quad[1] in quad && quad[2] in quad && quad[3] in quad;
    FourBack(quad[0], quad[1], quad[2], quad[3]);
    assert Decode4(quad) == Decode4([quad[0], quad[1], quad[2], quad[3]]);
    hide Decode4, Quad, Group, DecodeChar;
    assert quad == [quad[0], quad[1], quad[2], quad[3]];
  }

  lemma FourBack(c0: byte, c1: byte, c2: byte, c3: byte)
    requires InAlphabet(c0) && InAlphabet(c1) && InAlphabet(c2) && InAlphabet(c3)
    ensures var data := Decode4([c0, c1, c2, c3]); Quad(Group(data[0], data[1], data[2])) == [c0, c1, c2, c3]
  {
    hide Symbol, DecodeChar;
    var data := Decode4([c0, c1, c2, c3]);
    assert data == [First(c0, c1), Second(c1, c2), Third(c2, c3)];
    var p, q, r, s := DecodeChar(c0), DecodeChar(c1), DecodeChar(c2), DecodeChar(c3);
    SextetsBack(p, q, r, s);
    QuadOfBytes(data[0], data[1], data[2]);
    hide Quad, Group;
  }

  lemma SextetsBack(p: int, q: int, r: int, s: int)
    requires 0 <= p < 64 && 0 <= q < 64 && 0 <= r < 64 && 0 <= s < 64
    ensures var a, b, c := p * 4 + q / 16, q % 16 * 16 + r / 4, r % 4 * 64 + s;
      a / 4 == p && a % 4 * 16 + b / 16 == q && b % 16 * 4 + c / 64 == r && c % 64 == s
  {
  }

  /** Without the padding a last group of three decodes as with it ... */
  lemma {:induction false} ThreeWithoutPadding(text: seq<byte>)
    requires PAD !in text && |text| % 4 == 3
    ensures Decoded(text) == Decoded(text + [PAD])
    decreases |text|
  {
    hide Decode4, Decode3, Decode2;
    if |text| >= 4 {
      var quad, rest := text[..4], text[4..];
      assert text == quad + rest && text + [PAD] == quad + (rest + [PAD]);
      ThreeWithoutPadding(rest);
      FirstFour(quad, rest);
      FirstFour(quad, rest + [PAD]);
      hide Decoded;
    } else {
      assert text[2] in text && (text + [PAD])[..3] == text;
      ThreeOfFour(text, PAD);
    }
  }

  /** ... and one of two characters to nothing, although it carries a byte. */
  lemma {:induction false} TwoWithoutPadding(text: seq<byte>)
    requires PAD !in text && |text| % 4 == 2
    ensures Decoded(text) == Decoded(text[..|text| - 2])
    decreases |text|
  {
    hide Decode4, Decode3, Decode2;
    if |text| >= 4 {
      var quad, rest := text[..4], text[4..];
      assert text == quad + rest && text[..|text| - 2] == quad + rest[..|rest| - 2];
      TwoWithoutPadding(rest);
      FirstFour(quad, rest);
      FirstGroup(quad, rest[..|rest| - 2]);
      hide Decoded;
    }
  }

  lemma FirstFour(quad: seq<byte>, rest: seq<byte>)
    requires |quad| == 4 && rest != []
    ensures Decoded(quad + rest) == Decode4(quad) + Decoded(rest)
  {
    assert (quad + rest)[..4] == quad && (quad + rest)[4..] == rest;
  }

  lemma ThreeOfFour(text: seq<byte>, c: byte)
    requires |text| == 3
    ensures Decode3(text + [c]) == Decode3(text)
  {
  }

  /** ... into a buffer that grows by two to four bytes more than that: the decoded buffer
      as a whole is never the input. */
  lemma DecodeOvershoots(data: seq<byte>)
    requires data != []
    ensures |data| + 2 <= DecodedSize(|Encoded(data)|) <= |data| + 4
  {
    hide Encoded;
    var groups := (|data| + 2) / 3;
    assert |Encoded(data)| == groups * 4 && groups * 4 / 4 == groups;
    assert |data| <= 3 * groups <= |data| + 2;
  }
}
