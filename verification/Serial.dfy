/** be:: and le:: Serializer over a Sink and Deserializer over a Source, for schemas of any
    fields and length. */
module Serial {
  import opened Basics
  import opened Endian
  import opened Searching
  import opened SourceSink
  import opened Stream

  // The be and le namespaces.
  datatype Order = Big | Little

  /** The field types; floats travel as bit patterns, octet strings have an agreed length,
      texts end in a NUL. */
  datatype Kind = Bool | Unsigned(width: nat) | Signed(width: nat) | Float(width: nat) | Octets(length: nat) | CString

  datatype Value = Flag(b: bool) | Number(n: int) | Bits(bits: int) | Chunk(chunk: seq<byte>) | Text(text: seq<byte>)

  predicate IsWidth(w: nat) {
    w == 1 || w == 2 || w == 4 || w == 8
  }

  predicate Supported(kind: Kind) {
    match kind
    case Unsigned(width) => IsWidth(width)
    case Signed(width) => IsWidth(width)
    case Float(width) => width == 4 || width == 8
    case _ => true
  }

  predicate HasKind(v: Value, kind: Kind) {
    && Supported(kind)
    && match kind
       case Bool => v.Flag?
       case Unsigned(width) => v.Number? && InUnsigned(width, v.n)
       case Signed(width) => v.Number? && InSigned(width, v.n)
       case Float(width) => v.Bits? && InUnsigned(width, v.bits)
       case Octets(length) => v.Chunk? && |v.chunk| == length
       case CString => v.Text? && 0 !in v.text
  }

  function EncodeInt(order: Order, width: nat, n: int): (s: seq<byte>)
    ensures |s| == width
  {
    if order.Big? then BigEndian(width, n) else LittleEndian(width, n)
  }

  function DecodeInt(order: Order, s: seq<byte>): nat {
    if order.Big? then FromBigEndian(s) else FromLittleEndian(s)
  }

  function Encode(order: Order, kind: Kind, v: Value): seq<byte>
    requires HasKind(v, kind)
  {
    match kind
    case Bool => [if v.b then 1 else 0]
    case Unsigned(width) => EncodeInt(order, width, v.n)
    case Signed(width) => EncodeInt(order, width, v.n)
    case Float(width) => EncodeInt(order, width, v.bits)
    case Octets(_) => v.chunk
    case CString => v.text + [0]
  }

  // Whether the remaining bytes hold a field of this kind; the code asserts it.
  predicate CanRead(kind: Kind, s: seq<byte>) {
    && Supported(kind)
    && match kind
       case Bool => |s| >= 1
       case Octets(length) => |s| >= length
       case CString => Find(s, [0], 0).Some?
       case _ => |s| >= kind.width
  }

  /** The value at the front of `s` and how many bytes it took. */
  function Decode(order: Order, kind: Kind, s: seq<byte>): (Value, nat)
    requires CanRead(kind, s)
  {
    match kind
    case Bool => (Flag(s[0] != 0), 1)
    case Unsigned(width) => (Number(DecodeInt(order, s[..width])), width)
    case Signed(width) => (Number(AsSigned(width, DecodeInt(order, s[..width]))), width)
    case Float(width) => (Bits(DecodeInt(order, s[..width])), width)
    case Octets(length) => (Chunk(s[..length]), length)
    case CString => var end := Find(s, [0], 0).value; (Text(s[..end]), end + 1)
  }

  // ---- The objects ----

  class Serializer {
    const order: Order
    const sink: Sink

    constructor (order: Order, sink: Sink)
      ensures this.order == order && this.sink == sink
    {
      this.order, this.sink := order, sink;
    }

    // transform<T>() of an arithmetic type of `width` bytes, through the produced pointer.
    method TransformInt(width: nat, n: int)
      requires IsWidth(width) && sink.maximum != MINIMAL_CAPACITY && |sink.data| + width <= sink.maximum
      modifies sink
      ensures sink.data == old(sink.data) + EncodeInt(order, width, n)
    {
      var cell := new byte[width](_ => 0);
      var at := |sink.data|;
      var _ := sink.Produce(cell[..]);
      match order {
        case Big =>
          match width {
            case 1 => StoreBig1(cell, 0, n);
            case 2 => StoreBig2(cell, 0, n);
            case 4 => StoreBig4(cell, 0, n);
            case _ => StoreBig8(cell, 0, n);
          }
        case Little =>
          match width {
            case 1 => StoreLittle1(cell, 0, n);
            case 2 => StoreLittle2(cell, 0, n);
            case 4 => StoreLittle4(cell, 0, n);
            case _ => StoreLittle8(cell, 0, n);
          }
      }
      assert cell[..] == EncodeInt(order, width, n);
      sink.Poke(at, cell[..]);
    }

    /** Any field: appends exactly its encoding. */
    method Transform(kind: Kind, v: Value)
      requires HasKind(v, kind) && sink.maximum != MINIMAL_CAPACITY
      requires |sink.data| + |Encode(order, kind, v)| <= sink.maximum
      modifies sink
      ensures sink.data == old(sink.data) + Encode(order, kind, v)
    {
      match kind {
        case Bool =>
          TransformInt(1, if v.b then 1 else 0);
          OneOctet(order, if v.b then 1 else 0);
        case Unsigned(width) => TransformInt(width, v.n);
        case Signed(width) => TransformInt(width, v.n);
        case Float(width) => TransformInt(width, v.bits);
        case Octets(_) => var _ := sink.ProduceBytes(v.chunk);
        case CString => var _ := sink.ProduceBytes(v.text + [0]);
      }
    }
  }

  lemma OneOctet(order: Order, n: int)
    requires 0 <= n < 256
    ensures EncodeInt(order, 1, n) == [n]
  {
    assert BigEndian(0, n / 256) == [] && LittleEndian(0, n / 256) == [];
  }

  class Deserializer {
    const order: Order
    const source: Source

    constructor (order: Order, source: Source)
      ensures this.order == order && this.source == source
    {
      this.order, this.source := order, source;
    }

    method TransformInt(width: nat) returns (n: nat)
      requires source.Valid() && IsWidth(width) && width <= |source.Rest()|
      modifies source
      ensures source.Valid() && source.progress == old(source.progress) + width
      ensures n == DecodeInt(order, old(source.Rest())[..width])
    {
      var p := source.Consume(width);
      assert p == old(source.Rest())[..width];
      match order {
        case Big =>
          n := match width
            case 1 => p[0]
            case 2 => LoadBig2(p)
            case 4 => LoadBig4(p)
            case _ => LoadBig8(p);
        case Little =>
          n := match width
            case 1 => p[0]
            case 2 => LoadLittle2(p)
            case 4 => LoadLittle4(p)
            case _ => LoadLittle8(p);
      }
      if width == 1 {
        assert FromBigEndian(p[..0]) == 0 && FromLittleEndian(p[1..]) == 0;
      }
    }

    /** The C string up to the first NUL, which is consumed too. */
    method TransformText() returns (text: seq<byte>)
      requires source.Valid() && Find(source.Rest(), [0], 0).Some?
      modifies source
      ensures source.Valid()
      ensures var end := Find(old(source.Rest()), [0], 0).value;
        text == old(source.Rest())[..end] && source.progress == old(source.progress) + end + 1
    {
      hide Find;
      ghost var rest, end := source.Rest(), Find(source.Rest(), [0], 0).value;
      ghost var start := source.progress;
      text := [];
      var c := source.Consume(1);
      assert c == rest[..1];
      while c != [0]
        invariant source.Valid() && |text| <= end && source.progress == start + |text| + 1
        invariant text == rest[..|text|] && c == [rest[|text|]]
        decreases end - |text|
      {
        assert !OccursAt(rest, [0], |text|);
        assert |text| < end;
        text := text + c;
        assert source.Rest() == rest[|text|..];
        c := source.Consume(1);
      }
      assert OccursAt(rest, [0], |text|);
    }

    /** Any field: its value, consuming exactly its bytes. */
    method Transform(kind: Kind) returns (v: Value)
      requires source.Valid() && CanRead(kind, source.Rest())
      modifies source
      ensures source.Valid()
      ensures var (value, size) := Decode(order, kind, old(source.Rest()));
        v == value && source.progress == old(source.progress) + size
      ensures kind.Bool? ==> v == Flag(old(source.Rest())[0] != 0)
    {
      match kind {
        case Bool =>
          var p := source.Consume(1);
          v := Flag(p[0] != 0);
        case Unsigned(width) =>
          var n := TransformInt(width);
          v := Number(n);
        case Signed(width) =>
          var n := TransformInt(width);
          v := Number(AsSigned(width, n));
        case Float(width) =>
          var n := TransformInt(width);
          v := Bits(n);
        case Octets(length) =>
          var p := source.Consume(length);
          v := Chunk(p);
        case CString =>
          var text := TransformText();
          v := Text(text);
      }
    }
  }

  // ---- The bytes ----

  // What an integer field puts on the wire.
  ghost predicate OctetsOf(code: seq<byte>, order: Order, width: nat, n: int) {
    && |code| == width
    && forall i: nat | i < width :: code[if order.Big? then width - 1 - i else i] == n / Power256(i) % 256
  }

  /** Every field's bytes: a flag is the octet 1 or 0; of an integer of either sign, or the bits
      of a float, the octet worth 256^i stands i-th from the end or i-th from the front; octet
      strings go as they are, and a text is followed by a NUL. */
  lemma WireFormat(order: Order, kind: Kind, v: Value)
    requires HasKind(v, kind)
    ensures match kind
      case Bool => Encode(order, kind, v) == [if v.b then 1 else 0]
      case Unsigned(width) => OctetsOf(Encode(order, kind, v), order, width, v.n)
      case Signed(width) => OctetsOf(Encode(order, kind, v), order, width, v.n)
      case Float(width) => OctetsOf(Encode(order, kind, v), order, width, v.bits)
      case Octets(_) => Encode(order, kind, v) == v.chunk
      case CString => Encode(order, kind, v) == v.text + [0]
  {
    match kind
    case Unsigned(width) => IntOctets(order, width, v.n);
    case Signed(width) => IntOctets(order, width, v.n);
    case Float(width) => IntOctets(order, width, v.bits);
    case _ =>
  }

  lemma IntOctets(order: Order, width: nat, n: int)
    ensures OctetsOf(EncodeInt(order, width, n), order, width, n)
  {
    forall i: nat | i < width
      ensures LittleEndian(width, n)[i] == n / Power256(i) % 256 == BigEndian(width, n)[width - 1 - i]
    {
      OctetAt(width, n, i);
    }
  }

  // ---- The round trip ----

  lemma IntRoundTrip(order: Order, width: nat, n: int)
    requires width > 0
    ensures InUnsigned(width, n) ==> DecodeInt(order, EncodeInt(order, width, n)) == n
    ensures InSigned(width, n) ==> AsSigned(width, DecodeInt(order, EncodeInt(order, width, n))) == n
  {
    LittleIsReversedBig(width, n);
    FromLittleReversed(BigEndian(width, n));
    if InUnsigned(width, n) {
      UnsignedRoundTrip(width, n);
    }
    if InSigned(width, n) {
      SignedRoundTrip(width, n);
    }
  }

  lemma TextEnds(text: seq<byte>, rest: seq<byte>)
    requires 0 !in text
    ensures Find(text + [0] + rest, [0], 0) == Some(|text|)
  {
    var s := text + [0] + rest;
    assert OccursAt(s, [0], |text|);
    forall p | 0 <= p < |text|
      ensures !OccursAt(s, [0], p)
    {
      assert s[p] == text[p] && s[p..p + 1][0] == s[p];
    }
  }

  lemma FieldRoundTrip(order: Order, kind: Kind, v: Value, rest: seq<byte>)
    requires HasKind(v, kind)
    ensures CanRead(kind, Encode(order, kind, v) + rest)
    ensures Decode(order, kind, Encode(order, kind, v) + rest) == (v, |Encode(order, kind, v)|)
  {
    var code := Encode(order, kind, v);
    var s := code + rest;
    assert s[..|code|] == code;
    match kind
    case Unsigned(width) => IntRoundTrip(order, width, v.n);
    case Signed(width) => IntRoundTrip(order, width, v.n);
    case Float(width) => IntRoundTrip(order, width, v.bits);
    case CString =>
      TextEnds(v.text, rest);
      assert s[..|v.text|] == v.text;
    case _ =>
  }

  datatype Field = Field(kind: Kind, value: Value)

  predicate Typed(fields: seq<Field>) {
    forall f | f in fields :: HasKind(f.value, f.kind)
  }

  /** A chain of transform() calls on a Serializer. */
  function EncodeAll(order: Order, fields: seq<Field>): seq<byte>
    requires Typed(fields)
  {
    if fields == [] then [] else Encode(order, fields[0].kind, fields[0].value) + EncodeAll(order, fields[1..])
  }

  /** The same chain on a Deserializer: the values, and the bytes left, unless it runs out. */
  function DecodeAll(order: Order, kinds: seq<Kind>, s: seq<byte>): Option<(seq<Value>, seq<byte>)>
    decreases |kinds|
  {
    if kinds == [] then Some(([], s))
    else if !CanRead(kinds[0], s) then None
    else
      var (v, size) := Decode(order, kinds[0], s);
      if size > |s| then None
      else
        match DecodeAll(order, kinds[1..], s[size..])
        case None => None
        case Some(result) => Some(([v] + result.0, result.1))
  }

  function Kinds(fields: seq<Field>): (kinds: seq<Kind>)
    ensures |kinds| == |fields| && forall i | 0 <= i < |fields| :: kinds[i] == fields[i].kind
  {
    if fields == [] then [] else [fields[0].kind] + Kinds(fields[1..])
  }

  function Values(fields: seq<Field>): (values: seq<Value>)
    ensures |values| == |fields| && forall i | 0 <= i < |fields| :: values[i] == fields[i].value
  {
    if fields == [] then [] else [fields[0].value] + Values(fields[1..])
  }

  lemma FieldStep(order: Order, f: Field, kinds: seq<Kind>, tail: seq<byte>, values: seq<Value>, rest: seq<byte>)
    requires HasKind(f.value, f.kind) && DecodeAll(order, kinds, tail) == Some((values, rest))
    ensures DecodeAll(order, [f.kind] + kinds, Encode(order, f.kind, f.value) + tail)
         == Some(([f.value] + values, rest))
  {
    var code := Encode(order, f.kind, f.value);
    FieldRoundTrip(order, f.kind, f.value, tail);
    assert ([f.kind] + kinds)[1..] == kinds && (code + tail)[|code|..] == tail;
  }

  lemma FieldsCons(order: Order, fields: seq<Field>, rest: seq<byte>)
    requires Typed(fields) && fields != []
    ensures var first, others := fields[0], fields[1..];
      && Kinds(fields) == [first.kind] + Kinds(others) && Values(fields) == [first.value] + Values(others)
      && EncodeAll(order, fields) + rest == Encode(order, first.kind, first.value) + (EncodeAll(order, others) + rest)
  {
    var first, others := fields[0], fields[1..];
    var head, tail := Encode(order, first.kind, first.value), EncodeAll(order, others);
    assert EncodeAll(order, fields) == head + tail;
    hide EncodeAll, Encode, Kinds, Values, HasKind;
    Associative(head, tail, rest);
  }

  /** Whatever the schema: deserializing gives back the values and consumes exactly the
      bytes produced. */
  lemma {:induction false} SchemaRoundTrip(order: Order, fields: seq<Field>, rest: seq<byte>)
    requires Typed(fields)
    ensures DecodeAll(order, Kinds(fields), EncodeAll(order, fields) + rest) == Some((Values(fields), rest))
    decreases |fields|
  {
    if fields == [] {
      assert [] + rest == rest;
    } else {
      var others := fields[1..];
      SchemaRoundTrip(order, others, rest);
      FieldsCons(order, fields, rest);
      FieldStep(order, fields[0], Kinds(others), EncodeAll(order, others) + rest, Values(others), rest);
    }
  }

  // ---- The objects together ----

  lemma {:induction false} EncodeAllSnoc(order: Order, fields: seq<Field>, f: Field)
    requires Typed(fields) && HasKind(f.value, f.kind)
    ensures Typed(fields + [f])
    ensures EncodeAll(order, fields + [f]) == EncodeAll(order, fields) + Encode(order, f.kind, f.value)
    decreases |fields|
  {
    hide Encode, HasKind;
    var code := Encode(order, f.kind, f.value);
    if fields == [] {
      assert [f][1..] == [] && code + [] == [] + code;
    } else {
      EncodeAllSnoc(order, fields[1..], f);
      assert (fields + [f])[1..] == fields[1..] + [f];
      Associative(Encode(order, fields[0].kind, fields[0].value), EncodeAll(order, fields[1..]), code);
    }
  }

  // One field of the chain fits if the whole does.
  lemma FitsSoFar(order: Order, fields: seq<Field>, k: nat)
    requires Typed(fields) && k < |fields|
    ensures Typed(fields[..k]) && Typed(fields[..k + 1])
    ensures EncodeAll(order, fields[..k + 1])
         == EncodeAll(order, fields[..k]) + Encode(order, fields[k].kind, fields[k].value)
    ensures |EncodeAll(order, fields[..k + 1])| <= |EncodeAll(order, fields)|
    decreases |fields| - k
  {
    hide Encode, HasKind;
    assert fields[..k + 1] == fields[..k] + [fields[k]];
    EncodeAllSnoc(order, fields[..k], fields[k]);
    if k + 1 < |fields| {
      FitsSoFar(order, fields, k + 1);
    } else {
      assert fields[..k + 1] == fields;
    }
  }

  /** A chain of transform() calls appends the encoding of all fields to the bounded sink. */
  method TransformAll(serializer: Serializer, fields: seq<Field>)
    requires Typed(fields) && serializer.sink.maximum != MINIMAL_CAPACITY
    requires |serializer.sink.data| + |EncodeAll(serializer.order, fields)| <= serializer.sink.maximum
    modifies serializer.sink
    ensures serializer.sink.data == old(serializer.sink.data) + EncodeAll(serializer.order, fields)
  {
    hide Encode, EncodeAll, HasKind;
    assert fields[..0] == [] && EncodeAll(serializer.order, []) == [] by { EmptyCode(serializer.order); }
    for k := 0 to |fields|
      invariant Typed(fields[..k])
      invariant serializer.sink.data == old(serializer.sink.data) + EncodeAll(serializer.order, fields[..k])
    {
      FitsSoFar(serializer.order, fields, k);
      serializer.Transform(fields[k].kind, fields[k].value);
      Associative(old(serializer.sink.data), EncodeAll(serializer.order, fields[..k]),
                  Encode(serializer.order, fields[k].kind, fields[k].value));
    }
    assert fields[..|fields|] == fields;
  }

  lemma EmptyCode(order: Order)
    ensures EncodeAll(order, []) == []
  {
  }

  // One step of DecodeAll.
  lemma DecodeAllUnfold(order: Order, kinds: seq<Kind>, s: seq<byte>)
    requires kinds != [] && DecodeAll(order, kinds, s).Some?
    ensures CanRead(kinds[0], s)
    ensures var (v, size) := Decode(order, kinds[0], s);
      && size <= |s| && DecodeAll(order, kinds[1..], s[size..]).Some?
      && DecodeAll(order, kinds, s).value
         == ([v] + DecodeAll(order, kinds[1..], s[size..]).value.0, DecodeAll(order, kinds[1..], s[size..]).value.1)
  {
    hide CanRead, Decode;
  }

  /** A chain of transform() calls returns the decoded values and leaves the rest. */
  method ReadAll(deserializer: Deserializer, kinds: seq<Kind>) returns (values: seq<Value>)
    requires deserializer.source.Valid() && DecodeAll(deserializer.order, kinds, deserializer.source.Rest()).Some?
    modifies deserializer.source
    ensures deserializer.source.Valid()
    ensures DecodeAll(deserializer.order, kinds, old(deserializer.source.Rest()))
         == Some((values, deserializer.source.Rest()))
  {
    hide CanRead, Decode, DecodeAll;
    values := [];
    ghost var all := DecodeAll(deserializer.order, kinds, deserializer.source.Rest()).value;
    assert kinds[0..] == kinds;
    for k := 0 to |kinds|
      invariant deserializer.source.Valid()
      invariant DecodeAll(deserializer.order, kinds[k..], deserializer.source.Rest()).Some?
      invariant all.0 == values + DecodeAll(deserializer.order, kinds[k..], deserializer.source.Rest()).value.0
      invariant all.1 == DecodeAll(deserializer.order, kinds[k..], deserializer.source.Rest()).value.1
    {
      ghost var rest := deserializer.source.Rest();
      DecodeAllUnfold(deserializer.order, kinds[k..], rest);
      ghost var size := Decode(deserializer.order, kinds[k], rest).1;
      ghost var later := DecodeAll(deserializer.order, kinds[k..][1..], rest[size..]).value.0;
      assert all.0 == values + DecodeAll(deserializer.order, kinds[k..], rest).value.0;
      var v := deserializer.Transform(kinds[k]);
      Associative(values, [v], later);
      values := values + [v];
      assert all.0 == values + later;
      assert deserializer.source.Rest() == rest[size..];
      assert kinds[k..][1..] == kinds[k + 1..];
    }
    NothingToDecode(deserializer.order, deserializer.source.Rest());
    assert kinds[|kinds|..] == [] && values + [] == values;
  }

  lemma NothingToDecode(order: Order, s: seq<byte>)
    ensures DecodeAll(order, [], s) == Some(([], s))
  {
  }

  /** Fields written by a chain of calls into a bounded sink with room for them, and read from
      a source of its bytes by the same schema: the same values, and the source is used up. */
  method Transfer(order: Order, fields: seq<Field>) returns (values: seq<Value>, left: seq<byte>)
    requires Typed(fields)
    ensures values == Values(fields) && left == []
  {
    var sink := new Sink(|EncodeAll(order, fields)| + 1, [], true);
    var serializer := new Serializer(order, sink);
    TransformAll(serializer, fields);
    SchemaRoundTrip(order, fields, []);
    hide EncodeAll, DecodeAll, HasKind, Kinds, Values;
    assert sink.data + [] == sink.data == [] + EncodeAll(order, fields) == EncodeAll(order, fields);
    var source := new Source(sink.data);
    assert source.Rest() == sink.data;
    var deserializer := new Deserializer(order, source);
    values := ReadAll(deserializer, Kinds(fields));
    var size := source.Available();
    left := source.Peek(size);
    assert left == source.Rest();
  }
}
