/** Sentinel extraction as a stream framer: Buffer::extract(0, sentinel, true), repeated until
    nothing is found, on the sequence of bytes a Buffer holds. */
module Framing {
  import opened Basics
  import opened Searching
  import Buffers

  /** All frames at the front of `s`, each ending in the sentinel, and what is left over. */
  function Frames(s: seq<byte>, sentinel: seq<byte>): (result: (seq<seq<byte>>, seq<byte>))
    requires sentinel != []
    decreases |s|
  {
    match Find(s, sentinel, 0)
    case None => ([], s)
    case Some(position) =>
      var size := position + |sentinel|;
      var (frames, rest) := Frames(s[size..], sentinel);
      ([s[..size]] + frames, rest)
  }

  /** Bytes arrive in chunks; after each append everything extractable is extracted. */
  function Feed(held: seq<byte>, chunks: seq<seq<byte>>, sentinel: seq<byte>): (seq<seq<byte>>, seq<byte>)
    requires sentinel != []
    decreases |chunks|
  {
    if chunks == [] then ([], held)
    else
      var (frames, rest) := Frames(held + chunks[0], sentinel);
      var (more, left) := Feed(rest, chunks[1..], sentinel);
      (frames + more, left)
  }

  /** The sentinel ends the frame and occurs nowhere before. */
  predicate IsFrame(frame: seq<byte>, sentinel: seq<byte>) {
    |frame| >= |sentinel| && Find(frame, sentinel, 0) == Some(|frame| - |sentinel|)
  }

  /** A reading of `s` as frames and a remainder without the sentinel. */
  ghost predicate IsFraming(s: seq<byte>, sentinel: seq<byte>, frames: seq<seq<byte>>, rest: seq<byte>) {
    && Concat(frames) + rest == s
    && (forall f | f in frames :: IsFrame(f, sentinel))
    && Find(rest, sentinel, 0) == None
  }

  lemma {:induction false} ConcatCons<T>(s: seq<T>, ss: seq<seq<T>>)
    ensures Concat([s] + ss) == s + Concat(ss)
  {
    if ss == [] {
      assert ([s] + ss)[..0] == [] && s + [] == s && [] + s == s;
    } else {
      var n := |ss| - 1;
      ConcatCons(s, ss[..n]);
      assert ([s] + ss)[..n + 1] == [s] + ss[..n];
    }
  }

  lemma FirstFrame(s: seq<byte>, sentinel: seq<byte>, position: nat)
    requires Find(s, sentinel, 0) == Some(position)
    ensures IsFrame(s[..position + |sentinel|], sentinel)
  {
    var frame := s[..position + |sentinel|];
    assert s == frame + s[position + |sentinel|..];
    forall p | 0 <= p <= position
      ensures OccursAt(frame, sentinel, p) <==> OccursAt(s, sentinel, p)
    {
      OccursInPrefix(frame, s[position + |sentinel|..], sentinel, p);
    }
  }

  lemma FramesUnfold(s: seq<byte>, sentinel: seq<byte>, position: nat)
    requires sentinel != [] && Find(s, sentinel, 0) == Some(position)
    ensures var (frames, rest) := Frames(s[position + |sentinel|..], sentinel);
      Frames(s, sentinel) == ([s[..position + |sentinel|]] + frames, rest)
  {
  }

  /** One successful Buffer.ExtractSentinel(0, sentinel, true) takes the first frame and
      leaves a buffer that frames into the others; without a sentinel there is no frame. */
  lemma ExtractTakesFirstFrame(s: seq<byte>, sentinel: seq<byte>)
    requires sentinel != []
    ensures match Find(s, sentinel, 0)
      case None => (forall p: nat :: !OccursAt(s, sentinel, p)) && Frames(s, sentinel) == ([], s)
      case Some(p) =>
        var taken, left := s[0..p] + sentinel, s[..0] + s[p + |sentinel|..];
        && Buffers.FirstAt(s, sentinel, 0, p)
        && IsFrame(taken, sentinel)
        && Frames(s, sentinel).0 == [taken] + Frames(left, sentinel).0
        && Frames(s, sentinel).1 == Frames(left, sentinel).1
  {
    hide Find, Frames;
    var found := Find(s, sentinel, 0);
    if found.Some? {
      var p := found.value;
      FirstFrame(s, sentinel, p);
      FramesUnfold(s, sentinel, p);
      assert s[..0] + s[p + |sentinel|..] == s[p + |sentinel|..];
      assert s[0..p] + sentinel == s[..p + |sentinel|];
    } else {
      NoFrame(s, sentinel);
    }
  }

  lemma NoFrame(s: seq<byte>, sentinel: seq<byte>)
    requires sentinel != [] && Find(s, sentinel, 0) == None
    ensures Frames(s, sentinel) == ([], s) && IsFraming(s, sentinel, [], s)
  {
    assert [] + s == s;
  }

  lemma OneMoreFrame(s: seq<byte>, sentinel: seq<byte>, position: nat, frames: seq<seq<byte>>, rest: seq<byte>)
    requires Find(s, sentinel, 0) == Some(position)
    requires IsFraming(s[position + |sentinel|..], sentinel, frames, rest)
    ensures IsFraming(s, sentinel, [s[..position + |sentinel|]] + frames, rest)
  {
    var size := position + |sentinel|;
    FirstFrame(s, sentinel, position);
    FramingCons(s[..size], s[size..], sentinel, frames, rest);
    assert s[..size] + s[size..] == s;
  }

  /** Frames reads the stream: nothing lost, each frame ends at its first sentinel, and the
      remainder holds none. */
  lemma {:induction false} FramesIsFraming(s: seq<byte>, sentinel: seq<byte>, frames: seq<seq<byte>>, rest: seq<byte>)
    requires sentinel != [] && (frames, rest) == Frames(s, sentinel)
    ensures IsFraming(s, sentinel, frames, rest)
    decreases |s|
  {
    hide Find, Frames, IsFraming;
    var found := Find(s, sentinel, 0);
    if found.None? {
      NoFrame(s, sentinel);
    } else {
      var tail := s[found.value + |sentinel|..];
      var (others, left) := Frames(tail, sentinel);
      FramesIsFraming(tail, sentinel, others, left);
      OneMoreFrame(s, sentinel, found.value, others, left);
      FramesUnfold(s, sentinel, found.value);
    }
  }

  lemma FramingCons(frame: seq<byte>, s: seq<byte>, sentinel: seq<byte>, frames: seq<seq<byte>>, rest: seq<byte>)
    requires IsFrame(frame, sentinel) && IsFraming(s, sentinel, frames, rest)
    ensures IsFraming(frame + s, sentinel, [frame] + frames, rest)
  {
    ConcatCons(frame, frames);
    assert (frame + Concat(frames)) + rest == frame + (Concat(frames) + rest);
  }

  /** ... and it is the only such reading. */
  lemma {:induction false} FramingIsUnique(s: seq<byte>, sentinel: seq<byte>, frames: seq<seq<byte>>, rest: seq<byte>)
    requires sentinel != [] && IsFraming(s, sentinel, frames, rest)
    ensures (frames, rest) == Frames(s, sentinel)
    decreases |frames|
  {
    if frames == [] {
      assert [] + rest == rest;
    } else {
      var first, others := frames[0], frames[1..];
      assert frames == [first] + others;
      ConcatCons(first, others);
      var tail := Concat(others) + rest;
      assert s == first + tail;
      assert first in frames;
      FoundStays(first, tail, sentinel);
      assert s[..|first|] == first && s[|first|..] == tail;
      FramingIsUnique(tail, sentinel, others, rest);
    }
  }

  /** A successful extraction commutes with any later append. */
  lemma ExtractCommutesWithAppend(s: seq<byte>, more: seq<byte>, sentinel: seq<byte>, position: nat)
    requires sentinel != [] && Find(s, sentinel, 0) == Some(position)
    ensures var size := position + |sentinel|;
      && Find(s + more, sentinel, 0) == Some(position)
      && (s + more)[..size] == s[..size] && (s + more)[size..] == s[size..] + more
  {
    FoundStays(s, more, sentinel);
  }

  // Extracting from `a`, then appending `b` and extracting again.
  function TwoRounds(a: seq<byte>, b: seq<byte>, sentinel: seq<byte>): (seq<seq<byte>>, seq<byte>)
    requires sentinel != []
  {
    var (frames, rest) := Frames(a, sentinel);
    var (more, left) := Frames(rest + b, sentinel);
    (frames + more, left)
  }

  lemma TwoRoundsUnfold(a: seq<byte>, b: seq<byte>, sentinel: seq<byte>, position: nat)
    requires sentinel != [] && Find(a, sentinel, 0) == Some(position)
    ensures var (frames, left) := TwoRounds(a[position + |sentinel|..], b, sentinel);
      TwoRounds(a, b, sentinel) == ([a[..position + |sentinel|]] + frames, left)
  {
    FramesUnfold(a, sentinel, position);
    var (frames, rest) := Frames(a[position + |sentinel|..], sentinel);
    var first, more := [a[..position + |sentinel|]], Frames(rest + b, sentinel).0;
    assert (first + frames) + more == first + (frames + more);
  }

  lemma TwoRoundsNone(a: seq<byte>, b: seq<byte>, sentinel: seq<byte>)
    requires sentinel != [] && Find(a, sentinel, 0) == None
    ensures TwoRounds(a, b, sentinel) == Frames(a + b, sentinel)
  {
    NoFrame(a, sentinel);
    assert [] + Frames(a + b, sentinel).0 == Frames(a + b, sentinel).0;
  }

  lemma {:induction false} FramesAppend(a: seq<byte>, b: seq<byte>, sentinel: seq<byte>)
    requires sentinel != []
    ensures Frames(a + b, sentinel) == TwoRounds(a, b, sentinel)
    decreases |a|
  {
    hide Find, Frames, TwoRounds;
    var found := Find(a, sentinel, 0);
    if found.None? {
      TwoRoundsNone(a, b, sentinel);
    } else {
      var size := found.value + |sentinel|;
      ExtractCommutesWithAppend(a, b, sentinel, found.value);
      FramesAppend(a[size..], b, sentinel);
      FramesUnfold(a + b, sentinel, found.value);
      TwoRoundsUnfold(a, b, sentinel, found.value);
    }
  }

  lemma FeedUnfold(held: seq<byte>, chunks: seq<seq<byte>>, sentinel: seq<byte>)
    requires sentinel != [] && chunks != []
    ensures var (frames, rest) := Frames(held + chunks[0], sentinel);
      var (more, left) := Feed(rest, chunks[1..], sentinel);
      Feed(held, chunks, sentinel) == (frames + more, left)
  {
    hide Frames;
  }

  /** However the stream is split into appends, the same frames come out, in the same order,
      with the same remainder. */
  lemma {:induction false} FramingIsChunkIndependent(held: seq<byte>, chunks: seq<seq<byte>>, sentinel: seq<byte>)
    requires sentinel != [] && Find(held, sentinel, 0) == None
    ensures Feed(held, chunks, sentinel) == Frames(held + Concat(chunks), sentinel)
    decreases |chunks|
  {
    if chunks == [] {
      assert held + [] == held;
    } else {
      hide Find, Frames, Feed, Concat;
      var first, others := chunks[0], chunks[1..];
      FeedUnfold(held, chunks, sentinel);
      assert chunks == [first] + others;
      ConcatCons(first, others);
      var (frames, rest) := Frames(held + first, sentinel);
      FramesIsFraming(held + first, sentinel, frames, rest);
      FramingIsChunkIndependent(rest, others, sentinel);
      FramesAppend(held + first, Concat(others), sentinel);
      Associative(held, first, Concat(others));
    }
  }

  // ---- The Buffer object as a framer ----

  // One extraction into `taken`: the first frame, or nothing.
  method NextFrame(buffer: Buffers.Buffer, sentinel: seq<byte>, taken: Buffers.Buffer) returns (frame: seq<byte>)
    requires buffer.Valid() && taken.Valid() && sentinel != [] && taken.maximum == SIZE_MAX
    requires taken != buffer && (buffer.data != null ==> taken.data != buffer.data)
    modifies buffer`size, buffer.data, taken, taken.data
    ensures buffer.Valid() && buffer.data == old(buffer.data) && taken.Valid() && taken.OwnStorage()
    ensures taken.maximum == SIZE_MAX
    ensures var held := old(buffer.Bytes());
      if frame == [] then buffer.Bytes() == held && Frames(held, sentinel) == ([], held)
      else
        && buffer.size < old(buffer.size)
        && Frames(held, sentinel).0 == [frame] + Frames(buffer.Bytes(), sentinel).0
        && Frames(held, sentinel).1 == Frames(buffer.Bytes(), sentinel).1
  {
    hide Frames, Find;
    ghost var held := buffer.Bytes();
    ExtractTakesFirstFrame(held, sentinel);
    var _ := buffer.ExtractSentinel(0, sentinel, true, taken, true);
    frame := taken.ToSeq();
  }

  /** Extracts through the sentinel until nothing is found: all frames, in order, and the
      remainder stays in the buffer.  The loop ends as every frame shortens the buffer. */
  method ExtractAll(buffer: Buffers.Buffer, sentinel: seq<byte>) returns (frames: seq<seq<byte>>)
    requires buffer.Valid() && sentinel != []
    modifies buffer`size, buffer.data
    ensures buffer.Valid() && buffer.data == old(buffer.data) && buffer.maximum == old(buffer.maximum)
    ensures (frames, buffer.Bytes()) == Frames(old(buffer.Bytes()), sentinel)
  {
    hide Frames, Find;
    frames := [];
    ghost var before := buffer.Bytes();
    var taken := new Buffers.Buffer(SIZE_MAX);
    var found := true;
    assert [] + Frames(before, sentinel).0 == Frames(before, sentinel).0;
    while found
      invariant buffer.Valid() && buffer.data == old(buffer.data) && buffer.maximum == old(buffer.maximum)
      invariant taken.Valid() && fresh(taken) && taken.maximum == SIZE_MAX
      invariant taken.data != null ==> fresh(taken.data)
      invariant frames + Frames(buffer.Bytes(), sentinel).0 == Frames(before, sentinel).0
      invariant Frames(buffer.Bytes(), sentinel).1 == Frames(before, sentinel).1
      invariant !found ==> Frames(buffer.Bytes(), sentinel) == ([], buffer.Bytes())
      decreases found, buffer.size
    {
      var frame := NextFrame(buffer, sentinel, taken);
      if frame == [] {
        found := false;
      } else {
        Associative(frames, [frame], Frames(buffer.Bytes(), sentinel).0);
        frames := frames + [frame];
      }
    }
    assert frames + [] == frames;
  }

  /** Every chunk fits behind what the chunks before it left over. */
  ghost predicate FitsEach(held: seq<byte>, chunks: seq<seq<byte>>, sentinel: seq<byte>, maximum: nat)
    requires sentinel != []
    decreases |chunks|
  {
    chunks == [] ||
    (&& |held| + |chunks[0]| <= maximum
     && FitsEach(Frames(held + chunks[0], sentinel).1, chunks[1..], sentinel, maximum))
  }

  /** Chunks appended one after the other, with everything extractable extracted in between:
      the frames and the remainder of the whole stream, however long it is, as long as each
      append fits. */
  method FeedAll(buffer: Buffers.Buffer, chunks: seq<seq<byte>>, sentinel: seq<byte>) returns (frames: seq<seq<byte>>)
    requires buffer.Valid() && sentinel != [] && Find(buffer.Bytes(), sentinel, 0) == None
    requires FitsEach(buffer.Bytes(), chunks, sentinel, buffer.maximum)
    modifies buffer, buffer.data
    ensures buffer.Valid()
    ensures (frames, buffer.Bytes()) == Frames(old(buffer.Bytes()) + Concat(chunks), sentinel)
  {
    FramingIsChunkIndependent(buffer.Bytes(), chunks, sentinel);
    hide Frames, Find, Concat;
    frames := [];
    ghost var whole := Feed(buffer.Bytes(), chunks, sentinel);
    assert [] + whole.0 == whole.0 && chunks[0..] == chunks;
    for k := 0 to |chunks|
      invariant buffer.Valid() && buffer.maximum == old(buffer.maximum)
      invariant buffer.data != null && buffer.data != old(buffer.data) ==> fresh(buffer.data)
      invariant FitsEach(buffer.Bytes(), chunks[k..], sentinel, buffer.maximum)
      invariant frames + Feed(buffer.Bytes(), chunks[k..], sentinel).0 == whole.0
      invariant Feed(buffer.Bytes(), chunks[k..], sentinel).1 == whole.1
    {
      ghost var held := buffer.Bytes();
      FeedUnfold(held, chunks[k..], sentinel);
      var ok := buffer.Append(chunks[k], true);
      assert ok && buffer.Bytes() == held + chunks[k];
      var own := ExtractAll(buffer, sentinel);
      assert chunks[k..][1..] == chunks[k + 1..];
      Associative(frames, own, Feed(buffer.Bytes(), chunks[k + 1..], sentinel).0);
      frames := frames + own;
    }
    assert chunks[|chunks|..] == [] && frames + [] == frames;
  }
}
