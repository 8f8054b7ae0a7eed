/** Buffer: a growable byte array with size, capacity and maximum, edited by overlapping
    moves, refining the plain byte sequence Bytes(). */
module Buffers {
  import opened Basics
  import opened Searching

  datatype ReallocType = Shrink | Grow | GrowZeroed

  /** The bytes of `s` with `bytes` inserted at, or `size` bytes erased from, `offset`. */
  function Inserted(s: seq<byte>, offset: nat, bytes: seq<byte>): seq<byte>
    requires offset <= |s|
  {
    s[..offset] + bytes + s[offset..]
  }

  function Erased(s: seq<byte>, offset: nat, size: nat): seq<byte>
    requires offset + size <= |s|
  {
    s[..offset] + s[offset + size..]
  }

  /** Extracting a range and inserting the same bytes back restores the content ... */
  lemma EraseThenInsert(s: seq<byte>, offset: nat, size: nat)
    requires offset + size <= |s|
    ensures Inserted(Erased(s, offset, size), offset, s[offset..offset + size]) == s
    ensures Erased(s, offset, size)[..offset] == s[..offset] && Erased(s, offset, size)[offset..] == s[offset + size..]
  {
    assert s == s[..offset] + s[offset..offset + size] + s[offset + size..];
  }

  /** ... and the other way round. */
  lemma InsertThenErase(s: seq<byte>, offset: nat, bytes: seq<byte>)
    requires offset <= |s|
    ensures Erased(Inserted(s, offset, bytes), offset, |bytes|) == s
    ensures Inserted(s, offset, bytes)[offset..offset + |bytes|] == bytes
    ensures Inserted(s, offset, bytes)[..offset] == s[..offset]
    ensures Inserted(s, offset, bytes)[offset + |bytes|..] == s[offset..]
  {
    assert s == s[..offset] + s[offset..];
  }

  lemma InsertNothing(s: seq<byte>, offset: nat)
    requires offset <= |s|
    ensures Inserted(s, offset, []) == s && Erased(s, offset, 0) == s
  {
    assert s == s[..offset] + s[offset..];
  }

  /** memmove: ranges may overlap, every byte is read before any is written. */
  method MemMove(a: array<byte>, to: nat, from: nat, count: nat)
    requires to + count <= a.Length && from + count <= a.Length
    modifies a
    ensures a[to..to + count] == old(a[from..from + count])
    ensures a[..to] == old(a[..to]) && a[to + count..] == old(a[to + count..])
  {
    forall i | 0 <= i < count {
      a[to + i] := a[from + i];
    }
  }

  method MemCopy(a: array<byte>, to: nat, bytes: seq<byte>)
    requires to + |bytes| <= a.Length
    modifies a
    ensures a[to..to + |bytes|] == bytes
    ensures a[..to] == old(a[..to]) && a[to + |bytes|..] == old(a[to + |bytes|..])
  {
    forall i | 0 <= i < |bytes| {
      a[to + i] := bytes[i];
    }
  }

  lemma CutInThree(s: seq<byte>, a: nat, b: nat, n: nat)
    requires a <= b <= n <= |s|
    ensures s[..n] == s[..a] + s[a..b] + s[b..][..n - b]
  {
  }

  // Opens a gap of `extra` bytes at `offset` in the first `size` bytes; a no-op at the end.
  method OpenGap(a: array<byte>, size: nat, offset: nat, extra: nat)
    requires offset <= size && size + extra <= a.Length
    modifies a
    ensures a[..offset] == old(a[..offset]) && a[offset + extra..][..size - offset] == old(a[offset..size])
  {
    ghost var tail := a[offset..size];
    assert a[offset..offset + (size - offset)] == tail;
    ghost var head := a[..offset];
    assert a[..offset + extra][..offset] == head;
    MemMove(a, offset + extra, offset, size - offset);
    assert a[..offset] == a[..offset + extra][..offset];
    assert a[offset + extra..][..size - offset] == a[offset + extra..offset + extra + (size - offset)];
  }

  method FillGap(a: array<byte>, size: nat, offset: nat, extra: nat, bytes: Option<seq<byte>>)
    requires offset <= size && size + extra <= a.Length && (bytes.Some? ==> |bytes.value| == extra)
    modifies a
    ensures bytes.Some? ==> a[offset..offset + extra] == bytes.value
    ensures a[..offset] == old(a[..offset]) && a[offset + extra..] == old(a[offset + extra..])
  {
    if bytes.Some? {
      MemCopy(a, offset, bytes.value);
    }
  }

  // What the moved tail and the kept head make of the first |before| + extra bytes.
  lemma GapShape(before: seq<byte>, after: seq<byte>, offset: nat, extra: nat)
    requires offset <= |before| && |before| + extra <= |after|
    requires after[..offset] == before[..offset] && after[offset + extra..][..|before| - offset] == before[offset..]
    ensures after[..|before| + extra] == Inserted(before, offset, after[offset..offset + extra])
  {
    CutInThree(after, offset, offset + extra, |before| + extra);
  }

  method InsertInto(a: array<byte>, size: nat, offset: nat, extra: nat, bytes: Option<seq<byte>>)
    requires offset <= size && size + extra <= a.Length && (bytes.Some? ==> |bytes.value| == extra)
    modifies a
    ensures bytes.Some? ==> a[..size + extra] == Inserted(old(a[..size]), offset, bytes.value)
    ensures Erased(a[..size + extra], offset, extra) == old(a[..size])
  {
    hide Inserted, Erased;
    ghost var before := a[..size];
    assert a[..offset] == before[..offset] && a[offset..size] == before[offset..];
    OpenGap(a, size, offset, extra);
    FillGap(a, size, offset, extra, bytes);
    GapShape(before, a[..], offset, extra);
    InsertThenErase(before, offset, a[offset..offset + extra]);
  }

  method EraseFrom(a: array<byte>, size: nat, offset: nat, count: nat)
    requires offset + count <= size <= a.Length
    modifies a
    ensures a[..size - count] == Erased(old(a[..size]), offset, count)
  {
    ghost var before := a[..size];
    var rest := size - (offset + count);
    assert a[offset + count..offset + count + rest] == before[offset + count..];
    MemMove(a, offset, offset + count, rest);
    assert a[..size - count] == a[..offset] + a[offset..offset + rest];
  }

  /** `at` is the first occurrence from `from` on. */
  ghost predicate FirstAt(s: seq<byte>, pattern: seq<byte>, from: nat, at: nat) {
    from <= at && OccursAt(s, pattern, at) && forall p | from <= p < at :: !OccursAt(s, pattern, p)
  }

  /** How many bytes from `offset` reach to, or through, the first sentinel. */
  function UpToSentinel(s: seq<byte>, offset: nat, sentinel: seq<byte>, inclusive: bool): (count: Option<nat>)
    ensures count.Some? ==> offset + count.value <= |s|
    ensures count.Some? <==> exists p: nat | offset <= p :: OccursAt(s, sentinel, p)
    ensures forall p: nat | FirstAt(s, sentinel, offset, p) ::
              count == Some(if inclusive then p + |sentinel| - offset else p - offset)
  {
    match Find(s, sentinel, offset)
    case None => None
    case Some(position) => Some(position - offset + if inclusive then |sentinel| else 0)
  }

  /** What an extraction up to the sentinel at `at` takes and leaves, without counting. */
  lemma SentinelCut(s: seq<byte>, offset: nat, sentinel: seq<byte>, inclusive: bool, at: nat)
    requires FirstAt(s, sentinel, offset, at)
    ensures UpToSentinel(s, offset, sentinel, inclusive).Some?
    ensures var count := UpToSentinel(s, offset, sentinel, inclusive).value;
      && s[offset..offset + count] == s[offset..at] + (if inclusive then sentinel else [])
      && Erased(s, offset, count) == s[..offset] + s[if inclusive then at + |sentinel| else at..]
      && (!inclusive ==> OccursAt(Erased(s, offset, count), sentinel, offset))
  {
    assert s[at..at + |sentinel|] == sentinel;
    if !inclusive {
      var left := Erased(s, offset, at - offset);
      assert left[offset..offset + |sentinel|] == sentinel;
    }
  }

  class Buffer {
    var data: array?<byte>
    var maximum: nat
    var capacity: nat
    var size: nat

    ghost predicate Valid()
      reads this, data
    {
      && size <= capacity <= maximum <= SIZE_MAX
      && (data == null <==> capacity == 0)
      && (data != null ==> data.Length == capacity)
    }

    // Everything the allocation holds, used or not.
    ghost function Storage(): (s: seq<byte>)
      requires Valid()
      reads this, data
      ensures |s| == capacity
    {
      if data == null then [] else data[..]
    }

    ghost function Bytes(): (s: seq<byte>)
      requires Valid()
      reads this, data
      ensures |s| == size
    {
      Storage()[..size]
    }

    // The allocation is this buffer's own: the old one or a new one.
    twostate predicate OwnStorage()
      reads this
    {
      maximum == old(maximum) && (data != null && data != old(data) ==> fresh(data))
    }

    constructor (maximum: nat)
      requires maximum <= SIZE_MAX
      ensures Valid() && Bytes() == [] && this.maximum == maximum && capacity == 0
    {
      this.maximum := maximum;
      data, capacity, size := null, 0, 0;
    }

    method Realloc(wanted: nat, kind: ReallocType, granted: bool) returns (ok: bool)
      requires Valid()
      modifies this
      ensures Valid() && OwnStorage()
      ensures ok == ((kind != Shrink && wanted <= old(capacity)) || (wanted <= maximum && (wanted == 0 || granted)))
      ensures !ok || (kind != Shrink && wanted <= old(capacity)) ==>
                data == old(data) && capacity == old(capacity) && size == old(size) && Storage() == old(Storage())
      ensures ok && !(kind != Shrink && wanted <= old(capacity)) ==>
                && capacity == wanted && size == Min(old(size), wanted)
                && Storage()[..Min(old(capacity), wanted)] == old(Storage())[..Min(old(capacity), wanted)]
      ensures !ok || wanted >= old(size) ==> Bytes() == old(Bytes())
      ensures ok && kind == GrowZeroed ==> forall i | old(capacity) <= i < capacity :: Storage()[i] == 0
    {
      if Shrink != kind && wanted <= capacity {
        return true;
      }
      if wanted > maximum {
        return false;
      }
      var moved: array?<byte> := null;
      if wanted > 0 {
        if !granted {
          return false;
        }
        moved := new byte[wanted];
        var kept := Min(capacity, wanted);
        forall i | 0 <= i < kept {
          moved[i] := data[i];
        }
        if GrowZeroed == kind && wanted > capacity {
          forall i | capacity <= i < wanted {
            moved[i] := 0;
          }
        }
      }
      data := moved;
      size := Min(size, wanted);
      capacity := wanted;
      ok := true;
    }

    /** The content read out, as to_string does. */
    method ToSeq() returns (bytes: seq<byte>)
      requires Valid()
      ensures bytes == Bytes()
    {
      bytes := if data == null then [] else data[..size];
    }

    method Reset()
      requires Valid()
      modifies this
      ensures Valid() && OwnStorage() && Bytes() == [] && capacity == 0
    {
      data, capacity, size := null, 0, 0;
    }

    method Clear()
      requires Valid()
      modifies this
      ensures Valid() && OwnStorage() && Bytes() == [] && capacity == old(capacity) && data == old(data)
    {
      size := 0;
    }

    /** Gives back unused capacity when the allocator cooperates; the content stays. */
    method Shrunk(granted: bool)
      requires Valid()
      modifies this
      ensures Valid() && OwnStorage() && Bytes() == old(Bytes())
      ensures capacity == if size == 0 then 0 else if granted then size else old(capacity)
    {
      if null == data || 0 == size {
        Reset();
        return;
      }
      var _ := Realloc(size, Shrink, granted);
    }

    method Reserve(wanted: nat, granted: bool) returns (found: bool)
      requires Valid()
      modifies this
      ensures Valid() && OwnStorage() && Bytes() == old(Bytes())
      ensures found <==> (wanted <= old(capacity) || (wanted <= maximum && granted)) && capacity > 0
      ensures capacity == if wanted > old(capacity) && wanted <= maximum && granted then wanted else old(capacity)
    {
      var ok := Realloc(wanted, Grow, granted);
      found := ok && data != null;
    }

    /** The same, with everything from the old capacity up zeroed. */
    method ReserveZeroed(wanted: nat, granted: bool) returns (found: bool)
      requires Valid()
      modifies this
      ensures Valid() && OwnStorage() && Bytes() == old(Bytes())
      ensures found <==> (wanted <= old(capacity) || (wanted <= maximum && granted)) && capacity > 0
      ensures capacity == if wanted > old(capacity) && wanted <= maximum && granted then wanted else old(capacity)
      ensures found ==> forall i | old(capacity) <= i < capacity :: Storage()[i] == 0
    {
      var ok := Realloc(wanted, GrowZeroed, granted);
      found := ok && data != null;
    }

    /** Room for `extra` bytes past the end; the content stays as it is. */
    method Extend(extra: nat, granted: bool) returns (ok: bool)
      requires Valid() && size + extra <= SIZE_MAX
      modifies this
      ensures Valid() && OwnStorage() && Bytes() == old(Bytes()) && size == old(size)
      ensures ok <==> extra == 0 || size + extra <= old(capacity) || (size + extra <= maximum && granted)
      ensures ok ==> size + extra <= capacity
    {
      ok := true;
      if extra > 0 {
        ok := Realloc(size + extra, Grow, granted);
      }
    }

    /** The same, with everything from the old capacity up zeroed. */
    method ExtendZeroed(extra: nat, granted: bool) returns (ok: bool)
      requires Valid() && size + extra <= SIZE_MAX
      modifies this
      ensures Valid() && OwnStorage() && Bytes() == old(Bytes()) && size == old(size)
      ensures ok <==> extra == 0 || size + extra <= old(capacity) || (size + extra <= maximum && granted)
      ensures ok ==> size + extra <= capacity && forall i | old(capacity) <= i < capacity :: Storage()[i] == 0
    {
      ok := true;
      if extra > 0 {
        ok := Realloc(size + extra, GrowZeroed, granted);
      }
    }

    /** Keeps the common prefix; growing exposes whatever the storage holds. */
    method Resize(newSize: nat, granted: bool) returns (ok: bool)
      requires Valid()
      modifies this
      ensures Valid() && OwnStorage()
      ensures ok <==> newSize <= old(capacity) || (newSize <= maximum && granted)
      ensures !ok ==> Bytes() == old(Bytes())
      ensures ok ==> size == newSize && Bytes()[..Min(old(size), newSize)] == old(Bytes())[..Min(old(size), newSize)]
      ensures newSize <= old(capacity) ==> data == old(data) && Bytes() == old(Storage())[..newSize]
    {
      ghost var before, common := Bytes(), Min(size, newSize);
      if newSize > 0 {
        ok := Realloc(newSize, Grow, granted);
        if !ok {
          return;
        }
      }
      assert Bytes() == before;
      size := newSize;
      ok := true;
      assert common > 0 ==> data[..newSize][..common] == data[..common] == before[..common];
    }

    /** Zeroes from the old capacity up only: bytes between the old size and the old
        capacity keep what the storage held. */
    method ResizeZeroed(newSize: nat, granted: bool) returns (ok: bool)
      requires Valid()
      modifies this
      ensures Valid() && OwnStorage()
      ensures ok <==> newSize <= old(capacity) || (newSize <= maximum && granted)
      ensures !ok ==> Bytes() == old(Bytes())
      ensures ok ==> size == newSize
      ensures ok ==> Bytes()[..Min(old(capacity), newSize)] == old(Storage())[..Min(old(capacity), newSize)]
      ensures ok ==> forall i | old(capacity) <= i < newSize :: Bytes()[i] == 0
    {
      if newSize > 0 {
        ok := Realloc(newSize, GrowZeroed, granted);
        if !ok {
          return;
        }
      }
      size := newSize;
      ok := true;
    }

    // The moves of insert(), once there is room.
    method Splice(offset: nat, bytes: Option<seq<byte>>, extra: nat)
      requires Valid() && offset <= size && 0 < extra && size + extra <= capacity
      requires bytes.Some? ==> |bytes.value| == extra
      modifies this`size, data
      ensures Valid() && data == old(data) && size == old(size) + extra
      ensures bytes.Some? ==> Bytes() == Inserted(old(Bytes()), offset, bytes.value)
      ensures Erased(Bytes(), offset, extra) == old(Bytes())
    {
      hide Inserted, Erased;
      assert data[..size] == Bytes();
      InsertInto(data, size, offset, extra, bytes);
      size := size + extra;
      assert Bytes() == data[..size];
    }

    /** Opens a gap at `offset` and, given `bytes`, fills it; on failure nothing changes. */
    method Insert(offset: nat, bytes: Option<seq<byte>>, extra: nat, granted: bool) returns (ok: bool)
      requires Valid() && offset <= size && size + extra <= SIZE_MAX
      requires bytes.Some? ==> |bytes.value| == extra
      modifies this, data
      ensures Valid() && OwnStorage()
      ensures ok <==> extra == 0 || old(size) + extra <= old(capacity) || (old(size) + extra <= maximum && granted)
      ensures !ok ==> Bytes() == old(Bytes())
      ensures ok && bytes.Some? ==> Bytes() == Inserted(old(Bytes()), offset, bytes.value)
      ensures ok ==> size == old(size) + extra && Erased(Bytes(), offset, extra) == old(Bytes())
    {
      hide Inserted, Erased, Storage, Bytes;
      if 0 == extra {
        InsertNothing(Bytes(), offset);
        assert bytes.Some? ==> bytes.value == [];
        return true;
      }
      ok := Realloc(size + extra, Grow, granted);
      if ok {
        Splice(offset, bytes, extra);
      }
    }

    method Append(bytes: seq<byte>, granted: bool) returns (ok: bool)
      requires Valid() && size + |bytes| <= SIZE_MAX
      modifies this, data
      ensures Valid() && OwnStorage()
      ensures ok <==> bytes == [] || old(size) + |bytes| <= old(capacity) || (old(size) + |bytes| <= maximum && granted)
      ensures Bytes() == if ok then old(Bytes()) + bytes else old(Bytes())
    {
      ok := Insert(size, Some(bytes), |bytes|, granted);
      assert ok ==> Inserted(old(Bytes()), old(size), bytes) == old(Bytes()) + bytes;
    }

    /** On failure the old content is gone. */
    method Assign(bytes: seq<byte>, granted: bool) returns (ok: bool)
      requires Valid() && |bytes| <= SIZE_MAX
      modifies this, data
      ensures Valid() && OwnStorage()
      ensures ok <==> |bytes| <= old(capacity) || (|bytes| <= maximum && granted)
      ensures Bytes() == if ok then bytes else []
    {
      size := 0;
      ok := Append(bytes, granted);
    }

    method Erase(offset: nat, count: nat)
      requires Valid() && offset + count <= size
      modifies this`size, data
      ensures Valid() && data == old(data) && capacity == old(capacity)
      ensures Bytes() == Erased(old(Bytes()), offset, count)
    {
      if data != null {
        assert data[..size] == Bytes();
        EraseFrom(data, size, offset, count);
        assert data[..size - count] == Erased(old(Bytes()), offset, count);
      }
      hide Erased;
      size := size - count;
    }

    /** Moves `count` bytes at `offset` into `buffer`; on failure only `buffer` is emptied. */
    method Extract(offset: nat, count: nat, buffer: Buffer, granted: bool) returns (ok: bool)
      requires Valid() && buffer.Valid() && offset + count <= size
      requires buffer != this && (data != null ==> buffer.data != data)
      modifies this`size, data, buffer, buffer.data
      ensures Valid() && buffer.Valid() && data == old(data) && buffer.OwnStorage()
      ensures ok <==> count <= old(buffer.capacity) || (count <= buffer.maximum && granted)
      ensures buffer.Bytes() == if ok then old(Bytes())[offset..offset + count] else []
      ensures Bytes() == if ok then Erased(old(Bytes()), offset, count) else old(Bytes())
    {
      ghost var before := Bytes();
      var taken := if data == null then [] else data[offset..offset + count];
      assert taken == before[offset..offset + count];
      hide Erased;
      ok := buffer.Assign(taken, granted);
      assert Bytes() == before;
      if !ok {
        return;
      }
      Erase(offset, count);
    }

    /** Extracts up to the first sentinel at or after `offset`.  Without one `buffer` is
        emptied and the call still succeeds. */
    method ExtractSentinel(offset: nat, sentinel: seq<byte>, inclusive: bool, buffer: Buffer, granted: bool)
      returns (ok: bool)
      requires Valid() && buffer.Valid() && offset <= size
      requires buffer != this && (data != null ==> buffer.data != data)
      modifies this`size, data, buffer, buffer.data
      ensures Valid() && buffer.Valid() && data == old(data) && buffer.OwnStorage()
      ensures (forall p: nat | offset <= p :: !OccursAt(old(Bytes()), sentinel, p)) ==>
                ok && Bytes() == old(Bytes()) && buffer.Bytes() == []
      ensures forall p: nat | FirstAt(old(Bytes()), sentinel, offset, p) ::
                var before, taken := old(Bytes()), old(Bytes())[offset..p] + if inclusive then sentinel else [];
                var next := if inclusive then p + |sentinel| else p;
                && (ok <==> |taken| <= old(buffer.capacity) || (|taken| <= buffer.maximum && granted))
                && buffer.Bytes() == (if ok then taken else [])
                && Bytes() == (if ok then before[..offset] + before[next..] else before)
                && (ok && !inclusive ==> OccursAt(Bytes(), sentinel, offset))
    {
      hide UpToSentinel, Erased, OccursAt;
      ghost var before := Bytes();
      var view := if data == null then [] else data[..size];
      assert view == Bytes();
      var count := UpToSentinel(view, offset, sentinel, inclusive);
      if count.Some? {
        ok := Extract(offset, count.value, buffer, granted);
        forall p: nat | FirstAt(before, sentinel, offset, p)
          ensures before[offset..offset + count.value] == before[offset..p] + (if inclusive then sentinel else [])
          ensures Erased(before, offset, count.value)
               == before[..offset] + before[if inclusive then p + |sentinel| else p..]
          ensures !inclusive ==> OccursAt(Erased(before, offset, count.value), sentinel, offset)
        {
          SentinelCut(before, offset, sentinel, inclusive, p);
        }
      } else {
        buffer.Clear();
        ok := true;
      }
    }
  }
}
