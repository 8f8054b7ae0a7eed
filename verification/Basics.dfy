/** Types shared by every component: bytes, optional values and error results. */
module Basics {

  // An octet.  Masks, shifts and "or" of disjoint fields are written with / % and +.
  type byte = x: int | 0 <= x < 256

  // std::numeric_limits<std::size_t>::max() on the 64-bit targets hlib builds for.
  const SIZE_MAX: nat := 0xFFFF_FFFF_FFFF_FFFF

  datatype Option<+T> = None | Some(value: T)

  datatype Result<+T, +E> = Ok(value: T) | Err(error: E)

  function Min(a: nat, b: nat): nat {
    if a < b then a else b
  }

  /** The parts of `ss` one after the other. */
  function Concat<T>(ss: seq<seq<T>>): seq<T> {
    if ss == [] then [] else Concat(ss[..|ss| - 1]) + ss[|ss| - 1]
  }

  lemma ConcatSnoc<T>(ss: seq<seq<T>>, s: seq<T>)
    ensures Concat(ss + [s]) == Concat(ss) + s
  {
    assert (ss + [s])[..|ss|] == ss;
  }

  lemma Associative<T>(a: seq<T>, b: seq<T>, c: seq<T>)
    ensures (a + b) + c == a + (b + c)
  {
  }

  // ---- Products and quotients ----

  lemma MultiplyLess(a: int, b: int, k: int)
    requires k > 0 && a < b
    ensures a * k + k <= b * k
  {
    var d := b - a - 1;
    assert d * k >= 0;
    assert (d + 1 + a) * k == d * k + k + a * k;
  }

  lemma MultiplyOrder(a: int, b: int, k: int)
    requires k > 0
    ensures a < b ==> a * k + k <= b * k
    ensures a * k == b * k ==> a == b
  {
    if a < b {
      MultiplyLess(a, b, k);
    } else if b < a {
      MultiplyLess(b, a, k);
    }
  }

  lemma DivisionUnique(a: int, b: int, q: int, r: int)
    requires b > 0 && a == q * b + r && 0 <= r < b
    ensures a / b == q && a % b == r
  {
    var q' := a / b;
    assert a == q' * b + a % b;
    MultiplyOrder(q, q', b);
    MultiplyOrder(q', q, b);
  }
}
