/** Searching for a subsequence, as std::string::find and std::string_view::find do. */
module Searching {
  import opened Basics

  predicate OccursAt<T(==)>(s: seq<T>, pattern: seq<T>, at: nat) {
    at + |pattern| <= |s| && s[at..at + |pattern|] == pattern
  }

  /** The first occurrence at or after `from`; an empty pattern occurs everywhere. */
  function Find<T(==)>(s: seq<T>, pattern: seq<T>, from: nat): (position: Option<nat>)
    ensures position.Some? ==> from <= position.value && OccursAt(s, pattern, position.value)
    ensures position.Some? ==> forall p | from <= p < position.value :: !OccursAt(s, pattern, p)
    ensures position.None? ==> forall p | from <= p :: !OccursAt(s, pattern, p)
    decreases |s| - from
  {
    if from + |pattern| > |s| then None
    else if s[from..from + |pattern|] == pattern then Some(from)
    else if from == |s| then None
    else Find(s, pattern, from + 1)
  }

  lemma OccursInPrefix<T>(a: seq<T>, b: seq<T>, pattern: seq<T>, at: nat)
    requires at + |pattern| <= |a|
    ensures OccursAt(a + b, pattern, at) <==> OccursAt(a, pattern, at)
  {
    assert (a + b)[at..at + |pattern|] == a[at..at + |pattern|];
  }

  /** What was found stays the first occurrence however the sequence is extended. */
  lemma FoundStays<T>(a: seq<T>, b: seq<T>, pattern: seq<T>)
    requires Find(a, pattern, 0).Some?
    ensures Find(a + b, pattern, 0) == Find(a, pattern, 0)
  {
    var at := Find(a, pattern, 0).value;
    forall p | 0 <= p <= at
      ensures OccursAt(a + b, pattern, p) <==> OccursAt(a, pattern, p)
    {
      OccursInPrefix(a, b, pattern, p);
    }
  }
}
