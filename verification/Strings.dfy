/** split, join and count. */
module Strings {
  import opened Basics
  import opened Searching

  // ---- count ----

  /** Greedy leftmost counting from `from`. */
  function CountFrom(s: string, sub: string, from: nat): nat
    requires sub != ""
    decreases |s| - from
  {
    match Find(s, sub, from)
    case None => 0
    case Some(position) => 1 + CountFrom(s, sub, position + |sub|)
  }

  /** Any choice of occurrences no two of which overlap. */
  ghost predicate IsSelection(s: string, sub: string, positions: set<nat>) {
    && (forall p | p in positions :: OccursAt(s, sub, p))
    && (forall p, q | p in positions && q in positions && p < q :: p + |sub| <= q)
  }

  ghost function Late(positions: set<nat>, next: nat): set<nat> {
    set p | p in positions && next <= p
  }

  // Of a selection, at most one occurrence starts before the first one ends.
  lemma OneEarly(s: string, sub: string, from: nat, positions: set<nat>, first: nat)
    requires sub != "" && IsSelection(s, sub, positions) && Find(s, sub, from) == Some(first)
    requires forall p | p in positions :: from <= p
    ensures IsSelection(s, sub, Late(positions, first + |sub|))
    ensures |positions| <= 1 + |Late(positions, first + |sub|)|
  {
    hide OccursAt, Find;
    var later := Late(positions, first + |sub|);
    if early: nat :| early in positions && early < first + |sub| {
      forall p | p in positions && p < first + |sub|
        ensures p == early
      {
        assert OccursAt(s, sub, p) && OccursAt(s, sub, early);
        assert first <= p && first <= early;
      }
      assert positions == later + {early};
    } else {
      assert positions == later;
    }
  }

  /** No selection beats the greedy one ... */
  lemma {:induction false} GreedyIsOptimal(s: string, sub: string, from: nat, positions: set<nat>)
    requires sub != "" && IsSelection(s, sub, positions) && forall p | p in positions :: from <= p
    ensures |positions| <= CountFrom(s, sub, from)
    decreases |s| - from
  {
    var found := Find(s, sub, from);
    if found.None? {
      assert CountFrom(s, sub, from) == 0;
      assert forall p | p in positions :: !OccursAt(s, sub, p);
      assert positions == {};
    } else {
      var next := found.value + |sub|;
      assert CountFrom(s, sub, from) == 1 + CountFrom(s, sub, next);
      hide OccursAt, Find, CountFrom;
      OneEarly(s, sub, from, positions, found.value);
      GreedyIsOptimal(s, sub, next, Late(positions, next));
    }
  }

  /** The greedy choice itself. */
  ghost function Greedy(s: string, sub: string, from: nat): set<nat>
    requires sub != ""
    decreases |s| - from
  {
    match Find(s, sub, from)
    case None => {}
    case Some(position) => {position} + Greedy(s, sub, position + |sub|)
  }

  lemma AddFirst(s: string, sub: string, first: nat, later: set<nat>)
    requires sub != "" && OccursAt(s, sub, first)
    requires IsSelection(s, sub, later) && forall p | p in later :: first + |sub| <= p
    ensures IsSelection(s, sub, {first} + later) && |{first} + later| == 1 + |later|
  {
    assert first !in later;
  }

  /** ... and the greedy one is a selection. */
  lemma {:induction false} GreedyIsAttained(s: string, sub: string, from: nat)
    requires sub != ""
    ensures IsSelection(s, sub, Greedy(s, sub, from)) && |Greedy(s, sub, from)| == CountFrom(s, sub, from)
    ensures forall p | p in Greedy(s, sub, from) :: from <= p
    decreases |s| - from
  {
    var found := Find(s, sub, from);
    if found.Some? {
      var next := found.value + |sub|;
      assert Greedy(s, sub, from) == {found.value} + Greedy(s, sub, next);
      assert CountFrom(s, sub, from) == 1 + CountFrom(s, sub, next);
      hide OccursAt, Find, CountFrom, Greedy;
      GreedyIsAttained(s, sub, next);
      AddFirst(s, sub, found.value, Greedy(s, sub, next));
    }
  }

  lemma GreedyIsMaximum(s: string, sub: string)
    requires sub != ""
    ensures forall positions: set<nat> :: IsSelection(s, sub, positions) ==> |positions| <= CountFrom(s, sub, 0)
    ensures exists positions: set<nat> :: IsSelection(s, sub, positions) && |positions| == CountFrom(s, sub, 0)
  {
    hide IsSelection, CountFrom, Greedy;
    forall positions: set<nat> | IsSelection(s, sub, positions)
      ensures |positions| <= CountFrom(s, sub, 0)
    {
      GreedyIsOptimal(s, sub, 0, positions);
    }
    GreedyIsAttained(s, sub, 0);
  }

  /** An empty substring is found where the search starts, so the position, advanced by its
      length, never moves and the loop of count() never ends. */
  lemma EmptyIsFoundInPlace(s: string, from: nat)
    requires from <= |s|
    ensures Find(s, "", from) == Some(from) && from + |""| == from
  {
    assert s[from..from] == "";
  }

  /** The maximum number of pairwise non-overlapping occurrences.  With an empty substring
      the library's loop never ends, so one is required here. */
  method Count(s: string, sub: string) returns (count: nat)
    requires sub != ""
    ensures count == CountFrom(s, sub, 0)
    ensures forall positions: set<nat> :: IsSelection(s, sub, positions) ==> |positions| <= count
    ensures exists positions: set<nat> :: IsSelection(s, sub, positions) && |positions| == count
  {
    count := 0;
    var pos := 0;
    while true
      invariant count + CountFrom(s, sub, pos) == CountFrom(s, sub, 0)
      decreases |s| + |sub| - pos
    {
      var found := Find(s, sub, pos);
      if found.None? {
        break;
      }
      pos := found.value + |sub|;
      count := count + 1;
    }
    GreedyIsMaximum(s, sub);
  }

  // ---- split and join ----

  function Occurrences(s: string, c: char): nat {
    if s == "" then 0 else (if s[0] == c then 1 else 0) + Occurrences(s[1..], c)
  }

  /** The pieces between delimiters, empty ones included. */
  function Pieces(s: string, isDelimiter: char -> bool): (tokens: seq<string>)
    ensures tokens != []
  {
    if s == "" then [""]
    else
      var rest := Pieces(s[1..], isDelimiter);
      if isDelimiter(s[0]) then [""] + rest else [[s[0]] + rest[0]] + rest[1..]
  }

  function NonEmpty(tokens: seq<string>): seq<string> {
    if tokens == [] then []
    else
      var front := NonEmpty(tokens[..|tokens| - 1]);
      if tokens[|tokens| - 1] == "" then front else front + [tokens[|tokens| - 1]]
  }

  function Split(s: string, isDelimiter: char -> bool, filterEmpty: bool): seq<string> {
    if s == "" then [] else if filterEmpty then NonEmpty(Pieces(s, isDelimiter)) else Pieces(s, isDelimiter)
  }

  function Joined(tokens: seq<string>, separator: string): string {
    if tokens == [] then ""
    else if |tokens| == 1 then tokens[0]
    else tokens[0] + separator + Joined(tokens[1..], separator)
  }

  // The token being collected goes in front of the first piece still to come.
  ghost function Attach(token: string, pieces: seq<string>): seq<string>
    requires pieces != []
  {
    [token + pieces[0]] + pieces[1..]
  }

  lemma AttachNothing(pieces: seq<string>)
    requires pieces != []
    ensures Attach("", pieces) == pieces
  {
    assert "" + pieces[0] == pieces[0];
  }

  lemma NonEmptySnoc(tokens: seq<string>, token: string)
    ensures NonEmpty(tokens + [token]) == if token == "" then NonEmpty(tokens) else NonEmpty(tokens) + [token]
  {
    assert (tokens + [token])[..|tokens|] == tokens;
  }

  lemma DelimiterStep(pieces: seq<string>, token: string, s: string, isDelimiter: char -> bool)
    requires s != "" && isDelimiter(s[0])
    ensures pieces + Attach(token, Pieces(s, isDelimiter))
         == (pieces + [token]) + Attach("", Pieces(s[1..], isDelimiter))
  {
    var rest := Pieces(s[1..], isDelimiter);
    AttachNothing(rest);
    assert token + "" == token;
    assert Attach(token, [""] + rest) == [token] + rest;
  }

  lemma CharacterStep(token: string, s: string, isDelimiter: char -> bool)
    requires s != "" && !isDelimiter(s[0])
    ensures Attach(token, Pieces(s, isDelimiter)) == Attach(token + [s[0]], Pieces(s[1..], isDelimiter))
  {
    AttachTwice(token, [s[0]], Pieces(s[1..], isDelimiter));
  }

  lemma AttachTwice(a: string, b: string, pieces: seq<string>)
    requires pieces != []
    ensures Attach(a, Attach(b, pieces)) == Attach(a + b, pieces)
  {
    var head, tail := pieces[0], pieces[1..];
    assert ([b + head] + tail)[1..] == tail;
    assert a + (b + head) == (a + b) + head;
  }

  lemma LastToken(token: string, isDelimiter: char -> bool)
    ensures Attach(token, Pieces("", isDelimiter)) == [token]
  {
    assert token + "" == token;
  }

  method SplitBy(s: string, isDelimiter: char -> bool, filterEmpty: bool) returns (tokens: seq<string>)
    ensures tokens == Split(s, isDelimiter, filterEmpty)
  {
    assert NonEmpty([]) == [];
    hide Pieces, NonEmpty, Attach;
    tokens := [];
    var token := "";
    var count := 0;
    if s == "" {
      return;
    }
    ghost var pieces: seq<string> := [];
    assert s[0..] == s;
    AttachNothing(Pieces(s, isDelimiter));
    for i := 0 to |s|
      invariant tokens == if filterEmpty then NonEmpty(pieces) else pieces
      invariant pieces + Attach(token, Pieces(s[i..], isDelimiter)) == Pieces(s, isDelimiter)
      invariant count == |pieces| && (count == 0 ==> token == s[..i])
    {
      var c := s[i];
      assert s[i..][1..] == s[i + 1..];
      if isDelimiter(c) {
        DelimiterStep(pieces, token, s[i..], isDelimiter);
        NonEmptySnoc(pieces, token);
        if token != "" || !filterEmpty {
          tokens := tokens + [token];
        }
        pieces := pieces + [token];
        token := "";
        count := count + 1;
      } else {
        CharacterStep(token, s[i..], isDelimiter);
        assert s[..i + 1] == s[..i] + [c];
        token := token + [c];
      }
    }
    assert s[|s|..] == "" && s[..|s|] == s;
    LastToken(token, isDelimiter);
    NonEmptySnoc(pieces, token);
    if token != "" || (count > 0 && !filterEmpty) {
      tokens := tokens + [token];
    }
  }

  method Join(tokens: seq<string>, separator: string) returns (s: string)
    ensures s == Joined(tokens, separator)
  {
    if tokens == [] {
      return "";
    }
    s := "";
    for i := 0 to |tokens| - 1
      invariant s + Joined(tokens[i..], separator) == Joined(tokens, separator)
    {
      s := s + tokens[i];
      s := s + separator;
      assert tokens[i..][1..] == tokens[i + 1..];
    }
    s := s + tokens[|tokens| - 1];
  }

  /** Between any two parts of the list the separator stands once, whatever it is. */
  lemma {:induction false} JoinedConcat(a: seq<string>, b: seq<string>, separator: string)
    requires a != [] && b != []
    ensures Joined(a + b, separator) == Joined(a, separator) + separator + Joined(b, separator)
    ensures |a| == 1 ==> Joined(a, separator) == a[0]
    decreases |a|
  {
    assert (a + b)[1..] == a[1..] + b;
    if |a| > 1 {
      JoinedConcat(a[1..], b, separator);
    } else {
      assert a[1..] + b == b;
    }
  }

  /** Filtering keeps the non-empty tokens of both parts, in order. */
  lemma {:induction false} NonEmptyConcat(a: seq<string>, b: seq<string>)
    ensures NonEmpty(a + b) == NonEmpty(a) + NonEmpty(b)
    ensures |a| == 1 ==> NonEmpty(a) == if a[0] == "" then [] else a
    decreases |b|
  {
    assert NonEmpty([]) == [];
    if b == [] {
      assert a + b == a;
    } else {
      var n := |b| - 1;
      NonEmptyConcat(a, b[..n]);
      assert a + b == (a + b[..n]) + [b[n]] && b == b[..n] + [b[n]];
      NonEmptySnoc(a + b[..n], b[n]);
      NonEmptySnoc(b[..n], b[n]);
    }
    if |a| == 1 {
      assert a == [] + [a[0]];
      NonEmptySnoc([], a[0]);
    }
  }

  /** For any set of delimiters: a run without one, up to a delimiter or the end, is a piece. */
  lemma {:induction false} PiecesConcat(token: string, c: char, rest: string, isDelimiter: char -> bool)
    requires isDelimiter(c) && forall x | x in token :: !isDelimiter(x)
    ensures Pieces(token + [c] + rest, isDelimiter) == [token] + Pieces(rest, isDelimiter)
    ensures Pieces(token, isDelimiter) == [token]
    decreases |token|
  {
    if token == "" {
      assert "" + [c] + rest == [c] + rest && ([c] + rest)[1..] == rest;
    } else {
      PiecesConcat(token[1..], c, rest, isDelimiter);
      assert token[0] in token;
      assert (token + [c] + rest)[1..] == token[1..] + [c] + rest;
      assert [token[0]] + token[1..] == token;
    }
  }

  /** A one-character delimiter. */
  function Is(c: char): char -> bool {
    x => x == c
  }

  lemma {:induction false} JoinPieces(s: string, c: char)
    ensures Joined(Pieces(s, Is(c)), [c]) == s
    decreases |s|
  {
    if s != "" {
      JoinPieces(s[1..], c);
      var rest := Pieces(s[1..], Is(c));
      assert s == [s[0]] + s[1..];
      if s[0] != c {
        assert ([[s[0]] + rest[0]] + rest[1..])[1..] == rest[1..];
      } else {
        assert ([""] + rest)[1..] == rest;
      }
    }
  }

  /** Joining what was split gives back the string, for every string. */
  lemma JoinSplit(s: string, c: char)
    ensures Joined(Split(s, Is(c), false), [c]) == s
  {
    JoinPieces(s, c);
  }

  lemma {:induction false} PiecesAreClean(s: string, c: char)
    ensures forall token | token in Pieces(s, Is(c)) :: c !in token
    ensures |Pieces(s, Is(c))| == Occurrences(s, c) + 1
    decreases |s|
  {
    if s != "" {
      PiecesAreClean(s[1..], c);
    }
  }

  lemma {:induction false} PiecesOfJoined(tokens: seq<string>, c: char)
    requires tokens != [] && forall t | t in tokens :: c !in t
    ensures Pieces(Joined(tokens, [c]), Is(c)) == tokens
    decreases |tokens|
  {
    PiecesConcat(tokens[0], c, Joined(tokens[1..], [c]), Is(c));
    if |tokens| > 1 {
      PiecesOfJoined(tokens[1..], c);
      assert tokens == [tokens[0]] + tokens[1..];
    } else {
      assert tokens == [tokens[0]];
    }
  }

  /** Splitting what was joined gives back the tokens if and only if none of them holds the
      delimiter and they are not the single empty token. */
  lemma SplitJoinExact(tokens: seq<string>, c: char)
    ensures Split(Joined(tokens, [c]), Is(c), false) == tokens
       <==> tokens != [""] && forall t | t in tokens :: c !in t
  {
    var s := Joined(tokens, [c]);
    if tokens != [] && forall t | t in tokens :: c !in t {
      PiecesOfJoined(tokens, c);
      if s == "" {
        assert Pieces("", Is(c)) == [""];
      }
    }
    PiecesAreClean(s, c);
  }

  /** One token more than there are delimiters, and filtering only drops the empty ones. */
  lemma SplitCount(s: string, c: char)
    requires s != ""
    ensures |Split(s, Is(c), false)| == CountFrom(s, [c], 0) + 1
    ensures Split(s, Is(c), true) == NonEmpty(Split(s, Is(c), false))
  {
    PiecesAreClean(s, c);
    assert s[0..] == s;
    CountOfCharacter(s, c, 0);
  }

  lemma {:induction false} CountOfCharacter(s: string, c: char, from: nat)
    requires from <= |s|
    ensures CountFrom(s, [c], from) == Occurrences(s[from..], c)
    decreases |s| - from
  {
    if from < |s| {
      CountOfCharacter(s, c, from + 1);
      assert s[from..][1..] == s[from + 1..];
      assert OccursAt(s, [c], from) <==> s[from] == c by { assert s[from..from + 1] == [s[from]]; }
      if s[from] != c {
        assert Find(s, [c], from) == Find(s, [c], from + 1);
      }
    }
  }
}
