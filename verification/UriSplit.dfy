/** The generic split of appendix B of RFC 3986, as the library's POSIX regular expression
    makes it, and the recomposition of section 5.3. */
module UriSplit {
  import opened Basics
  import opened Text

  // In a POSIX bracket expression a backslash stands for itself, so the expression's
  // [^:\/?#] and [^\/?#] exclude the backslash as well.
  const SCHEME_STOP: set<char> := {':', '\\', '/', '?', '#'}
  const AUTHORITY_STOP: set<char> := {'\\', '/', '?', '#'}
  const PATH_STOP: set<char> := {'?', '#'}
  const QUERY_STOP: set<char> := {'#'}

  /** The five components; an absent one differs from an empty one. */
  datatype Groups = Groups(scheme: Option<string>, authority: Option<string>, path: string,
                           query: Option<string>, fragment: Option<string>)

  predicate StartsWithSlashes(s: string) {
    |s| >= 2 && s[0] == '/' && s[1] == '/'
  }

  predicate LooksLikeScheme(s: string) {
    var n := Span(s, SCHEME_STOP);
    0 < n < |s| && s[n] == ':'
  }

  // Each stage takes its component off the front and returns the rest.
  function TakeScheme(s: string): (Option<string>, string) {
    var n := Span(s, SCHEME_STOP);
    if LooksLikeScheme(s) then (Some(s[..n]), s[n + 1..]) else (None, s)
  }

  function TakeAuthority(s: string): (Option<string>, string) {
    if StartsWithSlashes(s) then
      var n := Span(s[2..], AUTHORITY_STOP);
      (Some(s[2..][..n]), s[2..][n..])
    else (None, s)
  }

  function TakeQuery(s: string): (Option<string>, string) {
    if s != "" && s[0] == '?' then
      var n := Span(s[1..], QUERY_STOP);
      (Some(s[1..][..n]), s[1..][n..])
    else (None, s)
  }

  function TakePath(s: string): (string, string) {
    var n := Span(s, PATH_STOP);
    (s[..n], s[n..])
  }

  function Split(s: string): Groups {
    var (scheme, s1) := TakeScheme(s);
    var (authority, s2) := TakeAuthority(s1);
    var (path, s3) := TakePath(s2);
    var (query, s4) := TakeQuery(s3);
    Groups(scheme, authority, path, query, if s4 != "" then Some(s4[1..]) else None)
  }

  // The text of each component with its delimiter, empty when absent.
  function SchemeText(g: Groups): string {
    if g.scheme.Some? then g.scheme.value + ":" else ""
  }

  function AuthorityText(g: Groups): string {
    if g.authority.Some? then "//" + g.authority.value else ""
  }

  function QueryText(g: Groups): string {
    if g.query.Some? then "?" + g.query.value else ""
  }

  function FragmentText(g: Groups): string {
    if g.fragment.Some? then "#" + g.fragment.value else ""
  }

  function Tail(query: Option<string>, fragment: Option<string>): string {
    (if query.Some? then "?" + query.value else "") + (if fragment.Some? then "#" + fragment.value else "")
  }

  function Hierarchy(authority: Option<string>, rest: string): string {
    (if authority.Some? then "//" + authority.value else "") + rest
  }

  function Recompose(g: Groups): string {
    SchemeText(g) + Hierarchy(g.authority, g.path + Tail(g.query, g.fragment))
  }

  lemma RecomposeFromTheLeft(g: Groups)
    ensures SchemeText(g) + AuthorityText(g) + g.path + QueryText(g) + FragmentText(g) == Recompose(g)
  {
  }

  ghost predicate ValidScheme(scheme: Option<string>, rest: string) {
    if scheme.Some? then scheme.value != "" && NoneOf(scheme.value, SCHEME_STOP) else !LooksLikeScheme(rest)
  }

  ghost predicate ValidHierarchy(authority: Option<string>, path: string) {
    && NoneOf(path, PATH_STOP)
    && if authority.Some? then NoneOf(authority.value, AUTHORITY_STOP) && (path != "" ==> path[0] in AUTHORITY_STOP)
       else !StartsWithSlashes(path)
  }

  /** Components the split can produce. */
  ghost predicate Valid(g: Groups) {
    && ValidScheme(g.scheme, Hierarchy(g.authority, g.path + Tail(g.query, g.fragment)))
    && ValidHierarchy(g.authority, g.path)
    && (g.query.Some? ==> NoneOf(g.query.value, QUERY_STOP))
  }

  lemma SplitScheme(scheme: Option<string>, rest: string)
    requires ValidScheme(scheme, rest)
    ensures TakeScheme((if scheme.Some? then scheme.value + ":" else "") + rest) == (scheme, rest)
  {
    if scheme.Some? {
      var s := scheme.value + ":" + rest;
      SpanConcat(scheme.value, ":" + rest, SCHEME_STOP);
      assert s == scheme.value + (":" + rest);
      assert s[..|scheme.value|] == scheme.value && s[|scheme.value| + 1..] == rest;
    } else {
      assert "" + rest == rest;
    }
  }

  lemma SplitAuthority(authority: Option<string>, path: string, tail: string)
    requires ValidHierarchy(authority, path) && (tail != "" ==> tail[0] in PATH_STOP)
    ensures TakeAuthority(Hierarchy(authority, path + tail)) == (authority, path + tail)
  {
    var rest := path + tail;
    if authority.Some? {
      var s := "//" + authority.value + rest;
      assert s[2..] == authority.value + rest;
      assert rest != "" ==> rest[0] in AUTHORITY_STOP;
      SpanConcat(authority.value, rest, AUTHORITY_STOP);
      assert (authority.value + rest)[..|authority.value|] == authority.value;
      assert (authority.value + rest)[|authority.value|..] == rest;
    } else {
      assert "" + rest == rest;
      assert |path| == 1 && tail != "" ==> rest[1] == tail[0];
    }
  }

  lemma SplitTail(query: Option<string>, fragment: Option<string>)
    requires query.Some? ==> NoneOf(query.value, QUERY_STOP)
    ensures var f := if fragment.Some? then "#" + fragment.value else "";
      TakeQuery(Tail(query, fragment)) == (query, f)
  {
    var f := if fragment.Some? then "#" + fragment.value else "";
    if query.Some? {
      assert Tail(query, fragment)[1..] == query.value + f;
      SpanConcat(query.value, f, QUERY_STOP);
      assert (query.value + f)[..|query.value|] == query.value && (query.value + f)[|query.value|..] == f;
    } else {
      assert "" + f == f;
    }
  }

  /** Splitting undoes recomposing ... */
  lemma SplitRecompose(g: Groups)
    requires Valid(g)
    ensures Split(Recompose(g)) == g
  {
    var tail := Tail(g.query, g.fragment);
    SplitScheme(g.scheme, Hierarchy(g.authority, g.path + tail));
    SplitAuthority(g.authority, g.path, tail);
    SpanConcat(g.path, tail, PATH_STOP);
    assert (g.path + tail)[..|g.path|] == g.path && (g.path + tail)[|g.path|..] == tail;
    SplitTail(g.query, g.fragment);
    if g.fragment.Some? {
      assert ("#" + g.fragment.value)[1..] == g.fragment.value;
    }
  }

  lemma TakeSchemeExact(s: string)
    ensures var (scheme, rest) := TakeScheme(s);
      s == (if scheme.Some? then scheme.value + ":" else "") + rest && ValidScheme(scheme, rest)
  {
    var (scheme, rest) := TakeScheme(s);
    if scheme.Some? {
      assert s == s[..|scheme.value|] + [s[|scheme.value|]] + s[|scheme.value| + 1..];
    }
  }

  lemma TakeAuthorityExact(s: string)
    ensures var (authority, rest) := TakeAuthority(s);
      && s == Hierarchy(authority, rest)
      && (authority.Some? ==> NoneOf(authority.value, AUTHORITY_STOP) && (rest != "" ==> rest[0] in AUTHORITY_STOP))
      && (authority.None? ==> !StartsWithSlashes(rest))
  {
    var (authority, rest) := TakeAuthority(s);
    if authority.Some? {
      assert s == s[..2] + (s[2..][..|authority.value|] + s[2..][|authority.value|..]);
      assert s[..2] == "//";
    }
  }

  lemma TakeQueryExact(s: string)
    requires s != "" ==> s[0] in PATH_STOP
    ensures var (query, rest) := TakeQuery(s);
      && s == (if query.Some? then "?" + query.value else "") + rest
      && (query.Some? ==> NoneOf(query.value, QUERY_STOP)) && (rest != "" ==> rest[0] == '#')
  {
    var (query, rest) := TakeQuery(s);
    if query.Some? {
      assert s == [s[0]] + (s[1..][..|query.value|] + s[1..][|query.value|..]);
    }
  }

  lemma RestExact(s: string)
    ensures var (path, s3) := TakePath(s);
      var (query, s4) := TakeQuery(s3);
      && s == path + Tail(query, if s4 != "" then Some(s4[1..]) else None)
      && NoneOf(path, PATH_STOP) && (path != "" ==> path[0] == s[0])
      && (query.Some? ==> NoneOf(query.value, QUERY_STOP))
  {
    var (path, s3) := TakePath(s);
    assert s == path + s3;
    TakeQueryExact(s3);
    var s4 := TakeQuery(s3).1;
    assert s4 != "" ==> s4 == "#" + s4[1..];
  }

  /** ... recomposing undoes splitting, for every string, and the split's components are
      always ones the split can produce: the two are inverse bijections. */
  lemma RecomposeSplit(s: string)
    ensures Recompose(Split(s)) == s && Valid(Split(s))
  {
    var g := Split(s);
    TakeSchemeExact(s);
    var s1 := TakeScheme(s).1;
    TakeAuthorityExact(s1);
    var s2 := TakeAuthority(s1).1;
    RestExact(s2);
    assert s2 == g.path + Tail(g.query, g.fragment);
    assert ValidHierarchy(g.authority, g.path) by {
      assert g.path != "" ==> s2 != "" && g.path[0] == s2[0];
      assert StartsWithSlashes(g.path) ==> s2[1] == g.path[1];
    }
  }
}
