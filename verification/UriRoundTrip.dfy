/** uri_parse(to_string(u)) == u for exactly the canonical URIs. */
module UriRoundTrip {
  import opened Basics
  import opened Text
  import opened UriSplit
  import opened Uri

  // A scheme cut short at a NUL does not come back.
  lemma NulSchemeLost(u: URI)
    requires InRange(u) && NUL in u.scheme
    ensures Parse(Print(u)) != Ok(u)
  {
    CStrWhole(u.scheme);
    var g := GroupsOf(u);
    var rest := Hierarchy(g.authority, g.path + Tail(g.query, g.fragment));
    var shown := CStr(u.scheme);
    if shown != "" {
      SplitScheme(Some(shown), rest);
      assert Split(Print(u)).scheme == Some(shown);
    } else {
      assert Print(u)[0] == ':';
      assert Span(Print(u), SCHEME_STOP) == 0;
      assert Split(Print(u)).scheme == None;
    }
  }

  lemma PrintAuthorityRange(u: URI)
    requires InRange(u)
    ensures NoneOf(PrintAuthority(u), AUTHORITY_STOP)
  {
    CStrWhole(u.userInfo);
    assert NoneOf(u.userInfo, AUTHORITY_STOP);
    assert NoneOf(CStr(u.userInfo), AUTHORITY_STOP);
  }

  lemma PathRange(u: URI)
    requires InRange(u)
    ensures NoneOf(PrintPath(u), PATH_STOP)
    ensures PrintPath(u) != "" ==> PrintPath(u)[0] == u.path[0]
    ensures (if PrintPath(u) == "" then "/" else PrintPath(u)) == u.path <==> NUL !in u.path
    ensures NUL !in u.path ==> PrintPath(u) == u.path
  {
    CStrWhole(u.path);
    if PrintPath(u) == "" {
      assert u.path[0] == NUL && u.path[0] in u.path;
    }
  }

  lemma QueryRange(u: URI)
    requires InRange(u)
    ensures NoneOf(CStr(u.query), QUERY_STOP)
    ensures TextOf(Present(u.query)) == u.query <==> NUL !in u.query
    ensures TextOf(Present(u.fragment)) == u.fragment
  {
    CStrWhole(u.query);
    CStrWhole(u.fragment);
  }

  // User info, host and port as read back from the printed components.
  ghost predicate AuthorityReadsBack(u: URI) {
    var (userInfo, host, port) := ParseAuthority(TextOf(GroupsOf(u).authority));
    userInfo == u.userInfo && host == u.host && OrDefault(port, u.scheme) == u.port
  }

  // Parsing a printed URI, once its components are ones a split can produce.
  lemma ParsePrinted(u: URI)
    requires InRange(u) && NUL !in u.scheme && Valid(GroupsOf(u))
    ensures Parse(Print(u)) == Ok(u) <==> AuthorityReadsBack(u) && NUL !in u.path && NUL !in u.query
  {
    assert NUL !in u.fragment;
    hide Split, Recompose, Valid, ParseAuthority, PrintAuthority, PrintPath, DefaultPort, CStr, InRange;
    SplitRecompose(GroupsOf(u));
    CStrWhole(u.scheme);
    var g := GroupsOf(u);
    assert Split(Print(u)) == g && TextOf(g.scheme) == u.scheme;
    PathRange(u);
    QueryRange(u);
    var (userInfo, host, port) := ParseAuthority(TextOf(g.authority));
    assert Parse(Print(u)) == Ok(URI(u.scheme, userInfo, host, OrDefault(port, u.scheme),
                                     if g.path == "" then "/" else g.path, TextOf(g.query), u.fragment));
  }

  lemma WithHost(u: URI)
    requires InRange(u) && NUL !in u.scheme && u.host != ""
    ensures Parse(Print(u)) == Ok(u) <==> Canonical(u)
  {
    ValidWithHost(u);
    ParsePrinted(u);
    AuthorityExact(u);
    CanonicalWithHost(u);
  }

  lemma AuthorityExact(u: URI)
    requires InRange(u) && u.host != ""
    ensures AuthorityReadsBack(u)
       <==> NUL !in u.userInfo && (u.userInfo == "" ==> '@' !in u.host) && PortSurvives(u)
  {
    if u.userInfo == "" {
      NoUserInfoExact(u);
    } else {
      assert NoneOf(u.userInfo, {'@'});
      UserInfoExact(u);
    }
  }

  lemma ValidWithHost(u: URI)
    requires InRange(u) && NUL !in u.scheme && u.host != ""
    ensures Valid(GroupsOf(u))
  {
    CStrWhole(u.scheme);
    PrintAuthorityRange(u);
    PathRange(u);
    QueryRange(u);
    var g := GroupsOf(u);
    var rest := Hierarchy(g.authority, g.path + Tail(g.query, g.fragment));
    assert rest[0] == '/';
    assert Span(rest, SCHEME_STOP) == 0;
  }

  lemma CanonicalWithHost(u: URI)
    requires InRange(u) && NUL !in u.scheme && u.host != ""
    ensures Canonical(u) <==> NUL !in u.userInfo && (u.userInfo == "" ==> '@' !in u.host) && PortSurvives(u)
                              && NUL !in u.path && NUL !in u.query
  {
    assert u.path[0] in u.path;
  }

  lemma WithoutHost(u: URI)
    requires InRange(u) && NUL !in u.scheme && u.host == ""
    ensures Parse(Print(u)) == Ok(u) <==> Canonical(u)
  {
    CanonicalWithoutHost(u);
    if u.scheme == "" && LooksLikeScheme(Print(u)) {
      SchemeAppears(u);
    } else if StartsWithSlashes(PrintPath(u)) {
      SlashesBecomeAuthority(u);
    } else {
      ValidWithoutHost(u);
      ParsePrinted(u);
      NoAuthorityReadsBack(u);
    }
  }

  lemma SchemeAppears(u: URI)
    requires u.scheme == "" && LooksLikeScheme(Print(u))
    ensures Parse(Print(u)) != Ok(u)
  {
    assert Split(Print(u)).scheme == Some(Print(u)[..Span(Print(u), SCHEME_STOP)]);
  }

  lemma NoAuthorityReadsBack(u: URI)
    requires u.host == ""
    ensures AuthorityReadsBack(u) <==> u.userInfo == "" && u.port == DefaultPort(u.scheme)
  {
    assert ParseAuthority("") == ("", "", 0);
  }

  lemma CanonicalWithoutHost(u: URI)
    requires InRange(u) && NUL !in u.scheme && u.host == ""
    ensures Canonical(u) <==> NUL !in u.path && NUL !in u.query && u.userInfo == "" && u.port == DefaultPort(u.scheme)
                              && !StartsWithSlashes(PrintPath(u)) && !(u.scheme == "" && LooksLikeScheme(Print(u)))
  {
    PathRange(u);
    if u.scheme == "" {
      SchemeInPath(u);
    }
  }

  lemma ValidWithoutHost(u: URI)
    requires InRange(u) && NUL !in u.scheme && u.host == ""
    requires !(u.scheme == "" && LooksLikeScheme(Print(u))) && !StartsWithSlashes(PrintPath(u))
    ensures Valid(GroupsOf(u))
  {
    CStrWhole(u.scheme);
    PathRange(u);
    QueryRange(u);
    var g := GroupsOf(u);
    var rest := Hierarchy(g.authority, g.path + Tail(g.query, g.fragment));
    assert u.scheme == "" ==> Print(u) == rest;
  }

  // Without scheme and host, the printed text looks like a scheme exactly when the path does.
  lemma SchemeInPath(u: URI)
    requires InRange(u) && u.host == "" && u.scheme == ""
    ensures NUL !in u.path ==> (LooksLikeScheme(Print(u)) <==> LooksLikeScheme(u.path))
  {
    PathRange(u);
    var g := GroupsOf(u);
    var tail := Tail(g.query, g.fragment);
    assert Print(u) == g.path + tail;
    var n := Span(g.path, SCHEME_STOP);
    if n == |g.path| {
      assert g.path[..n] == g.path;
      SpanConcat(g.path, tail, SCHEME_STOP);
    } else {
      assert Print(u)[..n] == g.path[..n];
      SpanIs(Print(u), SCHEME_STOP, n);
    }
  }

  // A path starting with "//" is read as an authority.
  lemma SlashesBecomeAuthority(u: URI)
    requires InRange(u) && NUL !in u.scheme && u.host == "" && StartsWithSlashes(PrintPath(u))
    requires !(u.scheme == "" && LooksLikeScheme(Print(u)))
    ensures Parse(Print(u)) != Ok(u)
  {
    hide Split, Print, ParseAuthority, DefaultPort, TakePath, TakeAuthority, TakeScheme, CStr, InRange, LooksLikeScheme;
    PrintPathShorter(u);
    var g := GroupsOf(u);
    var rest := g.path + Tail(g.query, g.fragment);
    RestOfPrint(u, rest);
    PathRange(u);
    ShorterPath(g.path, Tail(g.query, g.fragment));
    SplitPath(Print(u));
  }

  lemma SplitPath(s: string)
    ensures Split(s).path == TakePath(TakeAuthority(TakeScheme(s).1).1).0
  {
  }

  lemma PrintPathShorter(u: URI)
    requires InRange(u)
    ensures |PrintPath(u)| <= |u.path|
  {
  }

  lemma RestOfPrint(u: URI, rest: string)
    requires InRange(u) && NUL !in u.scheme && u.host == ""
    requires rest == GroupsOf(u).path + Tail(GroupsOf(u).query, GroupsOf(u).fragment)
    requires !(u.scheme == "" && LooksLikeScheme(Print(u)))
    ensures TakeScheme(Print(u)).1 == rest
  {
    CStrWhole(u.scheme);
    assert Hierarchy(None, rest) == rest;
    assert u.scheme == "" ==> Print(u) == rest;
    SplitScheme(GroupsOf(u).scheme, rest);
  }

  // Past the authority the leading slashes start, a shorter path is left.
  lemma ShorterPath(path: string, tail: string)
    requires StartsWithSlashes(path) && (tail != "" ==> tail[0] in PATH_STOP) && NoneOf(path, PATH_STOP)
    ensures |TakePath(TakeAuthority(path + tail).1).0| < |path|
  {
    var short := path[2..];
    assert (path + tail)[2..] == short + tail;
    var n := Span(short, AUTHORITY_STOP);
    if n == |short| {
      assert short[..n] == short;
      SpanConcat(short, tail, AUTHORITY_STOP);
    } else {
      assert (short + tail)[..n] == short[..n];
      SpanIs(short + tail, AUTHORITY_STOP, n);
    }
    var after := short[n..];
    assert (short + tail)[n..] == after + tail;
    hide Span;
    assert forall c | c in after :: c in path;
    SpanConcat(after, tail, PATH_STOP);
  }

  /** The round trip holds for exactly the URIs a caller can recognise as canonical. */
  lemma RoundTripExact(u: URI)
    ensures Parse(Print(u)) == Ok(u) <==> Canonical(u)
  {
    if !InRange(u) {
      ParseRange(Print(u));
      if Canonical(u) {
        CanonicalInRange(u);
      }
    } else if NUL in u.scheme {
      NulSchemeLost(u);
    } else if u.host != "" {
      WithHost(u);
    } else {
      WithoutHost(u);
    }
  }

  lemma CanonicalInRange(u: URI)
    requires Canonical(u)
    ensures InRange(u)
  {
  }

  /** A backslash in the host is a component that prints but does not read back: it is
      taken for the end of the authority. */
  lemma BackslashEndsHost(u: URI)
    requires '\\' in u.host
    ensures Parse(Print(u)) != Ok(u)
  {
    RoundTripExact(u);
  }
}
