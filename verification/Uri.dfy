/** uri_parse and to_string, and exactly which URIs survive printing and parsing. */
module Uri {
  import opened Basics
  import opened Text
  import opened UriSplit

  type uint16 = x: int | 0 <= x < 65536

  datatype URI = URI(scheme: string, userInfo: string, host: string, port: uint16,
                     path: string, query: string, fragment: string)

  datatype ParseError = NotAUri

  const DEFAULT_PORTS: map<string, uint16> := map[
    "ftp" := 22, "gopher" := 70, "http" := 80, "https" := 443, "imap" := 143, "ldap" := 389, "nfs" := 2049,
    "nntp" := 119, "pop" := 110, "smtp" := 25, "telnet" := 23, "ws" := 80, "wss" := 443
  ]

  function DefaultPort(scheme: string): uint16 {
    if scheme in DEFAULT_PORTS then DEFAULT_PORTS[scheme] else 0
  }

  // An absent component reads as the empty string.
  function TextOf(component: Option<string>): string {
    if component.Some? then component.value else ""
  }

  function Present(s: string): Option<string> {
    if s == "" then None else Some(CStr(s))
  }

  // ---- Parsing ----

  // The host, and the port after the last ':' if that is a number.
  function HostPort(rest: string): (string, uint16) {
    var colon := FindLast(rest, ':');
    if colon.Some? && StoUi16(rest[colon.value + 1..]).Some?
    then (rest[..colon.value], StoUi16(rest[colon.value + 1..]).value) else (rest, 0)
  }

  // User info up to the first '@', then host and port.
  function ParseAuthority(authority: string): (string, string, uint16) {
    var at := Span(authority, {'@'});
    if at < |authority| then
      var (host, port) := HostPort(authority[at + 1..]);
      (authority[..at], host, port)
    else
      var (host, port) := HostPort(authority);
      ("", host, port)
  }

  function OrDefault(port: uint16, scheme: string): uint16 {
    if port == 0 then DefaultPort(scheme) else port
  }

  // The fragment's '.' matches any character but NUL; nothing else can fail to match.
  function Parse(s: string): Result<URI, ParseError> {
    var g := Split(s);
    if NUL in TextOf(g.fragment) then Err(NotAUri)
    else
      var (userInfo, host, port) := ParseAuthority(TextOf(g.authority));
      var scheme := TextOf(g.scheme);
      Ok(URI(scheme, userInfo, host, OrDefault(port, scheme), if g.path == "" then "/" else g.path,
             TextOf(g.query), TextOf(g.fragment)))
  }

  // The part of uri_parse that takes the authority apart.
  method TakeAuthorityApart(text: string) returns (userInfo: string, host: string, port: uint16)
    ensures (userInfo, host, port) == ParseAuthority(text)
  {
    hide StoUi16, FindLast, Span;
    userInfo, port := "", 0;
    var authority := text;
    var pos := Span(authority, {'@'});
    if pos < |authority| {
      userInfo := authority[..pos];
      authority := authority[pos + 1..];
    }
    var colon := FindLast(authority, ':');
    if colon.Some? {
      var number := StoUi16(authority[colon.value + 1..]);
      if number.Some? {
        port := number.value;
        authority := authority[..colon.value];
      }
    }
    host := authority;
  }

  // ---- What a parse returns, without saying how ----

  ghost predicate LastColon(s: string, at: nat) {
    at < |s| && s[at] == ':' && ':' !in s[at + 1..]
  }

  ghost predicate IsAnyPort(text: string) {
    exists n: nat :: IsPort(text, n)
  }

  ghost predicate EndsInPort(s: string) {
    exists at: nat | LastColon(s, at) :: IsAnyPort(s[at + 1..])
  }

  /** The text behind the last ':' is the port if it reads as one; otherwise all is host. */
  ghost predicate IsHostPort(s: string, host: string, port: nat) {
    if EndsInPort(s) then
      |host| <= |s| && host == s[..|host|] && LastColon(s, |host|) && IsPort(s[|host| + 1..], port)
    else host == s && port == 0
  }

  /** The text before the first '@' is the user info. */
  ghost predicate IsAuthority(s: string, userInfo: string, host: string, port: nat) {
    if '@' in s then
      && |userInfo| < |s| && userInfo == s[..|userInfo|] && s[|userInfo|] == '@' && '@' !in userInfo
      && IsHostPort(s[|userInfo| + 1..], host, port)
    else userInfo == "" && IsHostPort(s, host, port)
  }

  lemma OneLastColon(s: string, at: nat)
    requires LastColon(s, at)
    ensures FindLast(s, ':') == Some(at)
  {
    assert s == s[..at] + [':'] + s[at + 1..];
    FindLastIs(s[..at], ':', s[at + 1..]);
  }

  lemma HostPortParts(s: string, host: string, port: uint16)
    ensures HostPort(s) == (host, port) <==> IsHostPort(s, host, port)
    ensures EndsInPort(s) <==> FindLast(s, ':').Some? && StoUi16(s[FindLast(s, ':').value + 1..]).Some?
  {
    hide FindLast, StoUi16, IsPort;
    forall at: nat | LastColon(s, at)
      ensures FindLast(s, ':') == Some(at)
    {
      OneLastColon(s, at);
    }
    var colon := FindLast(s, ':');
    if colon.Some? {
      var text := s[colon.value + 1..];
      assert LastColon(s, colon.value);
      StoUi16Exact(text, port);
      if StoUi16(text).Some? {
        StoUi16Exact(text, StoUi16(text).value);
        assert IsAnyPort(text);
        assert EndsInPort(s);
      }
      forall n: nat
        ensures StoUi16(text) == Some(n) <==> IsPort(text, n)
      {
        StoUi16Exact(text, n);
      }
    }
  }

  /** User info, host and port of an authority. */
  lemma ParseAuthorityExact(s: string, userInfo: string, host: string, port: uint16)
    ensures ParseAuthority(s) == (userInfo, host, port) <==> IsAuthority(s, userInfo, host, port)
  {
    hide HostPort, IsHostPort, Span;
    var at := Span(s, {'@'});
    assert s[..|s|] == s;
    if at < |s| {
      assert s == s[..at] + (['@'] + s[at + 1..]);
      HostPortParts(s[at + 1..], host, port);
      if |userInfo| < |s| && userInfo == s[..|userInfo|] && s[|userInfo|] == '@' && '@' !in userInfo {
        SpanIs(s, {'@'}, |userInfo|);
      }
    } else {
      HostPortParts(s, host, port);
    }
  }

  method UriParse(s: string) returns (r: Result<URI, ParseError>)
    ensures r == Parse(s)
  {
    var uri := URI("", "", "", 0, "", "", "");
    var matches := Split(s);
    if NUL in TextOf(matches.fragment) {
      return Err(NotAUri);
    }
    uri := uri.(scheme := TextOf(matches.scheme));
    var userInfo, host, port := TakeAuthorityApart(TextOf(matches.authority));
    uri := uri.(userInfo := userInfo, host := host, port := port);
    if 0 == uri.port {
      uri := uri.(port := DefaultPort(uri.scheme));
    }
    uri := uri.(path := matches.path);
    if uri.path == "" {
      uri := uri.(path := "/");
    }
    uri := uri.(query := TextOf(matches.query), fragment := TextOf(matches.fragment));
    return Ok(uri);
  }

  // ---- Printing ----

  // The scheme's default port is left out.
  predicate PrintsPort(u: URI) {
    u.port != 0 && DefaultPort(u.scheme) != u.port
  }

  function PrintAuthority(u: URI): string {
    (if u.userInfo != "" then CStr(u.userInfo) + "@" else "") + u.host +
    (if PrintsPort(u) then ":" + Decimal(u.port) else "")
  }

  function PrintPath(u: URI): string {
    if u.path != "" then CStr(u.path) else "/"
  }

  // The components to_string writes; "%s" and c_str() stop at a NUL, the host does not.
  function GroupsOf(u: URI): Groups {
    Groups(Present(u.scheme), if u.host != "" then Some(PrintAuthority(u)) else None, PrintPath(u),
           Present(u.query), Present(u.fragment))
  }

  function Print(u: URI): string {
    Recompose(GroupsOf(u))
  }

  // The part of to_string that writes the authority.
  method AppendAuthority(text: string, u: URI) returns (s: string)
    ensures s == text + ("//" + PrintAuthority(u))
  {
    s := text + "//";
    if u.userInfo != "" {
      s := s + CStr(u.userInfo) + "@";
    }
    ghost var userInfo := if u.userInfo != "" then CStr(u.userInfo) + "@" else "";
    assert s == text + ("//" + userInfo);
    s := s + u.host;
    assert s == text + ("//" + (userInfo + u.host));
    if PrintsPort(u) {
      s := s + ":" + Decimal(u.port);
      assert s == text + ("//" + (userInfo + u.host + (":" + Decimal(u.port))));
    }
  }

  method ToString(u: URI) returns (s: string)
    ensures s == Print(u)
    ensures s ==
      (if u.scheme != "" then CStr(u.scheme) + ":" else "") +
      (if u.host == "" then ""
       else "//" + ((if u.userInfo != "" then CStr(u.userInfo) + "@" else "") + u.host +
                    (if u.port != 0 && u.port != DefaultPort(u.scheme) then ":" + Decimal(u.port) else ""))) +
      (if u.path != "" then CStr(u.path) else "/") +
      (if u.query != "" then "?" + CStr(u.query) else "") +
      (if u.fragment != "" then "#" + CStr(u.fragment) else "")
  {
    ghost var g := GroupsOf(u);
    RecomposeFromTheLeft(g);
    hide Recompose, CStr, Decimal, DefaultPort;
    s := "";
    if u.scheme != "" {
      s := s + CStr(u.scheme) + ":";
    }
    assert s == SchemeText(g);
    if u.host != "" {
      s := AppendAuthority(s, u);
    }
    assert s == SchemeText(g) + AuthorityText(g);
    s := s + if u.path != "" then CStr(u.path) else "/";
    ghost var hierarchy := s;
    assert hierarchy == SchemeText(g) + AuthorityText(g) + g.path;
    if u.query != "" {
      s := s + "?" + CStr(u.query);
    }
    assert s == hierarchy + QueryText(g);
    if u.fragment != "" {
      s := s + "#" + CStr(u.fragment);
    }
    assert s == hierarchy + QueryText(g) + FragmentText(g);
  }

  // ---- The round trip ----

  /** The port survives: it is printed, or it is the scheme's default and the host does not
      end in something that reads as a port. */
  ghost predicate PortSurvives(u: URI) {
    || (u.port != 0 && u.port != DefaultPort(u.scheme))
    || (u.port == DefaultPort(u.scheme) && !EndsInPort(u.host))
  }

  /** What a caller can check of a URI before printing it. */
  ghost predicate Canonical(u: URI) {
    && NoneOf(u.scheme, SCHEME_STOP + {NUL})
    && u.path != "" && NoneOf(u.path, PATH_STOP + {NUL})
    && NoneOf(u.query, QUERY_STOP + {NUL}) && NUL !in u.fragment
    && if u.host != "" then
         && NoneOf(u.userInfo, AUTHORITY_STOP + {'@', NUL}) && NoneOf(u.host, AUTHORITY_STOP)
         && (u.userInfo == "" ==> '@' !in u.host)
         && PortSurvives(u)
         && (u.path[0] == '/' || u.path[0] == '\\')
       else
         && u.userInfo == "" && u.port == DefaultPort(u.scheme)
         && !StartsWithSlashes(u.path)
         && (u.scheme == "" ==> !LooksLikeScheme(u.path))
  }

  /** What every parse result satisfies. */
  ghost predicate InRange(u: URI) {
    && NoneOf(u.scheme, SCHEME_STOP)
    && NoneOf(u.userInfo, AUTHORITY_STOP + {'@'}) && NoneOf(u.host, AUTHORITY_STOP)
    && u.path != "" && NoneOf(u.path, PATH_STOP) && (u.host != "" ==> u.path[0] in AUTHORITY_STOP)
    && NoneOf(u.query, QUERY_STOP) && NUL !in u.fragment
  }

  lemma ParseAuthorityRange(authority: string)
    requires NoneOf(authority, AUTHORITY_STOP)
    ensures var (userInfo, host, _) := ParseAuthority(authority);
      && NoneOf(userInfo, AUTHORITY_STOP + {'@'}) && NoneOf(host, AUTHORITY_STOP)
      && (authority == "" ==> userInfo == "" && host == "")
  {
    var (userInfo, host, _) := ParseAuthority(authority);
    assert forall c | c in userInfo :: c in authority;
    assert forall c | c in host :: c in authority;
  }

  lemma SplitRange(s: string)
    ensures var g := Split(s);
      && NoneOf(TextOf(g.scheme), SCHEME_STOP) && NoneOf(TextOf(g.authority), AUTHORITY_STOP)
      && NoneOf(g.path, PATH_STOP) && NoneOf(TextOf(g.query), QUERY_STOP)
      && (g.authority.Some? && g.path != "" ==> g.path[0] in AUTHORITY_STOP)
  {
    hide Recompose, Split, Tail, Hierarchy, LooksLikeScheme;
    RecomposeSplit(s);
  }

  lemma ParseRange(s: string)
    ensures Parse(s).Ok? ==> InRange(Parse(s).value)
  {
    hide Split, ParseAuthority, DefaultPort;
    SplitRange(s);
    ParseAuthorityRange(TextOf(Split(s).authority));
  }

  // What to_string writes after the user info.
  function PrintHostPort(u: URI): string {
    u.host + if PrintsPort(u) then ":" + Decimal(u.port) else ""
  }

  /** Reading back a printed authority: whether user info, host and port come out again. */
  ghost predicate AuthoritySurvives(u: URI) {
    var (userInfo, host, port) := ParseAuthority(PrintAuthority(u));
    userInfo == u.userInfo && host == u.host && OrDefault(port, u.scheme) == u.port
  }

  lemma UserInfoExact(u: URI)
    requires NoneOf(u.userInfo, {'@'}) && u.userInfo != ""
    ensures AuthoritySurvives(u) <==> NUL !in u.userInfo && PortSurvives(u)
  {
    hide HostPort, PrintsPort, PortSurvives, CStr, Span, Decimal, DefaultPort;
    CStrWhole(u.userInfo);
    var shown, rest := CStr(u.userInfo), PrintHostPort(u);
    ParseWithUserInfo(shown, rest);
    assert PrintAuthority(u) == shown + "@" + rest;
    HostPortExact(u, rest);
    hide ParseAuthority;
  }

  lemma ParseWithUserInfo(userInfo: string, rest: string)
    requires NoneOf(userInfo, {'@'})
    ensures ParseAuthority(userInfo + "@" + rest) == (userInfo, HostPort(rest).0, HostPort(rest).1)
  {
    hide HostPort;
    var text := userInfo + ("@" + rest);
    SpanConcat(userInfo, "@" + rest, {'@'});
    assert text == userInfo + "@" + rest;
    assert text[..|userInfo|] == userInfo && text[|userInfo| + 1..] == rest;
  }

  lemma NoUserInfoExact(u: URI)
    requires u.host != "" && u.userInfo == ""
    ensures AuthoritySurvives(u) <==> '@' !in u.host && PortSurvives(u)
  {
    var rest := PrintHostPort(u);
    assert PrintAuthority(u) == rest;
    if '@' in u.host {
      EmptyUserInfoLosesHost(u, rest);
    } else {
      assert NoneOf(rest, {'@'});
      assert rest + "" == rest;
      SpanConcat(rest, "", {'@'});
      assert ParseAuthority(rest) == ("", HostPort(rest).0, HostPort(rest).1);
      HostPortExact(u, rest);
      hide ParseAuthority, HostPort, PrintAuthority, PrintsPort, PortSurvives, Span, Decimal, DefaultPort;
    }
  }

  lemma HostPortExact(u: URI, rest: string)
    requires rest == u.host + if PrintsPort(u) then ":" + Decimal(u.port) else ""
    ensures var (host, port) := HostPort(rest);
      (host == u.host && OrDefault(port, u.scheme) == u.port) <==> PortSurvives(u)
    ensures PrintsPort(u) ==> HostPort(rest).0 == u.host
  {
    if PrintsPort(u) {
      PrintedPortReadsBack(u.host, u.port);
      assert rest == u.host + ":" + Decimal(u.port);
    } else {
      HostWithoutPort(u.host);
      assert rest == u.host;
    }
    hide HostPort, Decimal, EndsInPort;
  }

  lemma HostWithoutPort(host: string)
    ensures if EndsInPort(host) then |HostPort(host).0| < |host| else HostPort(host) == (host, 0)
  {
    HostPortParts(host, host, 0);
    hide FindLast, StoUi16, EndsInPort, IsHostPort;
  }

  lemma PrintedPortReadsBack(host: string, port: uint16)
    ensures HostPort(host + ":" + Decimal(port)) == (host, port)
  {
    var rest := host + ":" + Decimal(port);
    StoUi16OfDecimal(port);
    hide StoUi16, FindLast, Decimal;
    assert ':' !in Decimal(port);
    FindLastIs(host, ':', Decimal(port));
    assert rest == host + [':'] + Decimal(port);
    assert rest[|host| + 1..] == Decimal(port) && rest[..|host|] == host;
  }

  // With no user info to print, an '@' in the host is taken for its end.
  lemma EmptyUserInfoLosesHost(u: URI, rest: string)
    requires u.host != "" && u.userInfo == "" && '@' in u.host
    requires rest == u.host + if PrintsPort(u) then ":" + Decimal(u.port) else ""
    ensures var (userInfo, host, port) := ParseAuthority(rest); userInfo != "" || host != u.host
  {
    var at := Span(rest, {'@'});
    if at == 0 {
      var cut := u.(host := u.host[1..]);
      assert rest[1..] == cut.host + if PrintsPort(u) then ":" + Decimal(u.port) else "";
      HostPortExact(cut, rest[1..]);
    }
  }
}
