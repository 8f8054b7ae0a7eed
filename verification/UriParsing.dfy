/** What uri_parse makes of a string, stated by the components the string is put together of. */
module UriParsing {
  import opened Basics
  import opened Text
  import opened UriSplit
  import opened Uri

  /** The only way to fail is a NUL behind a '#'. */
  lemma ParseFailsExact(s: string)
    ensures Parse(s).Err? <==> exists i: nat, j: nat | i < j < |s| :: s[i] == '#' && s[j] == NUL
  {
    RecomposeSplit(s);
    hide Split;
    var g := Split(s);
    RecomposeFromTheLeft(g);
    var front := SchemeText(g) + AuthorityText(g) + g.path + QueryText(g);
    assert s == front + FragmentText(g);
    NoHashBefore(g, front);
    if g.fragment.Some? {
      var n := |front|;
      assert s[n] == '#' && s[n + 1..] == g.fragment.value;
      if NUL in g.fragment.value {
        var k :| 0 <= k < |g.fragment.value| && g.fragment.value[k] == NUL;
        assert s[n + 1 + k] == NUL;
      }
      assert forall k | 0 <= k < n :: s[k] == front[k] && front[k] in front;
      forall i: nat, j: nat | i < j < |s| && s[i] == '#' && s[j] == NUL
        ensures NUL in g.fragment.value
      {
        assert g.fragment.value[j - n - 1] == NUL;
      }
    } else {
      assert s == front;
    }
  }

  lemma NoHashBefore(g: Groups, front: string)
    requires Valid(g) && front == SchemeText(g) + AuthorityText(g) + g.path + QueryText(g)
    ensures '#' !in front
  {
  }

  /** Each component is taken over as it stands; no path reads as "/", and no port, or port 0,
      as the scheme's default port. */
  lemma ParseExact(g: Groups, userInfo: string, host: string, port: uint16)
    requires Valid(g)
    requires IsAuthority(if g.authority.Some? then g.authority.value else "", userInfo, host, port)
    ensures Parse(Recompose(g)) ==
              var scheme := if g.scheme.Some? then g.scheme.value else "";
              var fragment := if g.fragment.Some? then g.fragment.value else "";
              if NUL in fragment then Err(NotAUri)
              else Ok(URI(scheme, userInfo, host, if port != 0 then port else DefaultPort(scheme),
                          if g.path != "" then g.path else "/",
                          if g.query.Some? then g.query.value else "", fragment))
  {
    SplitRecompose(g);
    ParseAuthorityExact(if g.authority.Some? then g.authority.value else "", userInfo, host, port);
    hide Split, Recompose, Valid, ParseAuthority, IsAuthority, DefaultPort;
  }

  lemma DefaultPorts(scheme: string)
    ensures DefaultPort(scheme) ==
            match scheme
            case "ftp" => 22
            case "gopher" => 70
            case "http" => 80
            case "https" => 443
            case "imap" => 143
            case "ldap" => 389
            case "nfs" => 2049
            case "nntp" => 119
            case "pop" => 110
            case "smtp" => 25
            case "telnet" => 23
            case "ws" => 80
            case "wss" => 443
            case _ => 0
  {
  }

  lemma BareGroups(scheme: string, host: string)
    requires scheme != "" && NoneOf(scheme, SCHEME_STOP) && NoneOf(host, AUTHORITY_STOP)
    ensures var g := Groups(Some(scheme), Some(host), "", None, None); Valid(g) && Recompose(g) == scheme + "://" + host
  {
    var rest := "//" + host + ("" + Tail(None, None));
    assert rest == "//" + host;
    assert scheme + ":" + rest == scheme + "://" + host;
  }

  /** A URI of a scheme and a host alone: the port is the scheme's, the path "/". */
  lemma BareHost(scheme: string, host: string)
    requires scheme != "" && NoneOf(scheme, SCHEME_STOP)
    requires NoneOf(host, AUTHORITY_STOP + {'@'}) && !EndsInPort(host)
    ensures Parse(scheme + "://" + host) == Ok(URI(scheme, "", host, DefaultPort(scheme), "/", "", ""))
  {
    BareGroups(scheme, host);
    assert IsAuthority(host, "", host, 0);
    hide Recompose, Parse, IsAuthority, Valid, EndsInPort, DefaultPort, NoneOf;
    ParseExact(Groups(Some(scheme), Some(host), "", None, None), "", host, 0);
  }

  /** A bracketed IPv6 address keeps its colons: what follows the last one is no port. */
  lemma BracketIsNoPort(host: string)
    requires host != "" && host[|host| - 1] == ']' && NUL !in host
    ensures !EndsInPort(host)
  {
    forall at: nat | LastColon(host, at)
      ensures !IsAnyPort(host[at + 1..])
    {
      assert forall c | c in host[at + 1..] :: c in host;
      NoPort(host[at + 1..]);
    }
  }

  lemma NoPort(text: string)
    requires text != "" ==> text[|text| - 1] == ']' && NUL !in text
    ensures !IsAnyPort(text)
  {
    if text != "" {
      CStrWhole(text);
      var digits := if text[0] == '+' || text[0] == '-' then text[1..] else text;
      assert digits[|digits| - 1] == ']' && digits[|digits| - 1] in digits;
      assert CStr(text) == text && text[0] != NUL && !IsDigit(']');
      forall n: nat
        ensures !IsPort(text, n)
      {
        var shown := CStr(text);
        assert ']' in (if text[0] == '+' || text[0] == '-' then shown[1..] else shown);
      }
    }
  }

  /** A URI the repository's own tests parse. */
  lemma LdapExample()
    ensures Parse("ldap://[2001:db8::7]/c=GB?objectClass?one")
         == Ok(URI("ldap", "", "[2001:db8::7]", 389, "/c=GB", "objectClass?one", ""))
  {
    LdapValid();
    LdapText();
    LdapAuthority();
    DefaultPorts("ldap");
    hide Recompose, Valid, Parse, IsAuthority, DefaultPort;
    ParseExact(LDAP, "", "[2001:db8::7]", 0);
  }

  const LDAP := Groups(Some("ldap"), Some("[2001:db8::7]"), "/c=GB", Some("objectClass?one"), None)

  lemma LdapValid()
    ensures Valid(LDAP)
  {
    assert NoneOf("ldap", SCHEME_STOP);
    assert NoneOf("[2001:db8::7]", AUTHORITY_STOP);
    assert NoneOf("/c=GB", PATH_STOP);
    assert NoneOf("objectClass?one", QUERY_STOP);
    hide NoneOf, Hierarchy, LooksLikeScheme;
  }

  lemma LdapHierarchy()
    ensures SchemeText(LDAP) + AuthorityText(LDAP) == "ldap://[2001:db8::7]"
  {
  }

  lemma LdapText()
    ensures Recompose(LDAP) == "ldap://[2001:db8::7]/c=GB?objectClass?one"
  {
    RecomposeFromTheLeft(LDAP);
    LdapHierarchy();
    assert QueryText(LDAP) == "?objectClass?one" && FragmentText(LDAP) == "" && LDAP.path == "/c=GB";
    hide Recompose, SchemeText, AuthorityText, QueryText, FragmentText;
    assert "ldap://[2001:db8::7]" + "/c=GB" == "ldap://[2001:db8::7]/c=GB";
    assert "ldap://[2001:db8::7]/c=GB" + "?objectClass?one" == "ldap://[2001:db8::7]/c=GB?objectClass?one";
  }

  lemma LdapAuthority()
    ensures IsAuthority("[2001:db8::7]", "", "[2001:db8::7]", 0)
  {
    BracketIsNoPort("[2001:db8::7]");
    hide EndsInPort;
  }
}
