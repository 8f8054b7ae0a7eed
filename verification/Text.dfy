/** Character runs, C strings and decimal numbers, as the URI code uses them. */
module Text {
  import opened Basics

  const NUL: char := '\0'
  const SPACES: set<char> := {' ', '\t', '\n', '\U{000B}', '\U{000C}', '\r'}
  const ULONG_MAX: nat := 0xFFFF_FFFF_FFFF_FFFF

  predicate NoneOf(s: string, stop: set<char>) {
    forall c | c in s :: c !in stop
  }

  /** The longest run without a character of `stop`. */
  function Span(s: string, stop: set<char>): (n: nat)
    ensures n <= |s| && NoneOf(s[..n], stop) && (n < |s| ==> s[n] in stop)
  {
    if s == "" || s[0] in stop then 0
    else
      var n := Span(s[1..], stop);
      assert s[..1 + n] == [s[0]] + s[1..][..n];
      1 + n
  }

  lemma SpanIs(s: string, stop: set<char>, n: nat)
    requires n <= |s| && NoneOf(s[..n], stop) && (n < |s| ==> s[n] in stop)
    ensures Span(s, stop) == n
  {
    var m := Span(s, stop);
    assert forall i | 0 <= i < n :: s[..n][i] == s[i];
    assert forall i | 0 <= i < m :: s[..m][i] == s[i];
  }

  lemma SpanConcat(a: string, b: string, stop: set<char>)
    requires NoneOf(a, stop) && (b == "" || b[0] in stop)
    ensures Span(a + b, stop) == |a|
  {
    assert (a + b)[..|a|] == a;
    SpanIs(a + b, stop, |a|);
  }

  /** What c_str() shows of a std::string: everything before the first NUL. */
  function CStr(s: string): string {
    s[..Span(s, {NUL})]
  }

  lemma CStrWhole(s: string)
    ensures CStr(s) == s <==> NUL !in s
    ensures NoneOf(CStr(s), {NUL})
    ensures CStr(s) <= s && (|CStr(s)| < |s| ==> s[|CStr(s)|] == NUL)
    ensures forall stop | NoneOf(s, stop) :: NoneOf(CStr(s), stop)
  {
    if NUL !in s {
      assert s[..|s|] == s;
      SpanIs(s, {NUL}, |s|);
    }
    assert forall c | c in CStr(s) :: c in s;
  }

  /** std::string::rfind of one character. */
  function FindLast(s: string, c: char): (position: Option<nat>)
    ensures position.Some? ==> position.value < |s| && s[position.value] == c && c !in s[position.value + 1..]
    ensures position.None? ==> c !in s
  {
    if s == "" then None
    else if s[|s| - 1] == c then Some(|s| - 1)
    else
      var n := |s| - 1;
      var position := FindLast(s[..n], c);
      assert s == s[..n] + [s[n]];
      assert position.Some? ==> s[position.value + 1..] == s[..n][position.value + 1..] + [s[n]];
      position
  }

  lemma OccursAfter(s: string, n: nat, m: nat)
    requires n < m < |s|
    ensures s[m] in s[n + 1..]
  {
    assert s[n + 1..][m - n - 1] == s[m];
  }

  lemma LiesInTail(a: string, c: char, b: string, n: nat)
    requires |a| < n < |a| + 1 + |b|
    ensures (a + [c] + b)[n] in b
  {
    assert (a + [c] + b)[n] == b[n - |a| - 1];
  }

  lemma FindLastIs(a: string, c: char, b: string)
    requires c !in b
    ensures FindLast(a + [c] + b, c) == Some(|a|)
  {
    hide FindLast;
    var s := a + [c] + b;
    assert s[|a|] == c && c in s;
    var n := FindLast(s, c).value;
    forall m: nat | n < m < |s|
      ensures s[m] in s[n + 1..]
    {
      OccursAfter(s, n, m);
    }
    forall m: nat | |a| < m < |s|
      ensures s[m] in b
    {
      LiesInTail(a, c, b, m);
    }
  }

  // ---- Decimal numbers ----

  predicate IsDigit(c: char) {
    '0' <= c <= '9'
  }

  function DigitChar(d: nat): (c: char)
    requires d < 10
    ensures IsDigit(c) && c as int - '0' as int == d
  {
    ('0' as int + d) as char
  }

  /** What printf's %u writes. */
  function Decimal(n: nat): (s: string)
    ensures s != "" && forall c | c in s :: IsDigit(c)
    ensures n != 0 ==> s[0] != '0'
  {
    if n < 10 then [DigitChar(n)] else Decimal(n / 10) + [DigitChar(n % 10)]
  }

  function DecimalValue(s: string): nat
    requires forall c | c in s :: IsDigit(c)
  {
    if s == "" then 0
    else
      assert IsDigit(s[|s| - 1]);
      DecimalValue(s[..|s| - 1]) * 10 + (s[|s| - 1] as int - '0' as int)
  }

  function Pow10(n: nat): nat {
    if n == 0 then 1 else 10 * Pow10(n - 1)
  }

  /** The first digit counts for as many tens as digits follow it. */
  lemma {:induction false} DecimalIsPositional(c: char, s: string)
    requires IsDigit(c) && forall d | d in s :: IsDigit(d)
    ensures DecimalValue([c] + s) == (c as int - '0' as int) * Pow10(|s|) + DecimalValue(s)
  {
    var d := c as int - '0' as int;
    if s == "" {
      assert ([c] + s)[..0] == "" && Pow10(0) == 1;
    } else {
      var n := |s| - 1;
      DecimalIsPositional(c, s[..n]);
      assert ([c] + s)[..n + 1] == [c] + s[..n];
      assert Pow10(n + 1) == 10 * Pow10(n);
      hide Pow10;
      TenTimes(d, Pow10(n));
    }
  }

  lemma TenTimes(d: nat, p: nat)
    ensures d * (10 * p) == (d * p) * 10
  {
  }

  lemma {:induction false} DecimalRoundTrip(n: nat)
    ensures DecimalValue(Decimal(n)) == n
  {
    if n < 10 {
      assert Decimal(n)[..0] == "";
    } else {
      DecimalRoundTrip(n / 10);
      assert Decimal(n)[..|Decimal(n)| - 1] == Decimal(n / 10);
    }
  }

  function DigitRun(s: string): (n: nat)
    ensures n <= |s| && (forall c | c in s[..n] :: IsDigit(c)) && (n < |s| ==> !IsDigit(s[n]))
  {
    if s == "" || !IsDigit(s[0]) then 0
    else
      var n := DigitRun(s[1..]);
      assert s[..1 + n] == [s[0]] + s[1..][..n];
      1 + n
  }

  /** strtoul in base 10 on a C string that does not start with a space: the number and
      where parsing stopped.  A sign is taken; a negative number wraps around; too large a
      number saturates; without digits nothing is consumed. */
  function StrToUl(t: string): (result: (nat, nat))
    ensures result.1 <= |t|
  {
    var start := if t != "" && (t[0] == '+' || t[0] == '-') then 1 else 0;
    var n := DigitRun(t[start..]);
    if n == 0 then (0, 0)
    else
      var value := DecimalValue(t[start..][..n]);
      var number := if value > ULONG_MAX then ULONG_MAX
                    else if t[0] == '-' then (ULONG_MAX + 1 - value) % (ULONG_MAX + 1)
                    else value;
      (number, start + n)
  }

  /** stoui16 in base 10, the non-throwing form. */
  function StoUi16(s: string): (r: Option<nat>)
    ensures r.Some? ==> r.value < 65536
  {
    if s == "" || s[0] in SPACES then None
    else
      var (number, end) := StrToUl(CStr(s));
      if end != |CStr(s)| || number > 65535 then None else Some(number)
  }

  /** `text` reads as the port `n`: up to its first NUL it is at most one sign and at least
      one digit, and nothing else, with that value, or after a minus sign with the value
      2^64 - n; a text that starts with a NUL reads as 0. */
  ghost predicate IsPort(text: string, n: nat) {
    n < 65536 && text != ""
    && if text[0] == NUL then n == 0
       else
         var shown := CStr(text);
         var digits := if text[0] == '+' || text[0] == '-' then shown[1..] else shown;
         && digits != "" && (forall c | c in digits :: IsDigit(c))
         && var value := DecimalValue(digits);
            if text[0] != '-' then value == n
            else value <= ULONG_MAX && (n + value == 0 || n + value == ULONG_MAX + 1)
  }

  // Without a NUL in front, stopping at the end means one sign at most and only digits.
  lemma StrToUlEnds(t: string, signed: nat)
    requires t != "" && signed == if t[0] == '+' || t[0] == '-' then 1 else 0
    ensures StrToUl(t).1 == |t| <==> signed < |t| && forall c | c in t[signed..] :: IsDigit(c)
    ensures StrToUl(t).1 == |t| ==>
              var value := DecimalValue(t[signed..]);
              StrToUl(t).0 == if value > ULONG_MAX then ULONG_MAX
                              else if t[0] != '-' then value
                              else if value == 0 then 0 else ULONG_MAX + 1 - value
  {
    var digits := t[signed..];
    var n := DigitRun(digits);
    assert digits[..|digits|] == digits;
    if forall c | c in digits :: IsDigit(c) {
      AllDigits(digits);
    }
    hide DigitRun, DecimalValue;
  }

  /** Which texts stoui16 takes for a port, and for which one; it refuses every other. */
  lemma StoUi16Exact(text: string, n: nat)
    ensures StoUi16(text) == Some(n) <==> IsPort(text, n)
  {
    hide StrToUl, DecimalValue, CStr;
    CStrWhole(text);
    var t := CStr(text);
    if t == "" {
      NothingShown();
    } else {
      assert text[0] == t[0] && t[0..] == t && (text[0] in SPACES ==> !IsDigit(text[0]));
      StrToUlEnds(t, if t[0] == '+' || t[0] == '-' then 1 else 0);
      assert text[0] in SPACES ==> t[0] in t;
    }
  }

  lemma NothingShown()
    ensures StrToUl("") == (0, 0)
  {
  }

  lemma StrToUlOfDigits(s: string)
    requires s != "" && (forall c | c in s :: IsDigit(c)) && DecimalValue(s) <= ULONG_MAX
    ensures StrToUl(s) == (DecimalValue(s), |s|)
  {
    hide DigitRun, DecimalValue;
    AllDigits(s);
    assert s[0] in s && s[0..] == s && s[..|s|] == s;
  }

  /** A printed port reads back. */
  lemma StoUi16OfDecimal(n: nat)
    requires n < 65536
    ensures StoUi16(Decimal(n)) == Some(n)
  {
    var s := Decimal(n);
    assert s[0] in s && NUL !in s;
    CStrWhole(s);
    DecimalRoundTrip(n);
    StrToUlOfDigits(s);
  }

  // Digits after a minus sign, read by strtoul.
  lemma NegativeWraps(digits: string)
    requires digits != "" && (forall c | c in digits :: IsDigit(c)) && 0 < DecimalValue(digits) <= ULONG_MAX
    ensures StrToUl("-" + digits) == (ULONG_MAX + 1 - DecimalValue(digits), |digits| + 1)
  {
    hide DigitRun, DecimalValue;
    AllDigits(digits);
    assert ("-" + digits)[1..] == digits && digits[..|digits|] == digits;
  }

  lemma AllDigits(digits: string)
    requires forall c | c in digits :: IsDigit(c)
    ensures DigitRun(digits) == |digits|
  {
    assert forall i | 0 <= i < |digits| :: digits[i] in digits;
  }

  /** A sign is part of what reads as a port, and a negative number wraps around: every port
      but zero is also the reading of a minus sign and 2^64 less the port. */
  lemma NegativeReadsAsPort(port: nat)
    requires 0 < port < 65536
    ensures StoUi16("-" + Decimal(ULONG_MAX + 1 - port)) == Some(port)
  {
    hide Decimal, DecimalValue, StrToUl, CStr;
    var digits := Decimal(ULONG_MAX + 1 - port);
    DecimalRoundTrip(ULONG_MAX + 1 - port);
    NegativeWraps(digits);
    CStrWhole("-" + digits);
  }
}
