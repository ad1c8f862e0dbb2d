/** Host extraction from a URL by string splitting, against URLs printed in the form of section 3.2 of RFC 3986. */
module HostParser {
  import opened Basics

  // ----- String splitting -----

  /** The first place where c occurs, or the length. */
  function Find(s: string, c: char): (i: nat)
    ensures i <= |s| && c !in s[..i] && (i < |s| ==> s[i] == c)
  {
    if s == "" || s[0] == c then 0 else
      var i := 1 + Find(s[1..], c);
      assert s[..i] == [s[0]] + s[1..][..i - 1];
      i
  }

  /** The last place where c occurs, or the length. */
  function FindLast(s: string, c: char): (i: nat)
    ensures i <= |s| && (i < |s| ==> s[i] == c && c !in s[i + 1..]) && (i == |s| ==> c !in s)
  {
    if s == "" then 0
    else if s[|s| - 1] == c then |s| - 1
    else
      var n := |s| - 1;
      var i := FindLast(s[..n], c);
      assert s == s[..n] + [s[n]];
      if i == n then |s| else
        assert s[i + 1..] == s[..n][i + 1..] + [s[n]];
        i
  }

  /** What comes before the first c. */
  function Before(s: string, c: char): string {
    s[..Find(s, c)]
  }

  /** The first place where "://" occurs, if it does. */
  function FindScheme(s: string): (r: Option<nat>)
    ensures r.Some? ==> r.value + 3 <= |s| && s[r.value..r.value + 3] == "://"
  {
    if |s| < 3 then None
    else if s[..3] == "://" then Some(0)
    else match FindScheme(s[1..])
      case Some(i) => Some(i + 1)
      case None => None
  }

  /** What is left of a URL after its scheme, without path, query and fragment. */
  function AuthorityOf(rest: string): string {
    Before(Before(Before(rest, '/'), '?'), '#')
  }

  /** What follows the last at-sign, or everything. */
  function AfterUserinfo(authority: string): string {
    var at := FindLast(authority, '@');
    if at < |authority| then authority[at + 1..] else authority
  }

  /** Host text from what follows the userinfo. */
  function HostOf(hostPort: string): Option<string> {
    if hostPort == "" then None
    else if hostPort[0] == '[' then
      var end := Find(hostPort, ']');
      if end < |hostPort| then Some(hostPort[1..end]) else None
    else
      Some(hostPort[..FindLast(hostPort, ':')])
  }

  /** The host of a URL, without port, userinfo or brackets. */
  function ExtractHost(url: string): Option<string> {
    match FindScheme(url)
    case None => None
    case Some(i) =>
      HostOf(AfterUserinfo(AuthorityOf(url[i + 3..])))
  }

  // ----- Texts that are refused -----

  /** A text without "://" has no host. */
  lemma NoScheme(url: string)
    requires forall a, b :: url != a + "://" + b
    ensures ExtractHost(url).None?
  {
    var i := FindScheme(url);
    if i.Some? {
      assert url == url[..i.value] + "://" + url[i.value + 3..];
    }
  }

  /** A bracket that is never closed has no host. */
  lemma UnclosedBracket(hostPort: string)
    requires hostPort != "" && hostPort[0] == '[' && ']' !in hostPort
    ensures HostOf(hostPort).None?
  {
  }

  // ----- Printed URLs -----

  /** A host: a name or IPv4 address, or an IPv6 address to be bracketed. */
  datatype Host = Name(text: string) | Ipv6(text: string)

  datatype Url = Url(scheme: string, userinfo: Option<string>, host: Host, port: Option<string>, suffix: string)

  predicate NoneOf(s: string, cs: string) {
    forall i :: 0 <= i < |s| ==> s[i] !in cs
  }

  /** The parts are what the grammar allows, and more: userinfo may hold colons and at-signs. */
  predicate WellFormed(u: Url) {
    && NoneOf(u.scheme, ":")
    && (u.userinfo.Some? ==> NoneOf(u.userinfo.value, "/?#"))
    && NoneOf(u.host.text, "/?#@")
    && (u.host.Name? ==> NoneOf(u.host.text, ":[]"))
    && (u.host.Ipv6? ==> NoneOf(u.host.text, "[]"))
    && (u.port.Some? ==> NoneOf(u.port.value, "/?#@:"))
    && (u.suffix == "" || u.suffix[0] in "/?#")
  }

  function HostPort(u: Url): string {
    (match u.host case Name(t) => t case Ipv6(t) => "[" + t + "]") +
    (match u.port case Some(p) => ":" + p case None => "")
  }

  function Authority(u: Url): string {
    (match u.userinfo case Some(i) => i + "@" case None => "") + HostPort(u)
  }

  function Print(u: Url): string {
    u.scheme + "://" + Authority(u) + u.suffix
  }

  // ----- The parser undoes the printer -----

  lemma {:induction false} SchemeFound(scheme: string, rest: string)
    requires NoneOf(scheme, ":")
    ensures FindScheme(scheme + "://" + rest) == Some(|scheme|)
  {
    var s := scheme + "://" + rest;
    if scheme == "" {
      assert s[..3] == "://";
    } else {
      assert scheme[0] !in ":";
      assert s[..3][0] == scheme[0];
      assert s[1..] == scheme[1..] + "://" + rest;
      SchemeFound(scheme[1..], rest);
    }
  }

  /** A piece without c, cut at the first c of what follows. */
  lemma {:induction false} FindAfter(a: string, b: string, c: char)
    requires c !in a
    ensures Find(a + b, c) == |a| + Find(b, c)
  {
    if a == "" {
      assert a + b == b;
    } else {
      assert (a + b)[1..] == a[1..] + b;
      FindAfter(a[1..], b, c);
    }
  }

  lemma BeforeAppended(a: string, b: string, c: char)
    requires c !in a
    ensures Before(a + b, c) == a + Before(b, c)
  {
    FindAfter(a, b, c);
  }

  /** Cutting at '/', '?' and '#' in turn removes exactly the suffix. */
  lemma SuffixRemoved(a: string, suffix: string)
    requires NoneOf(a, "/?#") && (suffix == "" || suffix[0] in "/?#")
    ensures AuthorityOf(a + suffix) == a
  {
    assert '/' !in a && '?' !in a && '#' !in a;
    BeforeAppended(a, suffix, '/');
    var s1 := Before(suffix, '/');
    BeforeAppended(a, s1, '?');
    var s2 := Before(s1, '?');
    BeforeAppended(a, s2, '#');
    var s3 := Before(s2, '#');
    if suffix != "" {
      if suffix[0] == '/' {
        assert s1 == "";
      } else {
        assert s1 != "" ==> s1[0] == suffix[0];
        assert suffix[0] == '?' ==> s2 == "";
      }
    }
    assert s3 == "";
    assert a + "" == a;
  }

  /** A text that ends in a piece without c, cut at the c before that piece. */
  lemma {:induction false} LastAfter(a: string, c: char, b: string)
    requires c !in b
    ensures FindLast(a + [c] + b, c) == |a|
  {
    var s := a + [c] + b;
    if b != "" {
      var n := |b| - 1;
      assert b[n] != c;
      assert s[|s| - 1] == b[n];
      assert s[..|s| - 1] == a + [c] + b[..n];
      LastAfter(a, c, b[..n]);
    }
  }

  /** The userinfo, with all its own at-signs, is cut off. */
  lemma UserinfoRemoved(u: Url)
    requires WellFormed(u)
    ensures AfterUserinfo(Authority(u)) == HostPort(u)
  {
    assert '@' !in HostPort(u);
    match u.userinfo
    case Some(i) =>
      assert Authority(u) == i + ['@'] + HostPort(u);
      LastAfter(i, '@', HostPort(u));
    case None =>
      assert Authority(u) == HostPort(u);
  }

  lemma BracketedHost(t: string, port: string)
    requires ']' !in t
    ensures HostOf("[" + t + "]" + port) == Some(t)
  {
    var s := "[" + t + "]" + port;
    var tail := "]" + port;
    assert s == ("[" + t) + tail;
    FindAfter("[" + t, tail, ']');
    assert tail[0] == ']';
    assert s[1..|t| + 1] == t;
  }

  lemma NamedHost(t: string, port: Option<string>)
    requires NoneOf(t, ":[]") && (port.Some? ==> ':' !in port.value)
    requires t != "" || port.Some?
    ensures HostOf(t + (match port case Some(p) => ":" + p case None => "")) == Some(t)
  {
    match port
    case Some(p) =>
      var s := t + [':'] + p;
      assert t + (":" + p) == s;
      LastAfter(t, ':', p);
      assert s[0] == (if t == "" then ':' else t[0]);
      assert s[..|t|] == t;
    case None =>
      assert t + "" == t;
      assert t[0] !in ":[]";
      assert ':' !in t;
  }

  lemma NoneOfConcat(a: string, b: string, cs: string)
    requires NoneOf(a, cs) && NoneOf(b, cs)
    ensures NoneOf(a + b, cs)
  {
  }

  lemma AuthorityClean(u: Url)
    requires WellFormed(u)
    ensures NoneOf(Authority(u), "/?#")
  {
    var host := match u.host case Name(t) => t case Ipv6(t) => "[" + t + "]";
    var port := match u.port case Some(p) => ":" + p case None => "";
    var user := match u.userinfo case Some(i) => i + "@" case None => "";
    assert NoneOf(host, "/?#");
    assert NoneOf(port, "/?#");
    NoneOfConcat(host, port, "/?#");
    assert NoneOf(user, "/?#");
    NoneOfConcat(user, HostPort(u), "/?#");
  }

  lemma HostPortParsed(u: Url)
    requires WellFormed(u)
    ensures HostOf(HostPort(u)) == if HostPort(u) == "" then None else Some(u.host.text)
    ensures HostPort(u) == "" <==> u.host == Name("") && u.port.None?
  {
    match u.host
    case Ipv6(t) =>
      BracketedHost(t, match u.port case Some(p) => ":" + p case None => "");
    case Name(t) =>
      if t != "" || u.port.Some? {
        NamedHost(t, u.port);
      }
  }

  lemma AfterScheme(scheme: string, rest: string)
    requires NoneOf(scheme, ":")
    ensures ExtractHost(scheme + "://" + rest) == HostOf(AfterUserinfo(AuthorityOf(rest)))
  {
    var url := scheme + "://" + rest;
    SchemeFound(scheme, rest);
    assert url[|scheme| + 3..] == rest;
  }

  /** A URL with neither host nor port is refused; from every other printed URL the parser returns exactly the host. */
  lemma HostRecovered(u: Url)
    requires WellFormed(u)
    ensures ExtractHost(Print(u)) == if u.host == Name("") && u.port.None? then None else Some(u.host.text)
  {
    var a := Authority(u);
    assert Print(u) == u.scheme + "://" + (a + u.suffix);
    AfterScheme(u.scheme, a + u.suffix);
    AuthorityClean(u);
    SuffixRemoved(a, u.suffix);
    UserinfoRemoved(u);
    HostPortParsed(u);
  }

  /** Userinfo, port, path, query and fragment never change which host a URL is checked against. */
  lemma OnlyTheHostMatters(u: Url, v: Url)
    requires WellFormed(u) && WellFormed(v) && HostPort(u) != "" && HostPort(v) != ""
    ensures ExtractHost(Print(u)) == ExtractHost(Print(v)) <==> u.host.text == v.host.text
  {
    HostRecovered(u);
    HostRecovered(v);
  }
}
