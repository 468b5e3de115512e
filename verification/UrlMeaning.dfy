/** The text of URLs and of their canonical form, spelled out: which URLs are accepted, what
    they are read as, and what comes out. */
module UrlMeaning {
  import opened Wrappers
  import opened Text
  import opened Percent
  import opened DotSegments
  import opened UrlCanon
  import opened UrlFixedPoint

  // ---- the text of a URL ----

  /** A scheme is a letter followed by letters, digits, "+", "-" and ".", and ends at a colon. */
  lemma SchemeExactly(url: string)
    ensures HasScheme(url) <==>
            exists n :: 0 < n < |url| && url[n] == ':'
              && ('a' <= url[0] <= 'z' || 'A' <= url[0] <= 'Z')
              && forall k :: 0 <= k < n ==>
                   var c := url[k];
                   'a' <= c <= 'z' || 'A' <= c <= 'Z' || '0' <= c <= '9' || c == '+' || c == '-' || c == '.'
  {
    if n :| 0 < n < |url| && url[n] == ':' && IsAlpha(url[0]) && forall k :: 0 <= k < n ==> SchemeChar(url[k]) {
      assert forall k :: 0 <= k < n ==> url[k] != ':';
      assert IndexOf(url, ':') == n;
    }
    if HasScheme(url) {
      assert url[IndexOf(url, ':')] == ':';
    }
  }

  /** A host: of several characters in brackets, or without any bracket in front and colon. */
  predicate HostForm(host: string) {
    if host != "" && host[0] == '[' then |host| >= 2 && IndexOf(host, ']') == |host| - 1
    else host != "" && ':' !in host
  }

  lemma PlainHostPort(host: string, tail: string)
    requires host != "" && host[0] != '[' && ':' !in host
    requires tail != "" ==> tail[0] == ':' && ':' !in tail[1..]
    ensures SplitHostPort(host + tail) == Ok((host, if tail != "" then tail[1..] else ""))
  {
    var a := host + tail;
    assert a[0] == host[0];
    CountAppend(host, tail, ':');
    CountZero(host, ':');
    if tail != "" {
      CountZero(tail[1..], ':');
    }
    IndexOfSplit(host, tail, ':');
    assert a[..|host|] == host;
    assert tail != "" ==> a[|host| + 1..] == tail[1..];
  }

  lemma HostPortRead(host: string, tail: string)
    requires HostForm(host) && (tail != "" ==> tail[0] == ':')
    requires host[0] != '[' && tail != "" ==> ':' !in tail[1..]
    ensures SplitHostPort(host + tail) == Ok((host, if tail != "" then tail[1..] else ""))
  {
    if host[0] == '[' {
      var open := host[..|host| - 1];
      assert host == open + "]";
      BracketTail(open, tail);
    } else {
      PlainHostPort(host, tail);
    }
  }

  lemma {:induction false} TwoColons(s: string)
    ensures Count(s, ':') > 1 <==> exists i, j :: 0 <= i < j < |s| && s[i] == ':' && s[j] == ':'
  {
    if s == "" {
    } else {
      var t := s[1..];
      TwoColons(t);
      CountZero(t, ':');
      assert forall k :: 0 <= k < |t| ==> t[k] == s[k + 1];
      if i, j :| 0 <= i < j < |s| && s[i] == ':' && s[j] == ':' {
        assert t[j - 1] == ':' && (i > 0 ==> t[i - 1] == ':');
      }
      if i, j :| 0 <= i < j < |t| && t[i] == ':' && t[j] == ':' {
        assert s[i + 1] == ':' && s[j + 1] == ':';
      }
      if s[0] == ':' && ':' in t {
        var j :| 0 <= j < |t| && t[j] == ':';
        assert s[j + 1] == ':';
      }
    }
  }

  /** How an authority without user information is read, and why one is refused. */
  lemma HostPortExactly(text: string, host: string, port: string)
    ensures SplitHostPort(text) == Ok((host, port)) <==>
            && HostForm(host) && (text == host + ":" + port || (port == "" && text == host))
            && (host[0] != '[' ==> ':' !in port)
    ensures SplitHostPort(text) == Err(MissingBracket) <==> text != "" && text[0] == '[' && ']' !in text
    ensures SplitHostPort(text) == Err(AfterBracket) <==>
            && text != "" && text[0] == '['
            && exists n :: 0 <= n < |text| - 1 && text[n] == ']' && ']' !in text[..n] && text[n + 1] != ':'
    ensures SplitHostPort(text) == Err(BareIpv6) <==>
            && text != "" && text[0] != '['
            && exists i, j :: 0 <= i < j < |text| && text[i] == ':' && text[j] == ':'
    ensures SplitHostPort(text) == Err(MissingHost) <==> text == "" || (text[0] == ':' && ':' !in text[1..])
  {
    TwoColons(text);
    AcceptedHostPort(text, host, port);
    if text != "" && text[0] == '[' {
      BracketRefused(text);
    } else if text != "" {
      PlainRefused(text);
    }
  }

  lemma AcceptedHostPort(text: string, host: string, port: string)
    ensures SplitHostPort(text) == Ok((host, port)) <==>
            && HostForm(host) && (text == host + ":" + port || (port == "" && text == host))
            && (host[0] != '[' ==> ':' !in port)
  {
    if HostForm(host) && (host[0] != '[' ==> ':' !in port) {
      assert (":" + port)[1..] == port;
      HostPortRead(host, ":" + port);
      Assoc(host, ":", port);
      HostPortRead(host, "");
      assert host + "" == host;
    }
    if SplitHostPort(text) == Ok((host, port)) {
      SplitShape(text, host, port);
    }
  }

  /** A text cut at the first `c`. */
  lemma CutAt(s: string, c: char) returns (head: string, tail: Option<string>)
    ensures head == s[..IndexOf(s, c)] && c !in head
    ensures tail == if IndexOf(s, c) < |s| then Some(s[IndexOf(s, c) + 1..]) else None
    ensures s == head + (if tail.Some? then [c] + tail.value else "")
  {
    var n := IndexOf(s, c);
    head, tail := s[..n], if n < |s| then Some(s[n + 1..]) else None;
    CutJoins(s, n);
    assert n < |s| ==> s[n..] == [c] + s[n + 1..];
  }

  lemma BracketShape(text: string, host: string, port: string)
    requires text != "" && text[0] == '[' && SplitHostPort(text) == Ok((host, port))
    ensures HostForm(host) && (text == host + ":" + port || (port == "" && text == host))
  {
    var close := IndexOf(text, ']');
    var tail := text[close + 1..];
    CutJoins(text, close + 1);
    assert forall k :: 0 <= k <= close ==> host[k] == text[k];
    assert IndexOf(host, ']') == close;
    if tail != "" {
      assert tail == ":" + port;
      Assoc(host, ":", port);
    }
  }

  lemma PlainShape(text: string, host: string, port: string)
    requires text != "" && text[0] != '[' && SplitHostPort(text) == Ok((host, port))
    ensures HostForm(host) && (text == host + ":" + port || (port == "" && text == host)) && ':' !in port
  {
    var head, tail := CutAt(text, ':');
    assert head == host && port == tail.GetOr("");
    if tail.Some? {
      Assoc(host, ":", port);
      CountAppend(host, ":" + port, ':');
      CountAppend(":", port, ':');
      CountZero(port, ':');
      assert Count(":", ':') == 1;
    }
  }

  lemma SplitShape(text: string, host: string, port: string)
    requires SplitHostPort(text) == Ok((host, port))
    ensures HostForm(host) && (text == host + ":" + port || (port == "" && text == host))
    ensures host[0] != '[' ==> ':' !in port
  {
    if text[0] == '[' {
      BracketShape(text, host, port);
    } else {
      PlainShape(text, host, port);
    }
  }

  lemma BracketRefused(text: string)
    requires text != "" && text[0] == '['
    ensures SplitHostPort(text) == Err(MissingBracket) <==> ']' !in text
    ensures SplitHostPort(text) == Err(AfterBracket) <==>
            exists n :: 0 <= n < |text| - 1 && text[n] == ']' && ']' !in text[..n] && text[n + 1] != ':'
    ensures SplitHostPort(text) != Err(BareIpv6) && SplitHostPort(text) != Err(MissingHost)
  {
    var close := IndexOf(text, ']');
    if n :| 0 <= n < |text| - 1 && text[n] == ']' && ']' !in text[..n] && text[n + 1] != ':' {
      assert forall k :: 0 <= k < n ==> text[k] == text[..n][k];
      assert close == n && text[n + 1..][0] == text[n + 1];
    }
    if close < |text| - 1 {
      assert text[close] == ']' && ']' !in text[..close] && text[close + 1..][0] == text[close + 1];
    }
  }

  lemma PlainRefused(text: string)
    requires text != "" && text[0] != '['
    ensures SplitHostPort(text) == Err(BareIpv6) <==> Count(text, ':') > 1
    ensures SplitHostPort(text) == Err(MissingHost) <==> text[0] == ':' && ':' !in text[1..]
    ensures SplitHostPort(text) != Err(MissingBracket) && SplitHostPort(text) != Err(AfterBracket)
  {
    if text[0] == ':' {
      assert text == ":" + text[1..];
      CountAppend(":", text[1..], ':');
      CountZero(text[1..], ':');
      assert Count(":", ':') == 1;
    }
  }

  lemma UserInfo(user: Option<string>, hostport: string)
    requires '@' !in hostport
    ensures ParseHostPort((if user.Some? then user.value + "@" else "") + hostport) == SplitHostPort(hostport)
  {
    AfterLastAbsent(hostport, '@');
    assert hostport[0..] == hostport && "" + hostport == hostport;
    if user.Some? {
      UserInfoDropped(user.value, hostport);
    }
  }

  /** The text behind an authority: a path, perhaps a query, perhaps a fragment. */
  lemma RemainderExactly(path: string, query: Option<string>, fragment: Option<string>)
    requires '?' !in path && '#' !in path && (query.Some? ==> '#' !in query.value)
    ensures CutRemainder(path + ((if query.Some? then "?" + query.value else "")
                                 + (if fragment.Some? then "#" + fragment.value else ""))) == (path, query)
  {
    var q := QueryText(query);
    RemainderRead(path, query);
    NotInAppend(path, q, '#');
    if fragment.Some? {
      FragmentDropped(path + q, fragment.value);
      Assoc(path, q, "#" + fragment.value);
    } else {
      assert q + "" == q;
    }
  }

  /** The text of a URL, from its parts as they are written. */
  function Written(scheme: string, user: Option<string>, host: string, port: Option<string>, path: string,
                   query: Option<string>, fragment: Option<string>): string
  {
    var authority := (if user.Some? then user.value + "@" else "")
                     + (host + (if port.Some? then ":" + port.value else ""));
    scheme + ("://" + (authority + (path + ((if query.Some? then "?" + query.value else "")
                                            + (if fragment.Some? then "#" + fragment.value else "")))))
  }

  /** Parts that can be written down and are read again. */
  predicate Writable(scheme: string, user: Option<string>, host: string, port: Option<string>, path: string,
                     query: Option<string>)
  {
    && AnyScheme(scheme)
    && (user.Some? ==> NoDelimiter(user.value))
    && HostForm(host) && NoDelimiter(host) && '@' !in host
    && (port.Some? ==> NoDelimiter(port.value) && '@' !in port.value && (host[0] != '[' ==> ':' !in port.value))
    && (path == "" || path[0] == '/') && '?' !in path && '#' !in path
    && (query.Some? ==> '#' !in query.value)
  }

  lemma AuthorityWritten(user: Option<string>, host: string, port: Option<string>)
    requires user.Some? ==> NoDelimiter(user.value)
    requires HostForm(host) && NoDelimiter(host) && '@' !in host
    requires port.Some? ==> NoDelimiter(port.value) && '@' !in port.value && (host[0] != '[' ==> ':' !in port.value)
    ensures var a := (if user.Some? then user.value + "@" else "")
                     + (host + (if port.Some? then ":" + port.value else ""));
            NoDelimiter(a) && ParseHostPort(a) == Ok((host, port.GetOr("")))
  {
    var tail := if port.Some? then ":" + port.value else "";
    assert tail != "" ==> tail[1..] == port.value;
    assert NoDelimiter(tail) && '@' !in tail;
    NotInAppend(host, tail, '@');
    UserInfo(user, host + tail);
    HostPortRead(host, tail);
    assert NoDelimiter(host + tail);
    assert user.Some? ==> NoDelimiter(user.value + "@");
  }

  /** What is written is read. */
  lemma WrittenRead(scheme: string, user: Option<string>, host: string, port: Option<string>, path: string,
                    query: Option<string>, fragment: Option<string>)
    requires Writable(scheme, user, host, port, path, query)
    ensures Parse(Written(scheme, user, host, port, path, query, fragment)) ==
            Ok(UrlParts(Lower(scheme), host, port.GetOr(""), path, query))
  {
    var authority := (if user.Some? then user.value + "@" else "")
                     + (host + (if port.Some? then ":" + port.value else ""));
    var remainder := path + ((if query.Some? then "?" + query.value else "")
                             + (if fragment.Some? then "#" + fragment.value else ""));
    AuthorityWritten(user, host, port);
    RemainderExactly(path, query, fragment);
    ParseSteps(scheme, authority, remainder);
  }

  // ---- reading is exact ----

  /** The host and port that were read, as they were written. */
  lemma HostPortShape(text: string, host: string, port: string) returns (p: Option<string>)
    requires NoDelimiter(text) && '@' !in text && SplitHostPort(text) == Ok((host, port))
    ensures text == host + (if p.Some? then ":" + p.value else "") && port == p.GetOr("")
    ensures HostForm(host) && NoDelimiter(host) && '@' !in host
    ensures p.Some? ==> NoDelimiter(p.value) && '@' !in p.value && (host[0] != '[' ==> ':' !in p.value)
  {
    SplitShape(text, host, port);
    p := if text == host then None else Some(port);
    Assoc(host, ":", port);
    assert host + "" == host;
    HostPortChars(text, host, p);
  }

  /** The user information before the last "@". */
  lemma UserShape(a: string) returns (user: Option<string>, text: string)
    requires NoDelimiter(a)
    ensures a == (if user.Some? then user.value + "@" else "") + text && (user.Some? ==> NoDelimiter(user.value))
    ensures '@' !in text && NoDelimiter(text) && ParseHostPort(a) == SplitHostPort(text)
  {
    var n := AfterLast(a, '@');
    text := a[n..];
    user := if n > 0 then Some(a[..n - 1]) else None;
    CutJoins(a, n);
    if n > 0 {
      assert a[..n] == a[..n - 1] + "@";
    }
    assert forall k :: 0 <= k < |text| ==> text[k] == a[n + k];
  }

  /** The authority that was read, as it was written. */
  lemma AuthorityShape(a: string, host: string, port: string) returns (user: Option<string>, p: Option<string>)
    requires NoDelimiter(a) && ParseHostPort(a) == Ok((host, port))
    ensures a == (if user.Some? then user.value + "@" else "") + (host + (if p.Some? then ":" + p.value else ""))
    ensures port == p.GetOr("") && (user.Some? ==> NoDelimiter(user.value))
    ensures HostForm(host) && NoDelimiter(host) && '@' !in host
    ensures p.Some? ==> NoDelimiter(p.value) && '@' !in p.value && (host[0] != '[' ==> ':' !in p.value)
  {
    var text;
    user, text := UserShape(a);
    p := HostPortShape(text, host, port);
  }

  lemma HostPortChars(text: string, host: string, port: Option<string>)
    requires text == host + (if port.Some? then ":" + port.value else "")
    requires NoDelimiter(text) && '@' !in text
    ensures NoDelimiter(host) && '@' !in host && (port.Some? ==> NoDelimiter(port.value) && '@' !in port.value)
  {
    assert forall k :: 0 <= k < |host| ==> host[k] == text[k];
    if port.Some? {
      assert forall k :: 0 <= k < |port.value| ==> port.value[k] == text[|host| + 1 + k];
    }
  }

  /** The text behind the authority, as it was written. */
  lemma RemainderShape(remainder: string) returns (path: string, query: Option<string>, fragment: Option<string>)
    requires remainder == "" || IsDelimiter(remainder[0])
    ensures CutRemainder(remainder) == (path, query)
    ensures remainder == path + ((if query.Some? then "?" + query.value else "")
                                 + (if fragment.Some? then "#" + fragment.value else ""))
    ensures (path == "" || path[0] == '/') && '?' !in path && '#' !in path && (query.Some? ==> '#' !in query.value)
  {
    CutShape(remainder);
    var text;
    text, fragment := CutAt(remainder, '#');
    path, query := CutAt(text, '?');
    Assoc(path, if query.Some? then "?" + query.value else "", if fragment.Some? then "#" + fragment.value else "");
  }

  lemma SlashesCut(url: string, n: nat)
    requires n < |url| && url[n] == ':' && "//" <= url[n + 1..]
    ensures url == url[..n] + ("://" + url[n + 1..][2..])
  {
    assert url[n + 1..] == "//" + url[n + 1..][2..];
    assert url == url[..n] + (":" + url[n + 1..]);
  }

  /** The scheme that was read, and the text behind "//". */
  lemma SchemeBefore(url: string) returns (scheme: string, text: string)
    requires Parse(url).Ok?
    ensures url == scheme + ("://" + text) && AnyScheme(scheme) && Parse(url).value.scheme == Lower(scheme)
    ensures var cut := FirstDelimiter(text);
            var r := Parse(url).value;
            ParseHostPort(text[..cut]) == Ok((r.host, r.port)) && CutRemainder(text[cut..]) == (r.path, r.query)
  {
    var colon := IndexOf(url, ':');
    scheme, text := url[..colon], url[colon + 1..][2..];
    SlashesCut(url, colon);
  }

  /** Every URL that is read was written from parts like these, so reading undoes writing and
      reads nothing else. */
  lemma ReadWritten(url: string)
    returns (scheme: string, user: Option<string>, port: Option<string>, fragment: Option<string>)
    requires Parse(url).Ok?
    ensures var r := Parse(url).value;
            && Writable(scheme, user, r.host, port, r.path, r.query)
            && url == Written(scheme, user, r.host, port, r.path, r.query, fragment)
            && r.scheme == Lower(scheme) && r.port == port.GetOr("")
  {
    var text;
    scheme, text := SchemeBefore(url);
    var cut := FirstDelimiter(text);
    var r := Parse(url).value;
    user, port := AuthorityShape(text[..cut], r.host, r.port);
    var path, query;
    path, query, fragment := RemainderShape(text[cut..]);
    CutJoins(text, cut);
  }

  lemma SplitHostPortErrors(authority: string)
    ensures ParseHostPort(authority) != Err(NoScheme) && ParseHostPort(authority) != Err(NoAuthority)
  {}

  /** A URL is refused for the lack of a scheme exactly when it has none, and for the lack of an
      authority exactly when no "//" follows its scheme. */
  lemma UnreadExactly(url: string)
    ensures Parse(url) == Err(NoScheme) <==> !HasScheme(url)
    ensures Parse(url) == Err(NoAuthority) <==> HasScheme(url) && !("//" <= url[IndexOf(url, ':') + 1..])
  {
    if HasScheme(url) {
      var rest := url[IndexOf(url, ':') + 1..];
      if "//" <= rest {
        SplitHostPortErrors(rest[2..][..FirstDelimiter(rest[2..])]);
      }
    }
  }

  // ---- what comes out ----

  /** A host of brackets holds an IPv6 address without a zone. */
  lemma BracketHostExactly(h: Hosts, inner: string)
    ensures CanonicalHost(h, "[" + inner + "]") ==
            if '%' in inner then Err(ZoneId)
            else if h.ipv6(inner) then Ok("[" + Lower(inner) + "]")
            else Err(InvalidIpv6)
  {
    var host := "[" + inner + "]";
    assert host[1..|host| - 1] == inner;
  }

  /** Any other host, with or without one root dot, is an IPv4 address or goes to the encoder. */
  lemma DnsHostExactly(h: Hosts, host: string)
    requires host != "" && host[0] != '[' && host[|host| - 1] != '.'
    ensures CanonicalHost(h, host + ".") == CanonicalHost(h, host) ==
            if (forall k :: 0 <= k < |host| ==> host[k] as int < 128) && h.ipv4(Lower(host)) then Ok(Lower(host))
            else if h.idna(host).Some? then Ok(Lower(h.idna(host).value))
            else Err(InvalidHost)
  {
    RootDotIgnored(h, host, host + ".");
    assert |host| >= 2 ==> host[|host| - 2..][1] == host[|host| - 1];
    DnsHostByTrimmed(h, host);
  }

  /** Two dots at the end are refused, and so is nothing but a root dot. */
  lemma DotsRefused(h: Hosts, host: string)
    ensures host == "" || host[0] != '[' ==> CanonicalHost(h, host + "..") == Err(EmptyLabel)
    ensures CanonicalHost(h, "") == CanonicalHost(h, ".") == Err(MissingHost)
  {
    var dotted := host + "..";
    assert dotted[|dotted| - 2..] == "..";
  }

  /** What canonicalization makes of a URL, part by part: the scheme in lower case; no user
      information and no fragment; the canonical host; a port of digits, unless it is 443 of
      https or 80 of http; the normalized path without dot segments, or a slash; and the
      normalized query. */
  lemma CanonicalText(h: Hosts, scheme: string, user: Option<string>, host: string, port: Option<string>,
                      path: string, query: Option<string>, fragment: Option<string>)
    requires Writable(scheme, user, host, port, path, query)
    ensures var r := Canonicalize(h, Written(scheme, user, host, port, path, query, fragment));
            var s, digits := Lower(scheme), port.GetOr("");
            match CanonicalHost(h, host)
            case Err(e) => r == Err(e)
            case Ok(canonical) =>
              if exists k :: 0 <= k < |digits| && !h.digit(digits[k]) then r == Err(InvalidPort)
              else
                var implied := digits == "" || (s == "https" && digits == "443") || (s == "http" && digits == "80");
                var authority := canonical + (if implied then "" else ":" + digits);
                r == Ok(CanonicalUrl(
                  s + ("://" + (authority + ((if path == "" then "/" else Remove(Normalize(path)))
                                             + (if query.Some? then "?" + Normalize(query.value) else "")))),
                  authority, s, canonical))
  {
    WrittenRead(scheme, user, host, port, path, query, fragment);
    if path != "" {
      NormalizeAbsolute(path);
      RemoveIsFold(Normalize(path));
    }
    var raw := UrlParts(Lower(scheme), host, port.GetOr(""), path, query);
    RewrittenText(h, raw);
  }

  lemma RewrittenText(h: Hosts, raw: UrlParts)
    requires raw.path != "" ==> Remove(Normalize(raw.path)) != ""
    ensures match CanonicalHost(h, raw.host)
            case Err(e) => Rewritten(h, raw) == Err(e)
            case Ok(host) =>
              if exists k :: 0 <= k < |raw.port| && !h.digit(raw.port[k]) then Rewritten(h, raw) == Err(InvalidPort)
              else
                && Rewritten(h, raw).Ok?
                && var r := Rewritten(h, raw).value;
                   && r.scheme == raw.scheme && r.host == host
                   && r.path == (if raw.path == "" then "/" else Remove(Normalize(raw.path)))
                   && r.query == (if raw.query.Some? then Some(Normalize(raw.query.value)) else None)
                   && r.port == (if (raw.scheme == "https" && raw.port == "443")
                                    || (raw.scheme == "http" && raw.port == "80") then "" else raw.port)
                   && Authority(r.host, r.port) == host + (if r.port == "" then "" else ":" + r.port)
  {
    if Rewritten(h, raw).Ok? {
      var r := Rewritten(h, raw).value;
      Assoc(r.host, ":", r.port);
      assert r.host + "" == r.host;
    }
  }

  /** A URL that cannot be read is refused for the reason it cannot be read. */
  lemma UnreadRefused(h: Hosts, url: string)
    requires Parse(url).Err?
    ensures Canonicalize(h, url) == Err(Parse(url).error)
  {}
}
