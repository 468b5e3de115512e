/** Canonical URLs are re-read as the parts they were made of, which gives the fixed-point
    theorem and the facts URL comparison relies on. */
module UrlFixedPoint {
  import opened Wrappers
  import opened Text
  import opened Percent
  import opened DotSegments
  import opened UrlCanon

  // ---- hosts ----

  predicate BracketText(host: string) {
    |host| > 2 && host[0] == '[' && host[|host| - 1] == ']' && Ipv6Text(host[1..|host| - 1])
  }

  predicate HostText(host: string) {
    DnsText(host) || BracketText(host)
  }

  lemma LowerStays(s: string)
    requires DnsText(s)
    ensures Lower(s) == s && IsAscii(s)
  {}

  lemma HostShape(h: Hosts, raw: string)
    requires Contract(h) && CanonicalHost(h, raw).Ok?
    ensures HostText(CanonicalHost(h, raw).value)
  {
    var host := CanonicalHost(h, raw).value;
    if raw != "" && raw[0] == '[' {
      var inner := raw[1..|raw| - 1];
      assert AddressContract(h, inner);
      assert host[1..|host| - 1] == Lower(inner);
      assert Ipv6Text(Lower(inner));
    } else {
      DnsCases(h, raw);
    }
  }

  function Trimmed(raw: string): string {
    if EndsWith(raw, '.') then raw[..|raw| - 1] else raw
  }

  lemma DnsHostByTrimmed(h: Hosts, raw: string)
    requires raw != "" && !(|raw| >= 2 && raw[|raw| - 2..] == "..")
    ensures var t := Trimmed(raw);
            CanonicalDnsHost(h, raw) ==
            if t == "" then Err(MissingHost)
            else if IsAscii(t) && h.ipv4(Lower(t)) then Ok(Lower(t))
            else match h.idna(t) case None => Err(InvalidHost) case Some(e) => Ok(Lower(e))
  {}

  /** The two ways a DNS host is accepted. */
  lemma DnsCases(h: Hosts, raw: string)
    requires Contract(h) && CanonicalDnsHost(h, raw).Ok?
    ensures !EndsWith(Trimmed(raw), '.')
    ensures var host := CanonicalDnsHost(h, raw).value;
            && DnsText(host)
            && (h.ipv4(host) || h.idna(host) == Some(host))
            && (IsAscii(raw) ==> !EndsWith(host, '.'))
  {
    assert |raw| >= 2 ==> raw[|raw| - 2..] == [raw[|raw| - 2], raw[|raw| - 1]];
    assert EncoderContract(h, Trimmed(raw));
    assert AddressContract(h, Lower(Trimmed(raw)));
  }

  /** What CanonicalHost did to reach `host`: it came from the encoder, from an IPv4 literal
      or from an IPv6 literal, and each of these is stable. */
  predicate Stable(h: Hosts, host: string) {
    if DnsText(host) then (h.ipv4(host) || h.idna(host) == Some(host))
    else BracketText(host) && h.ipv6(host[1..|host| - 1]) && Lower(host) == host
  }

  lemma HostStable(h: Hosts, raw: string)
    requires Contract(h) && CanonicalHost(h, raw).Ok?
    ensures Stable(h, CanonicalHost(h, raw).value)
    ensures IsAscii(raw) ==> !EndsWith(CanonicalHost(h, raw).value, '.')
  {
    HostShape(h, raw);
    var host := CanonicalHost(h, raw).value;
    if raw != "" && raw[0] == '[' {
      var inner := raw[1..|raw| - 1];
      assert AddressContract(h, inner);
      assert host[1..|host| - 1] == Lower(inner);
      LowerIdempotent(inner);
      assert Lower(host) == host;
      assert !DnsChar(host[0]);
    } else {
      DnsCases(h, raw);
    }
  }

  /** A canonical host is canonical again exactly when it carries no root dot; with one, the
      second run drops it or fails. */
  lemma HostFixedExactly(h: Hosts, host: string)
    requires Contract(h) && HostText(host) && Stable(h, host)
    ensures CanonicalHost(h, host) == Ok(host) <==> !EndsWith(host, '.')
  {
    if DnsText(host) {
      LowerStays(host);
      assert host[0] != '[';
      if EndsWith(host, '.') {
        HostStableDns(h, host);
      } else {
        assert CanonicalDnsHost(h, host) == Ok(host) by {
          if |host| >= 2 {
            assert host[|host| - 2..][1] == host[|host| - 1];
          }
        }
      }
    } else {
      var inner := host[1..|host| - 1];
      assert Lower(inner) == inner by {
        assert forall k :: 0 <= k < |inner| ==> LowerChar(inner[k]) == Lower(host)[k + 1];
      }
      assert host == "[" + inner + "]";
    }
  }

  lemma HostStableDns(h: Hosts, host: string)
    requires Contract(h) && DnsText(host) && EndsWith(host, '.')
    ensures CanonicalHost(h, host) != Ok(host)
  {
    LowerStays(host);
    if CanonicalHost(h, host).Ok? {
      HostStable(h, host);
    }
  }

  // ---- reading a canonical URL back ----

  /** A scheme in any case. */
  predicate AnyScheme(scheme: string) {
    scheme != "" && IsAlpha(scheme[0]) && forall k :: 0 <= k < |scheme| ==> SchemeChar(scheme[k])
  }

  predicate SchemeText(scheme: string) {
    AnyScheme(scheme) && Lower(scheme) == scheme
  }

  /** The shape of canonical parts. */
  predicate Canonical(h: Hosts, r: UrlParts) {
    && SchemeText(r.scheme)
    && HostText(r.host)
    && AllDigits(h, r.port) && !DefaultPort(r.scheme, r.port)
    && Absolute(r.path) && Clean(Split(r.path)) && '?' !in r.path && '#' !in r.path
    && (r.query.Some? ==> '#' !in r.query.value)
  }

  lemma PathShape(path: string)
    requires path == "" || Absolute(path)
    requires '?' !in path && '#' !in path
    ensures Absolute(CanonicalPath(path)) && Clean(Split(CanonicalPath(path)))
    ensures '?' !in CanonicalPath(path) && '#' !in CanonicalPath(path)
  {
    if path == "" {
      SplitOne("/");
    } else {
      NormalizeAbsolute(path);
      RemoveIsFold(Normalize(path));
      DelimitersKept(path, '?');
      DelimitersKept(path, '#');
      RemoveKeepsText(Normalize(path), '?');
      RemoveKeepsText(Normalize(path), '#');
    }
  }

  lemma CutShape(remainder: string)
    requires remainder == "" || IsDelimiter(remainder[0])
    ensures var (path, query) := CutRemainder(remainder);
            && (path == "" || Absolute(path)) && '?' !in path && '#' !in path
            && (query.Some? ==> '#' !in query.value)
  {
    var i := IndexOf(remainder, '#');
    var text := remainder[..i];
    var q := IndexOf(text, '?');
    assert '#' !in text;
    assert '?' !in text[..q];
    assert forall k :: 0 <= k < q ==> text[..q][k] == remainder[k];
  }

  lemma SchemeShape(url: string)
    requires HasScheme(url)
    ensures var scheme := Lower(url[..IndexOf(url, ':')]); SchemeText(scheme)
  {
    LowerIdempotent(url[..IndexOf(url, ':')]);
  }

  lemma ParseShape(url: string)
    requires Parse(url).Ok?
    ensures var raw := Parse(url).value;
            && SchemeText(raw.scheme)
            && (raw.path == "" || Absolute(raw.path)) && '?' !in raw.path && '#' !in raw.path
            && (raw.query.Some? ==> '#' !in raw.query.value)
  {
    var text := url[IndexOf(url, ':') + 1..][2..];
    SchemeShape(url);
    CutShape(text[FirstDelimiter(text)..]);
  }

  lemma RewrittenShape(h: Hosts, raw: UrlParts)
    requires Contract(h) && Rewritten(h, raw).Ok?
    requires SchemeText(raw.scheme)
    requires (raw.path == "" || Absolute(raw.path)) && '?' !in raw.path && '#' !in raw.path
    requires raw.query.Some? ==> '#' !in raw.query.value
    ensures Canonical(h, Rewritten(h, raw).value)
    ensures Stable(h, Rewritten(h, raw).value.host)
  {
    PathShape(raw.path);
    HostShape(h, raw.host);
    HostStable(h, raw.host);
    if raw.query.Some? {
      DelimitersKept(raw.query.value, '#');
    }
  }

  lemma CanonicalShape(h: Hosts, url: string)
    requires Contract(h) && CanonicalParts(h, url).Ok?
    ensures Canonical(h, CanonicalParts(h, url).value)
    ensures Stable(h, CanonicalParts(h, url).value.host)
  {
    ParseShape(url);
    RewrittenShape(h, Parse(url).value);
  }

  lemma BracketChars(host: string)
    requires BracketText(host)
    ensures '@' !in host && ']' !in host[..|host| - 1]
    ensures host == host[..|host| - 1] + "]"
  {
    assert forall k :: 0 < k < |host| - 1 ==> host[k] == host[1..|host| - 1][k - 1];
  }

  lemma BracketRead(host: string, port: string)
    requires BracketText(host) && '@' !in port
    ensures ParseHostPort(Authority(host, port)) == Ok((host, port))
  {
    var a := Authority(host, port);
    var tail := if port != "" then ":" + port else "";
    BracketChars(host);
    assert a == host + tail;
    NotInAppend(host, tail, '@');
    AfterLastAbsent(a, '@');
    assert a[0..] == a;
    BracketSplit(host, tail);
    assert tail != "" ==> tail[1..] == port;
  }

  lemma BracketSplit(host: string, tail: string)
    requires BracketText(host)
    requires tail != "" ==> tail[0] == ':'
    ensures SplitHostPort(host + tail) == Ok((host, if tail != "" then tail[1..] else ""))
  {
    BracketChars(host);
    BracketTail(host[..|host| - 1], tail);
  }

  /** A bracketed host ends at the first "]". */
  lemma BracketTail(open: string, tail: string)
    requires open != "" && open[0] == '[' && ']' !in open
    requires tail != "" ==> tail[0] == ':'
    ensures SplitHostPort(open + "]" + tail) == Ok((open + "]", if tail != "" then tail[1..] else ""))
  {
    var a := open + ("]" + tail);
    Assoc(open, "]", tail);
    IndexOfSplit(open, "]" + tail, ']');
    assert a[..|open| + 1] == open + "]" && a[|open| + 1..] == tail;
  }

  lemma DnsRead(host: string, port: string)
    requires DnsText(host) && '@' !in port && ':' !in port
    ensures ParseHostPort(Authority(host, port)) == Ok((host, port))
  {
    var a := Authority(host, port);
    var tail := if port != "" then ":" + port else "";
    assert a == host + tail;
    assert '@' !in a;
    AfterLastAbsent(a, '@');
    assert a[0..] == a;
    CountAppend(host, tail, ':');
    CountZero(host, ':');
    CountZero(port, ':');
    assert tail != "" ==> tail[1..] == port;
    IndexOfSplit(host, tail, ':');
    assert a[..|host|] == host;
    assert tail != "" ==> a[|host| + 1..] == port;
  }

  predicate NoDelimiter(s: string) {
    forall k :: 0 <= k < |s| ==> !IsDelimiter(s[k])
  }

  lemma AuthorityHasNoDelimiter(host: string, port: string)
    requires HostText(host) && NoDelimiter(port)
    ensures NoDelimiter(Authority(host, port))
  {
    assert BracketText(host) ==> forall k :: 0 < k < |host| - 1 ==> host[k] == host[1..|host| - 1][k - 1];
    assert NoDelimiter(host);
    assert NoDelimiter(":" + port);
    assert port != "" ==> Authority(host, port) == host + (":" + port);
  }

  lemma PortText(h: Hosts, port: string)
    requires Contract(h) && AllDigits(h, port)
    ensures NoDelimiter(port) && '@' !in port && ':' !in port && '%' !in port
  {
    assert forall k :: 0 <= k < |port| ==> DigitContract(h, port[k]);
  }

  lemma AuthorityRead(h: Hosts, host: string, port: string)
    requires Contract(h) && HostText(host) && AllDigits(h, port)
    ensures ParseHostPort(Authority(host, port)) == Ok((host, port))
    ensures NoDelimiter(Authority(host, port))
  {
    PortText(h, port);
    AuthorityHasNoDelimiter(host, port);
    if BracketText(host) {
      BracketRead(host, port);
    } else {
      DnsRead(host, port);
    }
  }

  lemma DelimiterCut(a: string, b: string)
    requires NoDelimiter(a)
    requires b != "" ==> IsDelimiter(b[0])
    ensures FirstDelimiter(a + b) == |a|
  {
    assert forall k :: 0 <= k < |a| ==> (a + b)[k] == a[k];
    assert b != "" ==> (a + b)[|a|] == b[0];
  }

  lemma RemainderRead(path: string, query: Option<string>)
    requires '?' !in path && '#' !in path && (query.Some? ==> '#' !in query.value)
    ensures CutRemainder(path + QueryText(query)) == (path, query)
  {
    var q := QueryText(query);
    var t := path + q;
    assert '#' !in q;
    NotInAppend(path, q, '#');
    IndexOfAbsent(t, '#');
    assert t[..|t|] == t;
    IndexOfSplit(path, q, '?');
    assert t[..|path|] == path && t[|path|..] == q;
    if query.Some? {
      assert t[|path| + 1..] == t[|path|..][1..] && q[1..] == query.value;
    }
  }

  lemma SchemeRead(scheme: string, text: string)
    requires AnyScheme(scheme)
    ensures var url := scheme + ("://" + text);
            && HasScheme(url) && IndexOf(url, ':') == |scheme|
            && url[..|scheme|] == scheme
            && url[|scheme| + 1..] == "//" + text
            && ("//" + text)[2..] == text
  {
    var url := scheme + ("://" + text);
    IndexOfSplit(scheme, "://" + text, ':');
    assert url[..|scheme|] == scheme;
    assert forall k :: 0 <= k < |scheme| ==> url[k] == scheme[k];
  }

  lemma ParseSteps(scheme: string, auth: string, remainder: string)
    requires AnyScheme(scheme) && NoDelimiter(auth)
    requires remainder != "" ==> IsDelimiter(remainder[0])
    ensures var url := scheme + ("://" + (auth + remainder));
            Parse(url) ==
            match ParseHostPort(auth)
            case Err(e) => Err(e)
            case Ok(hp) => Ok(UrlParts(Lower(scheme), hp.0, hp.1, CutRemainder(remainder).0, CutRemainder(remainder).1))
  {
    var text := auth + remainder;
    SchemeRead(scheme, text);
    DelimiterCut(auth, remainder);
    assert text[..|auth|] == auth && text[|auth|..] == remainder;
  }

  /** Parsing undoes composing: a canonical URL splits again into the parts it was made of. */
  lemma ParseCompose(h: Hosts, r: UrlParts)
    requires Contract(h) && Canonical(h, r)
    ensures Parse(Compose(r)) == Ok(r)
  {
    var auth := Authority(r.host, r.port);
    var remainder := r.path + QueryText(r.query);
    AuthorityRead(h, r.host, r.port);
    ParseSteps(r.scheme, auth, remainder);
    RemainderRead(r.path, r.query);
  }

  // ---- the fixed point ----

  /** A dot-free path survives a second run exactly when its triplets are normal. */
  lemma PathFixedExactly(path: string)
    requires Absolute(path) && Clean(Split(path))
    ensures CanonicalPath(path) == path <==> Normal(path)
  {
    NormalizeAbsolute(path);
    NormalIsFixedPoint(path);
    RemoveFixesExactly(path);
    RemoveFixesExactly(Normalize(path));
    RemoveIsFold(Normalize(path));
  }

  lemma NoPercentIsNormal(s: string)
    requires '%' !in s
    ensures Normal(s)
  {
    forall i | 0 <= i < |s|
      ensures !Triplet(s[i..])
    {
      assert s[i..][0] == s[i];
    }
  }

  lemma PrefixHasNoPercent(h: Hosts, r: UrlParts)
    requires Contract(h) && SchemeText(r.scheme) && HostText(r.host) && AllDigits(h, r.port)
    ensures Normal(r.scheme + ("://" + Authority(r.host, r.port)))
  {
    PortText(h, r.port);
    assert BracketText(r.host) ==> r.host == "[" + r.host[1..|r.host| - 1] + "]";
    assert '%' !in r.host;
    assert '%' !in Authority(r.host, r.port);
    assert '%' !in r.scheme;
    NoPercentIsNormal(r.scheme + ("://" + Authority(r.host, r.port)));
  }

  lemma NormalRemainder(path: string, query: Option<string>)
    ensures Normal(path + QueryText(query)) <==> Normal(path) && (query.Some? ==> Normal(query.value))
  {
    NormalAppend(path, QueryText(query));
    if query.Some? {
      NormalStep(QueryText(query));
      assert QueryText(query)[1..] == query.value;
    }
  }

  lemma NormalTarget(h: Hosts, r: UrlParts)
    requires Contract(h) && Canonical(h, r)
    ensures Normal(Compose(r)) <==> Normal(r.path) && (r.query.Some? ==> Normal(r.query.value))
  {
    var auth, rest := Authority(r.host, r.port), r.path + QueryText(r.query);
    Assoc("://", auth, rest);
    Assoc(r.scheme, "://" + auth, rest);
    PrefixHasNoPercent(h, r);
    NormalAppend(r.scheme + ("://" + auth), rest);
    NormalRemainder(r.path, r.query);
  }

  /** Canonicalizing a canonical URL returns it unchanged (target, authority, scheme and host)
      exactly when its host carries no root dot and its triplets are upper case and encode
      reserved octets. */
  lemma TargetFixedExactly(h: Hosts, url: string)
    requires Contract(h) && Canonicalize(h, url).Ok?
    ensures var c := Canonicalize(h, url).value;
            Canonicalize(h, c.targetUri) == Ok(c) <==> Normal(c.targetUri) && !EndsWith(c.host, '.')
  {
    var r := CanonicalParts(h, url).value;
    var c := Canonicalize(h, url).value;
    CanonicalShape(h, url);
    ParseCompose(h, r);
    HostFixedExactly(h, r.host);
    PathFixedExactly(r.path);
    NormalTarget(h, r);
    if r.query.Some? {
      NormalIsFixedPoint(r.query.value);
    }
    if Canonicalize(h, c.targetUri) == Ok(c) {
      CanonicalShape(h, c.targetUri);
      ParseCompose(h, CanonicalParts(h, c.targetUri).value);
    }
  }

  /** The encoder is asked about the host, and its answer ends in a root dot. */
  predicate GainsRootDot(h: Hosts, raw: string) {
    var t := Trimmed(raw);
    && !(raw != "" && raw[0] == '[') && !(IsAscii(t) && h.ipv4(Lower(t)))
    && h.idna(t).Some? && EndsWith(h.idna(t).value, '.')
  }

  lemma RootDotExactly(h: Hosts, raw: string)
    requires Contract(h) && CanonicalHost(h, raw).Ok?
    ensures EndsWith(CanonicalHost(h, raw).value, '.') <==> GainsRootDot(h, raw)
  {
    HostShape(h, raw);
    if raw != "" && raw[0] == '[' {
    } else {
      DnsHostByTrimmed(h, raw);
      assert AddressContract(h, Lower(Trimmed(raw)));
    }
  }

  /** The canonical form of a path is normal exactly when every segment that survives dot
      removal settles. */
  lemma PathNormalExactly(path: string)
    requires Absolute(path)
    ensures Normal(CanonicalPath(path)) <==> forall p :: p in Survivors(path) ==> Settles(p)
  {
    RemoveNormalized(path);
    var q, ps := Remove(Normalize(path)), Survivors(path);
    SplitJoins(q);
    NormalConcat(Split(q));
    NormalizedMembers(ps);
    forall p | p in ps
      ensures Settles(p) <==> Normal(Normalize(p))
    {
      SettlesIffNormal(p);
    }
  }

  /** The parts of a URL as it was given: the encoder adds no root dot, and every stray percent
      sign of the query and of the path segments that remain settles. */
  predicate Steady(h: Hosts, raw: UrlParts) {
    && !GainsRootDot(h, raw.host)
    && (Absolute(raw.path) ==> forall p :: p in Survivors(raw.path) ==> Settles(p))
    && (raw.query.Some? ==> Settles(raw.query.value))
  }

  /** Canonicalizing a second time changes nothing exactly when the URL that was given is
      steady. */
  lemma FixedPointExactly(h: Hosts, url: string)
    requires Contract(h) && Canonicalize(h, url).Ok?
    ensures var c := Canonicalize(h, url).value;
            Canonicalize(h, c.targetUri) == Ok(c) <==> Steady(h, Parse(url).value)
  {
    var raw, r := Parse(url).value, CanonicalParts(h, url).value;
    CanonicalShape(h, url);
    ParseShape(url);
    TargetFixedExactly(h, url);
    NormalTarget(h, r);
    RootDotExactly(h, raw.host);
    if raw.path == "" {
      NoPercentIsNormal("/");
    } else {
      PathNormalExactly(raw.path);
    }
    if raw.query.Some? {
      SettlesIffNormal(raw.query.value);
    }
  }

  /** For an ASCII host and well-formed triplets canonicalization is a fixed point. */
  lemma FixedPoint(h: Hosts, url: string)
    requires Contract(h) && Canonicalize(h, url).Ok?
    requires var p := Parse(url).value;
             IsAscii(p.host) && WellFormed(p.path) && (p.query.Some? ==> WellFormed(p.query.value))
    ensures var c := Canonicalize(h, url).value; Canonicalize(h, c.targetUri) == Ok(c)
  {
    var p, r := Parse(url).value, CanonicalParts(h, url).value;
    CanonicalShape(h, url);
    HostStable(h, p.host);
    ParseShape(url);
    if p.path == "" {
      NoPercentIsNormal("/");
    } else {
      WellFormedSettles(p.path);
      SettlesIffNormal(p.path);
      NormalizeAbsolute(p.path);
      RemoveKeepsText(Normalize(p.path), '/');
    }
    if p.query.Some? {
      WellFormedSettles(p.query.value);
      SettlesIffNormal(p.query.value);
    }
    NormalTarget(h, r);
    TargetFixedExactly(h, url);
  }

  /** The query is kept byte for byte exactly when all its triplets are upper case and encode
      reserved octets. */
  lemma QueryKeptExactly(h: Hosts, url: string)
    requires CanonicalParts(h, url).Ok?
    ensures var query := Parse(url).value.query;
            CanonicalParts(h, url).value.query == query <==> (query.Some? ==> Normal(query.value))
  {
    if Parse(url).value.query.Some? {
      NormalIsFixedPoint(Parse(url).value.query.value);
    }
  }

  // ---- comparing URLs ----

  /** The target URI determines every other field, so comparing targets compares the URLs. */
  lemma TargetDetermines(h: Hosts, left: string, right: string)
    requires Contract(h) && UrlsEquivalent(h, left, right)
    ensures Canonicalize(h, left) == Canonicalize(h, right)
    ensures CanonicalParts(h, left) == CanonicalParts(h, right)
  {
    CanonicalShape(h, left);
    CanonicalShape(h, right);
    ParseCompose(h, CanonicalParts(h, left).value);
    ParseCompose(h, CanonicalParts(h, right).value);
  }

  /** The parts of two parsed URLs agree after canonicalization. */
  predicate SameParts(h: Hosts, l: UrlParts, r: UrlParts) {
    && l.scheme == r.scheme
    && CanonicalHost(h, l.host) == CanonicalHost(h, r.host)
    && (l.port == r.port
        || (l.scheme == "https" && l.port in {"", "443"} && r.port in {"", "443"})
        || (l.scheme == "http" && l.port in {"", "80"} && r.port in {"", "80"}))
    && CanonicalPath(l.path) == CanonicalPath(r.path)
    && l.query.Some? == r.query.Some?
    && (l.query.Some? ==> Normalize(l.query.value) == Normalize(r.query.value))
  }

  lemma SamePartsExactly(h: Hosts, l: UrlParts, r: UrlParts)
    requires Rewritten(h, l).Ok? && Rewritten(h, r).Ok?
    ensures Rewritten(h, l) == Rewritten(h, r) <==> SameParts(h, l, r)
  {}

  /** Two accepted URLs are equivalent exactly when their parts agree one by one: no text of
      one part can stand in for text of another. */
  lemma EquivalentExactly(h: Hosts, left: string, right: string)
    requires Contract(h) && CanonicalParts(h, left).Ok? && CanonicalParts(h, right).Ok?
    ensures UrlsEquivalent(h, left, right) <==> SameParts(h, Parse(left).value, Parse(right).value)
  {
    SamePartsExactly(h, Parse(left).value, Parse(right).value);
    if UrlsEquivalent(h, left, right) {
      TargetDetermines(h, left, right);
    }
  }

  lemma UserInfoDropped(user: string, hostport: string)
    requires '@' !in hostport
    ensures ParseHostPort(user + "@" + hostport) == ParseHostPort(hostport)
  {
    var a, n := user + "@" + hostport, |user| + 1;
    assert a[n..] == hostport && a[n - 1] == '@';
    assert forall k :: n <= k < |a| ==> a[k] == hostport[k - n];
    AfterLastUnique(a, '@', n);
    AfterLastAbsent(hostport, '@');
    assert hostport[0..] == hostport;
  }

  lemma FragmentDropped(remainder: string, fragment: string)
    requires '#' !in remainder
    ensures CutRemainder(remainder + ("#" + fragment)) == CutRemainder(remainder)
  {
    var t := remainder + ("#" + fragment);
    IndexOfSplit(remainder, "#" + fragment, '#');
    assert t[..|remainder|] == remainder;
    IndexOfAbsent(remainder, '#');
    assert remainder[..|remainder|] == remainder;
  }

  lemma ParsedAlike(h: Hosts, u: string, v: string)
    requires Parse(u) == Parse(v)
    ensures Canonicalize(h, u) == Canonicalize(h, v)
  {}

  /** Canonicalization ignores the case of the scheme, user information, and a fragment. */
  lemma DecorationIgnored(h: Hosts, scheme: string, user: string, hostport: string, remainder: string, fragment: string)
    requires AnyScheme(scheme) && NoDelimiter(user) && NoDelimiter(hostport) && '@' !in hostport
    requires '#' !in remainder && (remainder != "" ==> IsDelimiter(remainder[0]))
    ensures var plain := Lower(scheme) + ("://" + (hostport + remainder));
            var decorated := scheme + ("://" + ((user + "@" + hostport) + (remainder + ("#" + fragment))));
            Canonicalize(h, decorated) == Canonicalize(h, plain)
  {
    LowerIdempotent(scheme);
    UserInfoDropped(user, hostport);
    FragmentDropped(remainder, fragment);
    var auth, rest := user + "@" + hostport, remainder + ("#" + fragment);
    LowerKeepsScheme(scheme);
    ParseSteps(scheme, auth, rest);
    ParseSteps(Lower(scheme), hostport, remainder);
    ParsedAlike(h, scheme + ("://" + (auth + rest)), Lower(scheme) + ("://" + (hostport + remainder)));
  }

  lemma LowerKeepsScheme(scheme: string)
    requires AnyScheme(scheme)
    ensures AnyScheme(Lower(scheme))
  {}

  lemma PortsAlike(h: Hosts, u: string, v: string, r: UrlParts)
    requires Parse(u) == Ok(r) && Parse(v) == Ok(r.(port := ""))
    requires DefaultPort(r.scheme, r.port) && AllDigits(h, r.port)
    ensures Canonicalize(h, u) == Canonicalize(h, v)
  {}

  lemma PortsApart(h: Hosts, u: string, v: string, r: UrlParts)
    requires Parse(u) == Ok(r) && Parse(v) == Ok(r.(port := "")) && r.port != "" && AllDigits(h, r.port)
    requires !(r.scheme == "https" && r.port == "443") && !(r.scheme == "http" && r.port == "80")
    ensures var left, right := Canonicalize(h, u), Canonicalize(h, v);
            if right.Err? then left == right
            else
              && right.value.authority == right.value.host
              && left.Ok? && left.value.host == right.value.host && left.value.scheme == right.value.scheme
              && left.value.authority == left.value.host + ":" + r.port
  {}

  /** A host without a port may be followed by any port. */
  lemma PortAdded(hostport: string, host: string, port: string)
    requires SplitHostPort(hostport) == Ok((host, "")) && !EndsWith(hostport, ':') && ':' !in port
    ensures SplitHostPort(hostport + (":" + port)) == Ok((host, port))
  {
    var tail := ":" + port;
    assert tail[1..] == port;
    if hostport[0] == '[' {
      var close := IndexOf(hostport, ']');
      assert close == |hostport| - 1;
      assert hostport == hostport[..close] + "]" && host == hostport[..close + 1] == hostport;
      BracketTail(hostport[..close], tail);
    } else {
      var colon := IndexOf(hostport, ':');
      assert colon == |hostport| && hostport[..|hostport|] == hostport;
      assert (hostport + tail)[0] == hostport[0];
      CountZero(hostport, ':');
      CountZero(port, ':');
      CountAppend(hostport, tail, ':');
      IndexOfSplit(hostport, tail, ':');
      assert (hostport + tail)[..|hostport|] == hostport && (hostport + tail)[|hostport| + 1..] == port;
    }
  }

  lemma PortAddedToAuthority(authority: string, host: string, port: string)
    requires ParseHostPort(authority) == Ok((host, "")) && !EndsWith(authority, ':') && '@' !in port && ':' !in port
    ensures ParseHostPort(authority + (":" + port)) == Ok((host, port))
  {
    var n, a := AfterLast(authority, '@'), authority + (":" + port);
    AfterLastUnique(a, '@', n);
    assert a[n..] == authority[n..] + (":" + port);
    PortAdded(authority[n..], host, port);
  }

  lemma PortParsed(scheme: string, authority: string, host: string, port: string, remainder: string)
    requires AnyScheme(scheme) && NoDelimiter(authority + (":" + port))
    requires ParseHostPort(authority + (":" + port)) == Ok((host, port))
    requires remainder != "" ==> IsDelimiter(remainder[0])
    ensures Parse(scheme + ("://" + (authority + (":" + port) + remainder))) ==
            Ok(UrlParts(Lower(scheme), host, port, CutRemainder(remainder).0, CutRemainder(remainder).1))
  {
    ParseSteps(scheme, authority + (":" + port), remainder);
  }

  lemma ImpliedPortDigits(h: Hosts, scheme: string, port: string)
    requires Contract(h) && DefaultPort(scheme, port)
    ensures AllDigits(h, port) && NoDelimiter(port) && '@' !in port && ':' !in port
  {
    assert forall k :: 0 <= k < |port| ==> DigitContract(h, port[k]);
  }

  /** Port 443 of https and port 80 of http are ignored, in any case of the scheme and whatever
      the authority they are written after. */
  lemma ImpliedPortIgnored(h: Hosts, scheme: string, authority: string, port: string, remainder: string)
    requires Contract(h) && AnyScheme(scheme)
    requires (Lower(scheme) == "https" && port == "443") || (Lower(scheme) == "http" && port == "80")
    requires NoDelimiter(authority) && ParseHostPort(authority).Ok? && ParseHostPort(authority).value.1 == ""
    requires !EndsWith(authority, ':')
    requires remainder != "" ==> IsDelimiter(remainder[0])
    ensures Canonicalize(h, scheme + ("://" + (authority + (":" + port) + remainder))) ==
            Canonicalize(h, scheme + ("://" + (authority + remainder)))
  {
    var host, rest := ParseHostPort(authority).value.0, CutRemainder(remainder);
    ImpliedPortDigits(h, Lower(scheme), port);
    PortAddedToAuthority(authority, host, port);
    PortParsed(scheme, authority, host, port, remainder);
    ParseSteps(scheme, authority, remainder);
    PortsAlike(h, scheme + ("://" + (authority + (":" + port) + remainder)),
               scheme + ("://" + (authority + remainder)),
               UrlParts(Lower(scheme), host, port, rest.0, rest.1));
  }

  /** Any other port is kept: port 80 of https and port 443 of http too. */
  lemma OtherPortKept(h: Hosts, scheme: string, authority: string, port: string, remainder: string)
    requires Contract(h) && AnyScheme(scheme) && port != "" && forall k :: 0 <= k < |port| ==> '0' <= port[k] <= '9'
    requires !(Lower(scheme) == "https" && port == "443") && !(Lower(scheme) == "http" && port == "80")
    requires NoDelimiter(authority) && ParseHostPort(authority).Ok? && ParseHostPort(authority).value.1 == ""
    requires !EndsWith(authority, ':')
    requires remainder != "" ==> IsDelimiter(remainder[0])
    ensures var plain := Canonicalize(h, scheme + ("://" + (authority + remainder)));
            var r := Canonicalize(h, scheme + ("://" + (authority + (":" + port) + remainder)));
            if plain.Err? then r == plain
            else
              && plain.value.authority == plain.value.host
              && r.Ok? && r.value.host == plain.value.host && r.value.scheme == plain.value.scheme
              && r.value.authority == r.value.host + ":" + port
  {
    var host, rest := ParseHostPort(authority).value.0, CutRemainder(remainder);
    assert forall k :: 0 <= k < |port| ==> DigitContract(h, port[k]);
    PortText(h, port);
    assert NoDelimiter(authority + (":" + port));
    PortAddedToAuthority(authority, host, port);
    PortParsed(scheme, authority, host, port, remainder);
    ParseSteps(scheme, authority, remainder);
    PortsApart(h, scheme + ("://" + (authority + (":" + port) + remainder)),
               scheme + ("://" + (authority + remainder)),
               UrlParts(Lower(scheme), host, port, rest.0, rest.1));
  }

  /** One trailing root dot of a DNS host is ignored. */
  lemma RootDotIgnored(h: Hosts, host: string, dotted: string)
    requires host != "" && host[0] != '[' && !EndsWith(host, '.')
    requires dotted == host + ['.']
    ensures CanonicalHost(h, dotted) == CanonicalHost(h, host)
  {
    assert dotted[..|dotted| - 1] == host && dotted[0] == host[0];
    assert dotted[|dotted| - 2..][0] == host[|host| - 1];
    assert |host| >= 2 ==> host[|host| - 2..][1] == host[|host| - 1];
    DnsHostByTrimmed(h, host);
    DnsHostByTrimmed(h, dotted);
  }

  // ---- the contract can be met ----

  predicate LowerDns(s: string) {
    DnsText(s) && !EndsWith(s, '.')
  }

  /** Hosts of lower-case DNS text only, and no address literals. */
  const PLAIN := Hosts(
    s => if LowerDns(s) then Some(s) else None,
    s => false,
    s => false,
    c => '0' <= c <= '9')

  lemma ContractIsMet()
    ensures Contract(PLAIN)
  {
    forall s | LowerDns(s)
      ensures Lower(s) == s
    {
      LowerStays(s);
    }
  }

  lemma PlainUrl(path: string)
    requires IsSegment(path) && !IsDots(path) && '?' !in path && '#' !in path
    ensures Compose(UrlParts("http", "h", "", path, None)) == "http://h" + path
    ensures CanonicalParts(PLAIN, "http://h" + path) ==
            Ok(UrlParts("http", "h", "", CanonicalPath(path), None))
    ensures Canonical(PLAIN, UrlParts("http", "h", "", path, None))
  {
    ContractIsMet();
    var r := UrlParts("http", "h", "", path, None);
    SplitOne(path);
    assert path + "" == path;
    assert SchemeText("http") by {
      assert Lower("http") == "http";
    }
    assert Compose(r) == "http://h" + path;
    assert Lower("http") == "http" && Lower("h") == "h";
    ParseCompose(PLAIN, r);
    PlainHost();
    assert Rewritten(PLAIN, r) == Ok(UrlParts("http", "h", "", CanonicalPath(path), None));
  }

  lemma PlainHost()
    ensures CanonicalHost(PLAIN, "h") == Ok("h")
  {
    assert Lower("h") == "h";
  }

  lemma CanonicalSegment(path: string, again: string)
    requires Absolute(path) && Normalize(path) == again && IsSegment(again) && !IsDots(again)
    ensures CanonicalPath(path) == again
  {
    SplitOne(again);
    RemoveFixesExactly(again);
  }

  predicate PlainSegment(s: string) {
    '/' !in s && '?' !in s && '#' !in s && s != "." && s != ".."
  }

  lemma SlashSegment(s: string)
    requires PlainSegment(s)
    ensures var p := ['/'] + s;
            && IsSegment(p) && !IsDots(p) && '?' !in p && '#' !in p
            && Normalize(p) == ['/'] + Normalize(s) && (Normal(p) <==> Normal(s))
  {
    var p := ['/'] + s;
    assert p[1..] == s;
    NormalStep(p);
    NotInAppend(['/'], s, '?');
    NotInAppend(['/'], s, '#');
  }

  lemma PlainNotFixed(path: string, again: string)
    requires IsSegment(path) && !IsDots(path) && '?' !in path && '#' !in path
    requires IsSegment(again) && !IsDots(again) && '?' !in again && '#' !in again
    requires CanonicalPath(path) == again && !Normal(again)
    ensures Canonicalize(PLAIN, "http://h" + path).Ok?
    ensures Canonicalize(PLAIN, "http://h" + path).value.targetUri == "http://h" + again
    ensures Canonicalize(PLAIN, "http://h" + again) != Canonicalize(PLAIN, "http://h" + path)
  {
    ContractIsMet();
    PlainUrl(path);
    PlainUrl(again);
    TargetFixedExactly(PLAIN, "http://h" + path);
    NormalTarget(PLAIN, UrlParts("http", "h", "", again, None));
  }

  /** A URL whose canonical form is not canonical: the first run completes "%41", which the
      second run decodes. */
  lemma StrayPercentUrl(s: string, t: string)
    requires s == "%%34%31" && t == "%41"
    ensures Canonicalize(PLAIN, "http://h" + (['/'] + s)).Ok?
    ensures Canonicalize(PLAIN, "http://h" + (['/'] + s)).value.targetUri == "http://h" + (['/'] + t)
    ensures Canonicalize(PLAIN, "http://h" + (['/'] + t)) != Canonicalize(PLAIN, "http://h" + (['/'] + s))
  {
    StrayPercentCounterexample();
    SlashSegment(s);
    SlashSegment(t);
    NormalIsFixedPoint(t);
    CanonicalSegment(['/'] + s, ['/'] + t);
    PlainNotFixed(['/'] + s, ['/'] + t);
  }

  /** Hosts of DNS text, and one host whose last character the encoder maps to a dot. */
  const DOTTED := Hosts(
    s => if DnsText(s) then Some(s) else if s == "h\U{3002}" then Some("h.") else None,
    s => false,
    s => false,
    c => '0' <= c <= '9')

  lemma DottedContract()
    ensures Contract(DOTTED)
  {
    forall s | DnsText(s)
      ensures Lower(s) == s
    {
      LowerStays(s);
    }
    LowerStays("h.");
    assert "h\U{3002}"[1] == '\U{3002}';
  }

  lemma HttpScheme()
    ensures AnyScheme("http") && Lower("http") == "http"
  {
    LowerStays("http");
  }

  lemma HostParse(host: string, remainder: string)
    requires host != "" && host[0] != '[' && NoDelimiter(host) && ':' !in host && '@' !in host
    requires Absolute(remainder)
    ensures Parse("http" + ("://" + (host + remainder))) ==
            Ok(UrlParts("http", host, "", CutRemainder(remainder).0, CutRemainder(remainder).1))
  {
    HttpScheme();
    HostAlone(host);
    ParseSteps("http", host, remainder);
  }

  lemma RootRemainder()
    ensures CutRemainder("/") == ("/", None)
  {
    assert "/" + QueryText(None) == "/";
    RemainderRead("/", None);
  }

  lemma RootUrl(h: Hosts, url: string, host: string, canonical: string)
    requires Parse(url) == Ok(UrlParts("http", host, "", "/", None)) && CanonicalHost(h, host) == Ok(canonical)
    ensures Canonicalize(h, url) == Ok(CanonicalUrl("http" + ("://" + (canonical + "/")), canonical, "http", canonical))
  {
    SplitOne("/");
    assert "/" + QueryText(None) == "/";
    CanonicalSegment("/", "/");
  }

  lemma HostAlone(host: string)
    requires host != "" && host[0] != '[' && ':' !in host && '@' !in host
    ensures ParseHostPort(host) == Ok((host, ""))
  {
    AfterLastAbsent(host, '@');
    assert host[0..] == host;
    CountZero(host, ':');
    IndexOfAbsent(host, ':');
    assert host[..|host|] == host;
  }

  lemma MappedHost()
    ensures CanonicalHost(DOTTED, "h\U{3002}") == Ok("h.")
  {
    LowerStays("h.");
    assert Trimmed("h\U{3002}") == "h\U{3002}";
    DnsHostByTrimmed(DOTTED, "h\U{3002}");
  }

  lemma TrimmedHost()
    ensures CanonicalHost(DOTTED, "h.") == Ok("h")
  {
    LowerStays("h");
    assert Trimmed("h.") == "h";
    DnsHostByTrimmed(DOTTED, "h.");
  }

  /** A URL whose canonical form is not canonical because of its root dot. */
  lemma RootDotUrl()
    ensures Contract(DOTTED)
    ensures Canonicalize(DOTTED, "http" + ("://" + ("h\U{3002}" + "/"))) ==
            Ok(CanonicalUrl("http" + ("://" + ("h." + "/")), "h.", "http", "h."))
    ensures Canonicalize(DOTTED, "http" + ("://" + ("h." + "/"))) ==
            Ok(CanonicalUrl("http" + ("://" + ("h" + "/")), "h", "http", "h"))
  {
    DottedContract();
    MappedHost();
    TrimmedHost();
    RootRemainder();
    HostParse("h\U{3002}", "/");
    HostParse("h.", "/");
    RootUrl(DOTTED, "http" + ("://" + ("h\U{3002}" + "/")), "h\U{3002}", "h.");
    RootUrl(DOTTED, "http" + ("://" + ("h." + "/")), "h.", "h");
  }

  lemma QueryRemainder()
    ensures CutRemainder("/" + "?%41") == ("/", Some("%41"))
  {
    assert QueryText(Some("%41")) == "?%41";
    RemainderRead("/", Some("%41"));
  }

  lemma QueryParsed()
    ensures Parse("http" + ("://" + ("h" + ("/" + "?%41")))) == Ok(UrlParts("http", "h", "", "/", Some("%41")))
  {
    QueryRemainder();
    HostParse("h", "/" + "?%41");
  }

  lemma QuerySettles()
    ensures Normalize("%41") == "A"
  {
    assert "%41"[3..] == "";
  }

  /** A URL whose query is not kept: "?%41" becomes "?A". */
  lemma QueryRewritten()
    ensures Contract(PLAIN)
    ensures Parse("http" + ("://" + ("h" + ("/" + "?%41")))) == Ok(UrlParts("http", "h", "", "/", Some("%41")))
    ensures CanonicalParts(PLAIN, "http" + ("://" + ("h" + ("/" + "?%41")))) ==
            Ok(UrlParts("http", "h", "", "/", Some("A")))
  {
    ContractIsMet();
    QueryParsed();
    PlainHost();
    SplitOne("/");
    CanonicalSegment("/", "/");
    QuerySettles();
  }
}
