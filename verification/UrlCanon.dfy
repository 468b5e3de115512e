/** URL canonicalization: one algorithm for every place where URLs are compared. */
module UrlCanon {
  import opened Wrappers
  import opened Text
  import opened Percent
  import opened DotSegments

  datatype UrlError =
    | NoScheme
    | NoAuthority
    | MissingHost
    | MissingBracket
    | AfterBracket
    | BareIpv6
    | EmptyLabel
    | InvalidHost
    | ZoneId
    | InvalidIpv6
    | InvalidPort

  datatype CanonicalUrl = CanonicalUrl(targetUri: string, authority: string, scheme: string, host: string)

  /** The library calls host and port handling depends on: `idna.encode`, the two address
      parsers of `ipaddress`, and the digit test of `str.isdigit`. */
  datatype Hosts = Hosts(
    idna: string -> Option<string>,
    ipv4: string -> bool,
    ipv6: string -> bool,
    digit: char -> bool)

  predicate DnsChar(c: char) {
    'a' <= c <= 'z' || '0' <= c <= '9' || c == '-' || c == '.'
  }

  predicate DnsText(s: string) {
    s != "" && forall k :: 0 <= k < |s| ==> DnsChar(s[k])
  }

  predicate Ipv6Text(s: string) {
    s != "" && forall k :: 0 <= k < |s| ==> IsHex(s[k]) || s[k] == ':' || s[k] == '.'
  }

  /** Encoding yields lower-case letters, digits, hyphens and dots once lower-cased, and
      encoding its own output changes nothing; ASCII input without a trailing dot gains
      none. */
  predicate EncoderContract(h: Hosts, s: string) {
    h.idna(s).Some? ==>
      var encoded := Lower(h.idna(s).value);
      && DnsText(encoded)
      && h.idna(encoded) == Some(encoded)
      && (IsAscii(s) && !EndsWith(s, '.') ==> !EndsWith(encoded, '.'))
  }

  /** Address literals have the alphabet of addresses, whatever the case of their hex
      digits. */
  predicate AddressContract(h: Hosts, s: string) {
    && (h.ipv4(s) ==> DnsText(s) && !EndsWith(s, '.'))
    && (h.ipv6(s) && '%' !in s ==> Ipv6Text(s) && h.ipv6(Lower(s)))
  }

  predicate DigitContract(h: Hosts, c: char) {
    && ('0' <= c <= '9' ==> h.digit(c))
    && (h.digit(c) ==> '0' <= c <= '9' || c >= 128 as char)
  }

  /** What is assumed of the library calls. */
  ghost predicate Contract(h: Hosts) {
    && (forall s :: EncoderContract(h, s))
    && (forall s :: AddressContract(h, s))
    && (forall c :: DigitContract(h, c))
  }

  // ---- splitting ----

  predicate IsDelimiter(c: char) {
    c == '/' || c == '?' || c == '#'
  }

  /** Position of the first "/", "?" or "#", or the length of the text. */
  function FirstDelimiter(rest: string): (r: nat)
    ensures r <= |rest|
    ensures forall k :: 0 <= k < r ==> !IsDelimiter(rest[k])
    ensures r < |rest| ==> IsDelimiter(rest[r])
  {
    if rest == "" || IsDelimiter(rest[0]) then 0
    else
      assert forall k :: 1 <= k < |rest| ==> rest[k] == rest[1..][k - 1];
      1 + FirstDelimiter(rest[1..])
  }

  /** The authority ends at the first delimiter of any of the three kinds. */
  method SplitAuthority(rest: string) returns (authority: string, remainder: string)
    ensures authority == rest[..FirstDelimiter(rest)]
    ensures remainder == rest[FirstDelimiter(rest)..]
  {
    var separators := "/?#";
    var end := |rest|;
    for i := 0 to |separators|
      invariant FirstDelimiter(rest) <= end <= |rest|
      invariant end < |rest| ==> rest[end] in separators[..i]
      invariant forall k, j :: 0 <= k < end && 0 <= j < i ==> rest[k] != separators[j]
    {
      var idx := IndexOf(rest, separators[i]);
      if idx != |rest| {
        end := if idx < end then idx else end;
      }
    }
    assert forall k :: 0 <= k < end ==>
        rest[k] != separators[0] && rest[k] != separators[1] && rest[k] != separators[2];
    authority, remainder := rest[..end], rest[end..];
  }

  /** Host and port of an authority; the user information before the last "@" is dropped. */
  function ParseHostPort(authority: string): Result<(string, string), UrlError> {
    SplitHostPort(authority[AfterLast(authority, '@')..])
  }

  function SplitHostPort(hostport: string): Result<(string, string), UrlError> {
    if hostport == "" then Err(MissingHost)
    else if hostport[0] == '[' then
      var close := IndexOf(hostport, ']');
      if close == |hostport| then Err(MissingBracket)
      else
        var tail := hostport[close + 1..];
        if tail != "" && tail[0] != ':' then Err(AfterBracket)
        else Ok((hostport[..close + 1], if tail != "" then tail[1..] else ""))
    else if Count(hostport, ':') > 1 then Err(BareIpv6)
    else
      var colon := IndexOf(hostport, ':');
      if colon == 0 then Err(MissingHost)
      else Ok((hostport[..colon], if colon < |hostport| then hostport[colon + 1..] else ""))
  }

  predicate SchemeChar(c: char) {
    IsAlpha(c) || '0' <= c <= '9' || c == '+' || c == '-' || c == '.'
  }

  /** `url` starts with a scheme that ends at its first colon. */
  predicate HasScheme(url: string) {
    var colon := IndexOf(url, ':');
    0 < colon < |url| && IsAlpha(url[0]) && forall k :: 0 <= k < colon ==> SchemeChar(url[k])
  }

  /** A URL cut into its parts, before any of them but the scheme is rewritten. */
  datatype UrlParts = UrlParts(scheme: string, host: string, port: string, path: string, query: Option<string>)

  function CutRemainder(remainder: string): (string, Option<string>) {
    var text := remainder[..IndexOf(remainder, '#')];
    var q := IndexOf(text, '?');
    (text[..q], if q < |text| then Some(text[q + 1..]) else None)
  }

  function Parse(url: string): Result<UrlParts, UrlError> {
    if !HasScheme(url) then Err(NoScheme)
    else
      var colon := IndexOf(url, ':');
      var rest := url[colon + 1..];
      if !("//" <= rest) then Err(NoAuthority)
      else
        var cut := FirstDelimiter(rest[2..]);
        var hp :- ParseHostPort(rest[2..][..cut]);
        var pq := CutRemainder(rest[2..][cut..]);
        Ok(UrlParts(Lower(url[..colon]), hp.0, hp.1, pq.0, pq.1))
  }

  // ---- hosts and ports ----

  function CanonicalIpv6(h: Hosts, host: string): Result<string, UrlError>
    requires |host| >= 2
  {
    var inner := host[1..|host| - 1];
    if '%' in inner then Err(ZoneId)
    else if !h.ipv6(inner) then Err(InvalidIpv6)
    else Ok("[" + Lower(inner) + "]")
  }

  function CanonicalDnsHost(h: Hosts, host: string): Result<string, UrlError> {
    if |host| >= 2 && host[|host| - 2..] == ".." then Err(EmptyLabel)
    else
      var trimmed := if EndsWith(host, '.') then host[..|host| - 1] else host;
      if trimmed == "" then Err(MissingHost)
      else if IsAscii(trimmed) && h.ipv4(Lower(trimmed)) then Ok(Lower(trimmed))
      else match h.idna(trimmed)
        case None => Err(InvalidHost)
        case Some(encoded) => Ok(Lower(encoded))
  }

  function CanonicalHost(h: Hosts, host: string): Result<string, UrlError> {
    if host != "" && host[0] == '[' then
      if |host| < 2 then Err(InvalidIpv6) else CanonicalIpv6(h, host)
    else CanonicalDnsHost(h, host)
  }

  predicate AllDigits(h: Hosts, port: string) {
    forall k :: 0 <= k < |port| ==> h.digit(port[k])
  }

  /** The port that is implied by the scheme (section 6.2.3 of RFC 3986). */
  predicate DefaultPort(scheme: string, port: string) {
    (scheme == "https" && port == "443") || (scheme == "http" && port == "80")
  }

  // ---- putting the URL together ----

  function Authority(host: string, port: string): string {
    if port != "" then host + ":" + port else host
  }

  function QueryText(query: Option<string>): string {
    if query.Some? then "?" + query.value else ""
  }

  /** The text of a URL made of these parts. */
  function Compose(r: UrlParts): string {
    r.scheme + ("://" + (Authority(r.host, r.port) + (r.path + QueryText(r.query))))
  }

  function CanonicalPath(path: string): string {
    var p := if path != "" then Remove(Normalize(path)) else "";
    if p == "" then "/" else p
  }

  /** The parts of the canonical URL. */
  function CanonicalParts(h: Hosts, url: string): Result<UrlParts, UrlError> {
    var raw :- Parse(url);
    Rewritten(h, raw)
  }

  function Rewritten(h: Hosts, raw: UrlParts): Result<UrlParts, UrlError> {
    var host :- CanonicalHost(h, raw.host);
    if raw.port != "" && !AllDigits(h, raw.port) then Err(InvalidPort)
    else
      Ok(UrlParts(
        raw.scheme,
        host,
        if DefaultPort(raw.scheme, raw.port) then "" else raw.port,
        CanonicalPath(raw.path),
        if raw.query.Some? then Some(Normalize(raw.query.value)) else None))
  }

  function Canonicalize(h: Hosts, url: string): Result<CanonicalUrl, UrlError> {
    var r :- CanonicalParts(h, url);
    Ok(CanonicalUrl(Compose(r), Authority(r.host, r.port), r.scheme, r.host))
  }

  lemma ComposeText(r: UrlParts)
    ensures r.query.None? ==> r.scheme + "://" + Authority(r.host, r.port) + r.path == Compose(r)
    ensures r.query.Some? ==>
              r.scheme + "://" + Authority(r.host, r.port) + r.path + "?" + r.query.value == Compose(r)
  {
    if r.query.None? {
      assert r.path + QueryText(r.query) == r.path;
    }
  }

  /** Canonicalize a URL step by step. */
  method CanonicalizeUrl(h: Hosts, url: string) returns (r: Result<CanonicalUrl, UrlError>)
    ensures r == Canonicalize(h, url)
  {
    if !HasScheme(url) {
      return Err(NoScheme);
    }
    var colon := IndexOf(url, ':');
    var scheme := Lower(url[..colon]);
    var rest := url[colon + 1..];
    if !("//" <= rest) {
      return Err(NoAuthority);
    }
    var authority, remainder := SplitAuthority(rest[2..]);
    var hostport := ParseHostPort(authority);
    if hostport.Err? {
      return Err(hostport.error);
    }
    var (rawHost, port) := hostport.value;
    var (path, query) := CutRemainder(remainder);
    ghost var raw := UrlParts(scheme, rawHost, port, path, query);
    assert Parse(url) == Ok(raw);
    var host := CanonicalHost(h, rawHost);
    if host.Err? {
      return Err(host.error);
    }
    if port != "" && !AllDigits(h, port) {
      return Err(InvalidPort);
    }
    if port != "" && DefaultPort(scheme, port) {
      port := "";
    }
    var canonicalAuthority := Authority(host.value, port);
    if path != "" {
      path := RemoveDotSegments(Normalize(path));
    }
    if path == "" {
      path := "/";
    }
    var target := scheme + "://" + canonicalAuthority + path;
    if query.Some? {
      query := Some(Normalize(query.value));
      target := target + "?" + query.value;
    }
    ghost var parts := UrlParts(scheme, host.value, port, path, query);
    assert CanonicalParts(h, url) == Ok(parts);
    ComposeText(parts);
    r := Ok(CanonicalUrl(target, canonicalAuthority, scheme, host.value));
  }

  /** Two URLs name the same thing; malformed URLs never match. */
  predicate UrlsEquivalent(h: Hosts, left: string, right: string) {
    var l, r := Canonicalize(h, left), Canonicalize(h, right);
    l.Ok? && r.Ok? && l.value.targetUri == r.value.targetUri
  }
}
