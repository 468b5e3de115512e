/** The signature base of the request-signing profile (section 2.5 of RFC 9421), as a client
    of URL canonicalization. */
module Signing {
  import opened Wrappers
  import opened Text
  import opened DotSegments
  import opened UrlCanon
  import opened UrlFixedPoint

  datatype SigningError = BadUrl(cause: UrlError) | MissingHeader(name: string)

  /** The headers under lower-case names, their values stripped; a later header replaces an
      earlier one of the same name. */
  function Lowered(headers: seq<(string, string)>): map<string, string> {
    if headers == [] then map[]
    else
      var (name, value) := headers[|headers| - 1];
      Lowered(headers[..|headers| - 1])[Lower(name) := Strip(value)]
  }

  /** What a header is signed with: the value of the last one of that name. */
  lemma {:induction false} LoweredAt(headers: seq<(string, string)>, name: string, k: nat)
    requires k < |headers| && Lower(headers[k].0) == name
    requires forall j :: k < j < |headers| ==> Lower(headers[j].0) != name
    ensures name in Lowered(headers) && Lowered(headers)[name] == Strip(headers[k].1)
    decreases |headers|
  {
    if k == |headers| - 1 {
    } else {
      var most := headers[..|headers| - 1];
      assert forall j :: 0 <= j < |most| ==> most[j] == headers[j];
      LoweredAt(most, name, k);
    }
  }

  method LowerHeaders(headers: seq<(string, string)>) returns (lowered: map<string, string>)
    ensures lowered == Lowered(headers)
  {
    lowered := map[];
    for i := 0 to |headers|
      invariant lowered == Lowered(headers[..i])
    {
      assert headers[..i + 1] == headers[..i] + [headers[i]];
      lowered := lowered[Lower(headers[i].0) := Strip(headers[i].1)];
    }
    assert headers[..|headers|] == headers;
  }

  /** The value a covered component contributes; `headers` has lower-case names. */
  function ComponentValue(verb: string, c: CanonicalUrl, headers: map<string, string>, component: string)
    : Result<string, SigningError>
  {
    if component == "@method" then Ok(Upper(verb))
    else if component == "@target-uri" then Ok(c.targetUri)
    else if component == "@authority" then Ok(c.authority)
    else if component in headers then Ok(headers[component])
    else Err(MissingHeader(component))
  }

  function Label(component: string): string {
    "\"" + component + "\": "
  }

  function Line(component: string, value: string): string {
    Label(component) + value
  }

  function Lines(verb: string, c: CanonicalUrl, headers: map<string, string>, components: seq<string>)
    : Result<seq<string>, SigningError>
  {
    if components == [] then Ok([])
    else
      var value :- ComponentValue(verb, c, headers, components[0]);
      var rest :- Lines(verb, c, headers, components[1..]);
      Ok([Line(components[0], value)] + rest)
  }

  /** Lines joined by newlines. */
  function Join(lines: seq<string>): string
    requires lines != []
  {
    if |lines| == 1 then lines[0] else lines[0] + "\n" + Join(lines[1..])
  }

  /** The base for a canonical URL. */
  function BaseOf(c: CanonicalUrl, verb: string, headers: map<string, string>, components: seq<string>, params: string)
    : Result<string, SigningError>
  {
    var lines :- Lines(verb, c, headers, components);
    Ok(Join(lines + [Line("@signature-params", params)]))
  }

  function Base(h: Hosts, verb: string, url: string, headers: seq<(string, string)>,
                components: seq<string>, params: string): Result<string, SigningError>
  {
    match Canonicalize(h, url)
    case Err(e) => Err(BadUrl(e))
    case Ok(c) => BaseOf(c, verb, Lowered(headers), components, params)
  }

  lemma {:induction false} LinesAppend(verb: string, c: CanonicalUrl, headers: map<string, string>,
                                       done: seq<string>, next: string)
    ensures Lines(verb, c, headers, done + [next]) ==
            match Lines(verb, c, headers, done)
            case Err(e) => Err(e)
            case Ok(ls) =>
              match ComponentValue(verb, c, headers, next)
              case Err(e) => Err(e)
              case Ok(v) => Ok(ls + [Line(next, v)])
  {
    if done == [] {
      assert [] + [next] == [next] && [next][1..] == [];
      var value := ComponentValue(verb, c, headers, next);
      if value.Ok? {
        var l := [Line(next, value.value)];
        assert l + [] == l && [] + l == l;
      }
    } else {
      LinesAppend(verb, c, headers, done[1..], next);
      assert (done + [next])[1..] == done[1..] + [next];
      var value, rest := ComponentValue(verb, c, headers, done[0]), Lines(verb, c, headers, done[1..]);
      var last := ComponentValue(verb, c, headers, next);
      if value.Ok? && rest.Ok? && last.Ok? {
        var l0, l1 := [Line(done[0], value.value)], [Line(next, last.value)];
        assert l0 + (rest.value + l1) == l0 + rest.value + l1;
      }
    }
  }

  lemma {:induction false} LinesPrefix(verb: string, c: CanonicalUrl, headers: map<string, string>,
                                       components: seq<string>, n: nat)
    requires n <= |components|
    requires Lines(verb, c, headers, components[..n]).Err?
    ensures Lines(verb, c, headers, components) == Lines(verb, c, headers, components[..n])
    decreases |components| - n
  {
    if n == |components| {
      assert components[..n] == components;
    } else {
      LinesAppend(verb, c, headers, components[..n], components[n]);
      assert components[..n + 1] == components[..n] + [components[n]];
      LinesPrefix(verb, c, headers, components, n + 1);
    }
  }

  method CoveredLines(c: CanonicalUrl, verb: string, headers: map<string, string>, components: seq<string>,
                      params: string)
    returns (r: Result<string, SigningError>)
    ensures r == BaseOf(c, verb, headers, components, params)
  {
    var lines: seq<string> := [];
    for i := 0 to |components|
      invariant Lines(verb, c, headers, components[..i]) == Ok(lines)
    {
      LinesAppend(verb, c, headers, components[..i], components[i]);
      assert components[..i + 1] == components[..i] + [components[i]];
      var value := ComponentValue(verb, c, headers, components[i]);
      if value.Err? {
        LinesPrefix(verb, c, headers, components, i + 1);
        return Err(value.error);
      }
      lines := lines + [Line(components[i], value.value)];
    }
    assert components[..|components|] == components;
    r := Ok(Join(lines + [Line("@signature-params", params)]));
  }

  method SignatureBase(h: Hosts, verb: string, url: string, headers: seq<(string, string)>,
                       components: seq<string>, params: string) returns (r: Result<string, SigningError>)
    ensures r == Base(h, verb, url, headers, components, params)
  {
    var canonical := CanonicalizeUrl(h, url);
    if canonical.Err? {
      return Err(BadUrl(canonical.error));
    }
    var lowered := LowerHeaders(headers);
    r := CoveredLines(canonical.value, verb, lowered, components, params);
  }

  // ---- the text of a base ----

  /** The text of these lines, each with a newline behind it. */
  function Ended(lines: seq<string>): string {
    if lines == [] then "" else Ended(lines[..|lines| - 1]) + (lines[|lines| - 1] + "\n")
  }

  lemma {:induction false} EndedCons(line: string, lines: seq<string>)
    ensures Ended([line] + lines) == line + "\n" + Ended(lines)
    decreases |lines|
  {
    if lines == [] {
      assert [line] + lines == [line] && [line][..0] == [];
      assert "" + (line + "\n") == line + "\n" + "";
    } else {
      var most, last := lines[..|lines| - 1], lines[|lines| - 1];
      EndedCons(line, most);
      LastJoins([line], lines);
      assert ([line] + lines)[..|lines|] == [line] + most;
      Assoc(line + "\n", Ended(most), last + "\n");
    }
  }

  lemma {:induction false} JoinEnded(lines: seq<string>)
    requires lines != []
    ensures Join(lines) + "\n" == Ended(lines)
  {
    assert lines == [lines[0]] + lines[1..];
    EndedCons(lines[0], lines[1..]);
    if |lines| == 1 {
      assert lines[1..] == [];
      assert lines[0] + "\n" + "" == lines[0] + "\n";
    } else {
      JoinEnded(lines[1..]);
      Assoc(lines[0] + "\n", Join(lines[1..]), "\n");
    }
  }

  /** A component whose value does not come from a header. */
  predicate Derived(component: string) {
    component == "@method" || component == "@target-uri" || component == "@authority"
  }

  /** Header k is the one that is signed under this name: the last one. */
  predicate Signs(headers: seq<(string, string)>, name: string, k: nat) {
    k < |headers| && Lower(headers[k].0) == name && forall j :: k < j < |headers| ==> Lower(headers[j].0) != name
  }

  lemma {:induction false} LoweredExactly(headers: seq<(string, string)>, name: string)
    ensures name in Lowered(headers) <==> exists k: nat :: Signs(headers, name, k)
    decreases |headers|
  {
    if headers == [] {
    } else {
      var n := |headers| - 1;
      var most := headers[..n];
      LoweredExactly(most, name);
      if Lower(headers[n].0) == name {
        assert Signs(headers, name, n);
      } else {
        forall k: nat
          ensures Signs(most, name, k) <==> Signs(headers, name, k)
        {
          assert k < n ==> most[k] == headers[k];
          assert forall j :: 0 <= j < n ==> most[j] == headers[j];
        }
      }
    }
  }

  /** The line of a component, spelled out. */
  ghost predicate IsLine(verb: string, c: CanonicalUrl, headers: seq<(string, string)>, component: string, line: string)
  {
    if component == "@method" then line == "\"@method\": " + Upper(verb)
    else if component == "@target-uri" then line == "\"@target-uri\": " + c.targetUri
    else if component == "@authority" then line == "\"@authority\": " + c.authority
    else exists k: nat :: Signs(headers, component, k) && line == "\"" + component + "\": " + Strip(headers[k].1)
  }

  lemma LineSpelled(verb: string, c: CanonicalUrl, headers: seq<(string, string)>, component: string)
    ensures var v := ComponentValue(verb, c, Lowered(headers), component);
            && (v.Err? <==> !Derived(component) && forall k: nat :: !Signs(headers, component, k))
            && (v.Err? ==> v == Err(MissingHeader(component)))
            && (v.Ok? ==> IsLine(verb, c, headers, component, Line(component, v.value)))
  {
    LoweredExactly(headers, component);
    assert "\"" + "@method" + "\": " == "\"@method\": ";
    assert "\"" + "@target-uri" + "\": " == "\"@target-uri\": ";
    assert "\"" + "@authority" + "\": " == "\"@authority\": ";
    if !Derived(component) && component in Lowered(headers) {
      var k: nat :| Signs(headers, component, k);
      LoweredAt(headers, component, k);
    }
  }

  /** The lines of components that all have values, or the first that has none. */
  lemma {:induction false} LinesSpelled(verb: string, c: CanonicalUrl, headers: seq<(string, string)>,
                                        components: seq<string>)
    ensures var ls := Lines(verb, c, Lowered(headers), components);
            match ls
            case Ok(lines) =>
              |lines| == |components|
              && forall k :: 0 <= k < |components| ==> IsLine(verb, c, headers, components[k], lines[k])
            case Err(e) =>
              exists n: nat :: FirstMissing(headers, components, n) && e == MissingHeader(components[n])
  {
    if components == [] {
    } else {
      LineSpelled(verb, c, headers, components[0]);
      LinesSpelled(verb, c, headers, components[1..]);
      var v, ls := ComponentValue(verb, c, Lowered(headers), components[0]),
                   Lines(verb, c, Lowered(headers), components[1..]);
      if v.Err? {
        assert FirstMissing(headers, components, 0);
      } else if ls.Err? {
        var n: nat :| FirstMissing(headers, components[1..], n) && ls.error == MissingHeader(components[1..][n]);
        FirstMissingLater(headers, components, n);
        assert components[n + 1] == components[1..][n];
      } else {
        assert forall k :: 1 <= k < |components| ==> components[k] == components[1..][k - 1];
      }
    }
  }

  /** The n-th component is a header that is not there; those before it have values. */
  ghost predicate FirstMissing(headers: seq<(string, string)>, components: seq<string>, n: nat) {
    && n < |components| && NoValue(headers, components[n])
    && forall k :: 0 <= k < n ==> !NoValue(headers, components[k])
  }

  ghost predicate NoValue(headers: seq<(string, string)>, component: string) {
    !Derived(component) && forall k: nat :: !Signs(headers, component, k)
  }

  lemma FirstMissingLater(headers: seq<(string, string)>, components: seq<string>, n: nat)
    requires components != [] && !NoValue(headers, components[0]) && FirstMissing(headers, components[1..], n)
    ensures FirstMissing(headers, components, n + 1)
  {
    assert forall k :: 1 <= k < |components| ==> components[k] == components[1..][k - 1];
  }

  /** What is signed. A base is a line for each component, in order, and the line of the
      parameters, with newlines between them; it fails for a URL that is refused, and otherwise
      for the first header that is missing. */
  lemma BaseExactly(h: Hosts, verb: string, url: string, headers: seq<(string, string)>, components: seq<string>,
                    params: string) returns (lines: seq<string>)
    ensures var r := Base(h, verb, url, headers, components, params);
            match Canonicalize(h, url)
            case Err(e) => r == Err(BadUrl(e))
            case Ok(c) =>
              && (forall n: nat :: FirstMissing(headers, components, n) ==> r == Err(MissingHeader(components[n])))
              && ((forall n: nat :: !FirstMissing(headers, components, n)) ==>
                    && r.Ok? && r.value + "\n" == Ended(lines) && |lines| == |components| + 1
                    && (forall k :: 0 <= k < |components| ==> IsLine(verb, c, headers, components[k], lines[k]))
                    && lines[|components|] == "\"@signature-params\": " + params)
  {
    lines := [];
    if Canonicalize(h, url).Ok? {
      var c := Canonicalize(h, url).value;
      var ls := Lines(verb, c, Lowered(headers), components);
      LinesSpelled(verb, c, headers, components);
      if ls.Ok? {
        lines := BaseLines(verb, c, headers, components, params);
      } else {
        OneFirstMissing(headers, components);
      }
    }
  }

  lemma BaseLines(verb: string, c: CanonicalUrl, headers: seq<(string, string)>, components: seq<string>,
                  params: string) returns (lines: seq<string>)
    requires Lines(verb, c, Lowered(headers), components).Ok?
    ensures var r := BaseOf(c, verb, Lowered(headers), components, params);
            r.Ok? && r.value + "\n" == Ended(lines) && |lines| == |components| + 1
    ensures forall k :: 0 <= k < |components| ==> IsLine(verb, c, headers, components[k], lines[k])
    ensures lines[|components|] == "\"@signature-params\": " + params
    ensures forall n: nat :: !FirstMissing(headers, components, n)
  {
    LinesSpelled(verb, c, headers, components);
    var ls := Lines(verb, c, Lowered(headers), components).value;
    assert "\"" + "@signature-params" + "\": " == "\"@signature-params\": ";
    lines := ls + [Line("@signature-params", params)];
    JoinEnded(lines);
    NoneMissing(verb, c, headers, components, ls);
  }

  lemma NoneMissing(verb: string, c: CanonicalUrl, headers: seq<(string, string)>, components: seq<string>,
                    lines: seq<string>)
    requires |lines| == |components|
    requires forall k :: 0 <= k < |components| ==> IsLine(verb, c, headers, components[k], lines[k])
    ensures forall n: nat :: !FirstMissing(headers, components, n)
  {
    forall n: nat | n < |components|
      ensures !FirstMissing(headers, components, n)
    {
      assert IsLine(verb, c, headers, components[n], lines[n]);
    }
  }

  lemma OneFirstMissing(headers: seq<(string, string)>, components: seq<string>)
    ensures forall m: nat, n: nat :: FirstMissing(headers, components, m) && FirstMissing(headers, components, n) ==>
              m == n
  {}

  // ---- what a base says about the URL ----

  /** URLs that compare equal are signed with the same base. */
  lemma EquivalentUrlsSameBase(h: Hosts, left: string, right: string, verb: string,
                               headers: seq<(string, string)>, components: seq<string>, params: string)
    requires Contract(h) && UrlsEquivalent(h, left, right)
    ensures Base(h, verb, left, headers, components, params) == Base(h, verb, right, headers, components, params)
  {
    TargetDetermines(h, left, right);
  }

  /** The text of a base whose components all have values. */
  function Whole(verb: string, c: CanonicalUrl, headers: map<string, string>, components: seq<string>,
                 last: string): string
    requires Lines(verb, c, headers, components).Ok?
  {
    Join(Lines(verb, c, headers, components).value + [last])
  }

  lemma WholeStep(verb: string, c: CanonicalUrl, headers: map<string, string>, components: seq<string>, last: string)
    requires components != [] && Lines(verb, c, headers, components).Ok?
    ensures ComponentValue(verb, c, headers, components[0]).Ok? && Lines(verb, c, headers, components[1..]).Ok?
    ensures Whole(verb, c, headers, components, last) ==
            Label(components[0]) + (ComponentValue(verb, c, headers, components[0]).value
                                    + ("\n" + Whole(verb, c, headers, components[1..], last)))
  {
    var value := ComponentValue(verb, c, headers, components[0]).value;
    var rest := Lines(verb, c, headers, components[1..]).value;
    var lines := [Line(components[0], value)] + rest + [last];
    assert lines[1..] == rest + [last];
    var text := Join(rest + [last]);
    Assoc(Label(components[0]), value, "\n");
    Assoc(Label(components[0]), value + "\n", text);
    Assoc(value, "\n", text);
  }

  /** Two texts that agree up to their first newline agree after it. */
  lemma SameLine(a: string, b: string, restA: string, restB: string)
    requires '\n' !in a && '\n' !in b
    requires a + ("\n" + restA) == b + ("\n" + restB)
    ensures a == b && restA == restB
  {
    IndexOfSplit(a, "\n" + restA, '\n');
    IndexOfSplit(b, "\n" + restB, '\n');
    assert (a + ("\n" + restA))[..|a|] == a && (b + ("\n" + restB))[..|b|] == b;
    Cancel(a, "\n" + restA, "\n" + restB);
    Cancel("\n", restA, restB);
  }

  predicate Comparable(a: string, b: string) {
    a <= b || b <= a
  }

  lemma SameTextComparable(a: string, b: string, restA: string, restB: string)
    requires a + restA == b + restB
    ensures Comparable(a, b)
  {
    if |a| <= |b| {
      assert a == (a + restA)[..|a|] == b[..|a|];
    } else {
      assert b == (b + restB)[..|b|] == a[..|b|];
    }
  }

  /** Equal bases that cover the target URI have targets one of which begins the other. */
  lemma {:induction false} TargetsComparable(verb: string, l: CanonicalUrl, r: CanonicalUrl,
                                             headers: map<string, string>, components: seq<string>, last: string)
    requires Lines(verb, l, headers, components).Ok? && Lines(verb, r, headers, components).Ok?
    requires '\n' !in l.authority && '\n' !in r.authority && "@target-uri" in components
    requires Whole(verb, l, headers, components, last) == Whole(verb, r, headers, components, last)
    ensures Comparable(l.targetUri, r.targetUri)
  {
    WholeStep(verb, l, headers, components, last);
    WholeStep(verb, r, headers, components, last);
    var c := components[0];
    var lv, rv := ComponentValue(verb, l, headers, c).value, ComponentValue(verb, r, headers, c).value;
    var lw, rw := Whole(verb, l, headers, components[1..], last), Whole(verb, r, headers, components[1..], last);
    Cancel(Label(c), lv + ("\n" + lw), rv + ("\n" + rw));
    if c == "@target-uri" {
      SameTextComparable(lv, rv, "\n" + lw, "\n" + rw);
    } else {
      if c == "@authority" {
        SameLine(lv, rv, lw, rw);
      } else {
        Cancel(lv, "\n" + lw, "\n" + rw);
        Cancel("\n", lw, rw);
      }
      assert components == [c] + components[1..];
      TargetsComparable(verb, l, r, headers, components[1..], last);
    }
  }

  /** With equal authorities, the longer target makes the longer base. */
  lemma {:induction false} LongerTarget(verb: string, l: CanonicalUrl, r: CanonicalUrl, headers: map<string, string>,
                                        components: seq<string>, last: string)
    requires Lines(verb, l, headers, components).Ok? && Lines(verb, r, headers, components).Ok?
    requires l.authority == r.authority && |l.targetUri| < |r.targetUri|
    ensures |Whole(verb, l, headers, components, last)| <= |Whole(verb, r, headers, components, last)|
    ensures "@target-uri" in components ==>
              |Whole(verb, l, headers, components, last)| < |Whole(verb, r, headers, components, last)|
  {
    if components == [] {
    } else {
      WholeStep(verb, l, headers, components, last);
      WholeStep(verb, r, headers, components, last);
      LongerTarget(verb, l, r, headers, components[1..], last);
      assert components == [components[0]] + components[1..];
    }
  }

  /** A text that continues another has the same first colon and the same first delimiter. */
  lemma FirstInPrefix(a: string, b: string, c: char)
    requires a <= b
    ensures IndexOf(a, c) < |a| ==> IndexOf(b, c) == IndexOf(a, c)
    ensures FirstDelimiter(a) < |a| ==> FirstDelimiter(b) == FirstDelimiter(a)
  {
    assert forall k :: 0 <= k < |a| ==> a[k] == b[k];
  }

  lemma AuthorityOneLine(h: Hosts, host: string, port: string)
    requires Contract(h) && HostText(host) && AllDigits(h, port)
    ensures '\n' !in Authority(host, port)
  {
    assert forall k :: 0 <= k < |port| ==> DigitContract(h, port[k]);
    assert BracketText(host) ==> host == "[" + host[1..|host| - 1] + "]";
    NotInAppend(host, ":" + port, '\n');
    Assoc(host, ":", port);
  }

  /** Where a composed URL has its first colon and its first delimiter. */
  lemma ComposeRead(scheme: string, auth: string, rest: string)
    requires AnyScheme(scheme) && NoDelimiter(auth) && Absolute(rest)
    ensures var url := scheme + ("://" + (auth + rest));
            && IndexOf(url, ':') == |scheme| < |url|
            && url[|scheme| + 3..] == auth + rest
    ensures FirstDelimiter(auth + rest) == |auth| < |auth + rest| && (auth + rest)[..|auth|] == auth
  {
    SchemeRead(scheme, auth + rest);
    DelimiterCut(auth, rest);
    var url, n := scheme + ("://" + (auth + rest)), |scheme| + 3;
    assert url[n..] == url[|scheme| + 1..][2..];
  }

  lemma PrefixTail<T>(a: seq<T>, b: seq<T>, n: nat)
    requires a <= b && n <= |a|
    ensures a[n..] <= b[n..]
  {
    assert a[n..] == b[n..][..|a| - n];
  }

  /** A composed URL that begins another has the same authority. */
  lemma PrefixSameAuthority(s1: string, a1: string, r1: string, s2: string, a2: string, r2: string)
    requires AnyScheme(s1) && NoDelimiter(a1) && Absolute(r1)
    requires AnyScheme(s2) && NoDelimiter(a2) && Absolute(r2)
    requires s1 + ("://" + (a1 + r1)) <= s2 + ("://" + (a2 + r2))
    ensures a1 == a2
  {
    var u, v := s1 + ("://" + (a1 + r1)), s2 + ("://" + (a2 + r2));
    ComposeRead(s1, a1, r1);
    ComposeRead(s2, a2, r2);
    FirstInPrefix(u, v, ':');
    PrefixTail(u, v, |s1| + 3);
    FirstInPrefix(a1 + r1, a2 + r2, ':');
    assert a1 == (a1 + r1)[..|a1|] == (a2 + r2)[..|a1|];
  }

  lemma TargetPrefixSameAuthority(h: Hosts, l: UrlParts, r: UrlParts)
    requires Contract(h) && Canonical(h, l) && Canonical(h, r) && Compose(l) <= Compose(r)
    ensures Authority(l.host, l.port) == Authority(r.host, r.port)
  {
    AuthorityRead(h, l.host, l.port);
    AuthorityRead(h, r.host, r.port);
    PrefixSameAuthority(l.scheme, Authority(l.host, l.port), l.path + QueryText(l.query),
                        r.scheme, Authority(r.host, r.port), r.path + QueryText(r.query));
  }

  /** A base that covers "@target-uri" identifies the URL: the same base means equivalent URLs,
      whatever the header values and the parameters hold, newlines included. */
  lemma BaseDeterminesUrl(h: Hosts, left: string, right: string, verb: string,
                          headers: seq<(string, string)>, components: seq<string>, params: string)
    requires Contract(h) && "@target-uri" in components
    requires Base(h, verb, left, headers, components, params).Ok?
    requires Base(h, verb, left, headers, components, params) == Base(h, verb, right, headers, components, params)
    ensures UrlsEquivalent(h, left, right)
  {
    var l, r := Canonicalize(h, left).value, Canonicalize(h, right).value;
    var lp, rp := CanonicalParts(h, left).value, CanonicalParts(h, right).value;
    CanonicalShape(h, left);
    CanonicalShape(h, right);
    AuthorityOneLine(h, lp.host, lp.port);
    AuthorityOneLine(h, rp.host, rp.port);
    var last, lowered := Line("@signature-params", params), Lowered(headers);
    TargetsComparable(verb, l, r, lowered, components, last);
    if l.targetUri <= r.targetUri {
      TargetPrefixSameAuthority(h, lp, rp);
    } else {
      TargetPrefixSameAuthority(h, rp, lp);
    }
    if |l.targetUri| < |r.targetUri| {
      LongerTarget(verb, l, r, lowered, components, last);
    } else if |r.targetUri| < |l.targetUri| {
      LongerTarget(verb, r, l, lowered, components, last);
    }
  }
}
