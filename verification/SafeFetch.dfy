/** Trust-root fetching: the size cap, strict parsing, and the redirect hops. */
module SafeFetch {
  import opened Wrappers
  import opened Text
  import opened UrlCanon

  // ---- nesting depth ----

  /** A parsed document; an object has one key for each of its items. */
  datatype Json = Scalar(text: string) | List(items: seq<Json>) | Object(keys: seq<string>, items: seq<Json>)

  function Max(a: nat, b: nat): nat {
    if a < b then b else a
  }

  /** A scalar has depth 0; a container is one deeper than its deepest child. */
  function Depth(v: Json): nat {
    if v.Scalar? then 0 else 1 + Deepest(v.items)
  }

  function Deepest(vs: seq<Json>): nat {
    if vs == [] then 0 else Max(Deepest(vs[..|vs| - 1]), Depth(vs[|vs| - 1]))
  }

  function Size(v: Json): nat {
    if v.Scalar? then 1 else 1 + Sizes(v.items)
  }

  function Sizes(vs: seq<Json>): nat {
    if vs == [] then 0 else Sizes(vs[..|vs| - 1]) + Size(vs[|vs| - 1])
  }

  function StackSize(stack: seq<(Json, nat)>): nat {
    if stack == [] then 0 else StackSize(stack[..|stack| - 1]) + Size(stack[|stack| - 1].0)
  }

  /** The deepest level that values of depth `depth`, stacked at `level`, fill. */
  function Lowest(level: nat, depth: nat): nat {
    if depth == 0 || level == 0 then 0 else level + depth - 1
  }

  /** The deepest level any stacked value fills. */
  function Reach(stack: seq<(Json, nat)>): nat {
    if stack == [] then 0
    else
      var last := stack[|stack| - 1];
      Max(Reach(stack[..|stack| - 1]), Lowest(last.1, Depth(last.0)))
  }

  function WithLevel(vs: seq<Json>, level: nat): (r: seq<(Json, nat)>)
    ensures |r| == |vs|
  {
    seq(|vs|, k requires 0 <= k < |vs| => (vs[k], level))
  }

  lemma {:induction false} PushedChildren(stack: seq<(Json, nat)>, vs: seq<Json>, level: nat)
    ensures StackSize(stack + WithLevel(vs, level)) == StackSize(stack) + Sizes(vs)
    ensures Reach(stack + WithLevel(vs, level)) == Max(Reach(stack), Lowest(level, Deepest(vs)))
  {
    var pushed := stack + WithLevel(vs, level);
    if vs == [] {
      assert pushed == stack;
    } else {
      var most := vs[..|vs| - 1];
      PushedChildren(stack, most, level);
      assert pushed[..|pushed| - 1] == stack + WithLevel(most, level);
      assert pushed[|pushed| - 1] == (vs[|vs| - 1], level);
    }
  }

  predicate Leveled(stack: seq<(Json, nat)>) {
    forall k :: 0 <= k < |stack| ==> stack[k].1 >= 1
  }

  /** One step: the value on top is replaced by its children, one level deeper. */
  lemma Popped(stack: seq<(Json, nat)>, deepest: nat)
    requires stack != [] && Leveled(stack)
    ensures var (node, level) := stack[|stack| - 1];
            var rest := stack[..|stack| - 1];
            && Leveled(rest)
            && (node.Scalar? ==> StackSize(rest) < StackSize(stack) && Reach(rest) == Reach(stack))
            && (!node.Scalar? ==>
                  var next := rest + WithLevel(node.items, level + 1);
                  && Leveled(next) && StackSize(next) < StackSize(stack)
                  && Max(Max(deepest, level), Reach(next)) == Max(deepest, Reach(stack)))
  {
    var (node, level) := stack[|stack| - 1];
    if !node.Scalar? {
      PushedChildren(stack[..|stack| - 1], node.items, level + 1);
    }
  }

  /** The explicit stack computes the recursive depth. */
  method NestingDepth(value: Json) returns (deepest: nat)
    ensures deepest == Depth(value)
  {
    deepest := 0;
    var stack: seq<(Json, nat)> := [(value, 1)];
    assert stack[..0] == [];
    while stack != []
      invariant Leveled(stack)
      invariant Max(deepest, Reach(stack)) == Depth(value)
      decreases StackSize(stack)
    {
      Popped(stack, deepest);
      var (node, level) := stack[|stack| - 1];
      stack := stack[..|stack| - 1];
      if !node.Scalar? {
        deepest := Max(deepest, level);
        stack := stack + WithLevel(node.items, level + 1);
      }
    }
  }

  /** Containers each of which is inside the one before. */
  ghost predicate Nested(v: Json, chain: seq<Json>) {
    && chain != [] && chain[0] == v && !v.Scalar?
    && forall k {:trigger chain[k]} :: 0 < k < |chain| ==>
         !chain[k].Scalar? && !chain[k - 1].Scalar? && chain[k] in chain[k - 1].items
  }

  lemma {:induction false} DeepestMember(vs: seq<Json>) returns (deepest: Option<Json>)
    ensures forall v :: v in vs ==> Depth(v) <= Deepest(vs)
    ensures if deepest.Some? then deepest.value in vs && Depth(deepest.value) == Deepest(vs) else Deepest(vs) == 0
  {
    deepest := None;
    if vs == [] {
    } else {
      var most, last := vs[..|vs| - 1], vs[|vs| - 1];
      deepest := DeepestMember(most);
      assert vs == most + [last];
      if Depth(last) >= Deepest(most) {
        deepest := Some(last);
      }
    }
  }

  lemma {:induction false} ChainToDepth(v: Json) returns (chain: seq<Json>)
    requires !v.Scalar?
    ensures Nested(v, chain) && |chain| == Depth(v)
    decreases v
  {
    var deepest := DeepestMember(v.items);
    if deepest.None? || deepest.value.Scalar? {
      chain := [v];
    } else {
      var rest := ChainToDepth(deepest.value);
      chain := [v] + rest;
      assert forall k :: 1 <= k < |chain| ==> chain[k] == rest[k - 1];
    }
  }

  lemma {:induction false} ChainWithinDepth(v: Json, chain: seq<Json>)
    requires Nested(v, chain)
    ensures |chain| <= Depth(v)
    decreases |chain|
  {
    var deepest := DeepestMember(v.items);
    if |chain| > 1 {
      var rest := chain[1..];
      assert forall k :: 0 <= k < |rest| ==> rest[k] == chain[k + 1];
      ChainWithinDepth(chain[1], rest);
    }
  }

  /** The depth of a document is the length of the longest chain of containers inside each other. */
  lemma DepthExactly(v: Json, n: nat)
    ensures Depth(v) >= n > 0 <==> n > 0 && exists chain :: Nested(v, chain) && |chain| == n
  {
    if Depth(v) >= n > 0 {
      var chain := ChainToDepth(v);
      assert forall k :: 0 <= k < n ==> chain[..n][k] == chain[k];
      assert Nested(v, chain[..n]);
    }
    if chain :| Nested(v, chain) && |chain| == n {
      ChainWithinDepth(v, chain);
    }
  }

  // ---- one document ----

  type Bytes = seq<bv8>

  /** What a fetch raises: a FetchError of some kind, or Uncaught, any other exception. */
  datatype FetchError =
    | Refused
    | NotPermitted
    | HttpStatus(status: int)
    | TooManyRedirects
    | TooLarge
    | Unparsable
    | DuplicateKey
    | TooDeep
    | Transport
    | Uncaught

  predicate Distinct(keys: seq<string>) {
    forall i, j :: 0 <= i < j < |keys| ==> keys[i] != keys[j]
  }

  /** No object of the document names a key twice. */
  predicate UniqueKeys(v: Json) {
    match v
    case Scalar(_) => true
    case List(items) => forall item :: item in items ==> UniqueKeys(item)
    case Object(keys, items) => Distinct(keys) && forall item :: item in items ==> UniqueKeys(item)
  }

  /** A value somewhere in a document, by the positions that lead to it. */
  ghost predicate At(v: Json, path: seq<nat>, inner: Json)
    decreases |path|
  {
    if path == [] then inner == v
    else !v.Scalar? && path[0] < |v.items| && At(v.items[path[0]], path[1..], inner)
  }

  /** Two keys of an object somewhere in a document are the same. */
  ghost predicate Repeats(v: Json, path: seq<nat>, inner: Json, i: nat, j: nat) {
    At(v, path, inner) && inner.Object? && i < j < |inner.keys| && inner.keys[i] == inner.keys[j]
  }

  lemma {:induction false} NoRepeats(v: Json, path: seq<nat>, inner: Json, i: nat, j: nat)
    requires UniqueKeys(v)
    ensures !Repeats(v, path, inner, i, j)
    decreases |path|
  {
    if path == [] {
    } else if !v.Scalar? && path[0] < |v.items| {
      assert v.items[path[0]] in v.items;
      NoRepeats(v.items[path[0]], path[1..], inner, i, j);
    }
  }

  lemma {:induction false} FindRepeats(v: Json) returns (path: seq<nat>, inner: Json, i: nat, j: nat)
    requires !UniqueKeys(v)
    ensures Repeats(v, path, inner, i, j)
    decreases v
  {
    if v.Object? && !Distinct(v.keys) {
      var m, n :| 0 <= m < n < |v.keys| && v.keys[m] == v.keys[n];
      path, inner, i, j := [], v, m, n;
    } else {
      var k :| 0 <= k < |v.items| && !UniqueKeys(v.items[k]);
      path, inner, i, j := FindRepeats(v.items[k]);
      path := [k] + path;
      assert path[1..] == path[1..];
    }
  }

  /** A document is refused for a duplicate key exactly when some object in it has one. */
  lemma UniqueKeysExactly(v: Json)
    ensures UniqueKeys(v) <==> forall path, inner, i, j :: !Repeats(v, path, inner, i, j)
  {
    if UniqueKeys(v) {
      forall path, inner, i, j
        ensures !Repeats(v, path, inner, i, j)
      {
        NoRepeats(v, path, inner, i, j);
      }
    } else {
      var path, inner, i, j := FindRepeats(v);
    }
  }

  /** What parsing a text comes to: a document, or a failure after some objects were complete,
      whose keys are given in order. */
  datatype Parsed = Complete(v: Json) | Broken(objects: seq<seq<string>>)

  /** The hook that sees the keys of every complete object. */
  method RejectDuplicateKeys(keys: seq<string>) returns (ok: bool)
    ensures ok <==> Distinct(keys)
  {
    var result: set<string> := {};
    for i := 0 to |keys|
      invariant Distinct(keys[..i]) && forall key :: key in result <==> key in keys[..i]
    {
      assert keys[..i + 1] == keys[..i] + [keys[i]];
      if keys[i] in result {
        var k :| 0 <= k < i && keys[k] == keys[i];
        return false;
      }
      result := result + {keys[i]};
    }
    assert keys[..|keys|] == keys;
    ok := true;
  }

  function Flat(chunks: seq<Bytes>): Bytes {
    if chunks == [] then [] else Flat(chunks[..|chunks| - 1]) + chunks[|chunks| - 1]
  }

  lemma {:induction false} FlatExactly(chunks: seq<Bytes>, more: seq<Bytes>, chunk: Bytes)
    ensures Flat(chunks + more) == Flat(chunks) + Flat(more) && Flat([chunk]) == chunk
    decreases |more|
  {
    assert [chunk][..0] == [] && [] + chunk == chunk;
    if more == [] {
      assert chunks + more == chunks;
    } else {
      FlatExactly(chunks, more[..|more| - 1], chunk);
      LastJoins(chunks, more);
      assert (chunks + more)[..|chunks + more| - 1] == chunks + more[..|more| - 1];
      Assoc(Flat(chunks), Flat(more[..|more| - 1]), more[|more| - 1]);
    }
  }

  lemma {:induction false} FlatGrows(chunks: seq<Bytes>, n: nat)
    requires n <= |chunks|
    ensures |Flat(chunks[..n])| <= |Flat(chunks)|
    decreases |chunks|
  {
    if n == |chunks| {
      assert chunks[..n] == chunks;
    } else {
      var most := chunks[..|chunks| - 1];
      assert most[..n] == chunks[..n];
      FlatGrows(most, n);
    }
  }

  /** The length a server announces: none, or no digits; a number; or digits that cannot be read
      as one. */
  datatype Length = Absent | Declared(bytes: nat) | Unreadable

  /** A body that is declared or found to be longer than the cap. */
  predicate Oversized(declared: Length, chunks: seq<Bytes>, maxBytes: nat) {
    (declared.Declared? && declared.bytes > maxBytes) || |Flat(chunks)| > maxBytes
  }

  /** Read a body chunk by chunk. Reading stops as soon as the cap is passed. */
  method ReadCapped(declared: Length, chunks: seq<Bytes>, maxBytes: nat) returns (r: Result<Bytes, FetchError>)
    ensures declared == Unreadable ==> r == Err(Uncaught)
    ensures declared != Unreadable ==>
              r == if Oversized(declared, chunks, maxBytes) then Err(TooLarge) else Ok(Flat(chunks))
  {
    if declared == Unreadable {
      return Err(Uncaught);
    }
    if declared.Declared? && declared.bytes > maxBytes {
      return Err(TooLarge);
    }
    var body, total := [], 0;
    for i := 0 to |chunks|
      invariant body == Flat(chunks[..i]) && total == |body| <= maxBytes
    {
      assert chunks[..i + 1][..i] == chunks[..i];
      total := total + |chunks[i]|;
      if total > maxBytes {
        FlatGrows(chunks, i + 1);
        return Err(TooLarge);
      }
      body := body + chunks[i];
    }
    assert chunks[..|chunks|] == chunks;
    r := Ok(body);
  }

  /** The limits of a fetch. */
  datatype Policy = Policy(maxRedirects: nat, maxBytes: nat, maxDepth: nat)

  /** Parse strictly: a duplicate key is reported when its object is complete, so before any
      failure further on. */
  method ParseStrict(parsed: Parsed, maxDepth: nat) returns (r: Result<Json, FetchError>)
    ensures ParsedAs(parsed, maxDepth, r)
  {
    match parsed {
      case Broken(objects) =>
        for i := 0 to |objects|
          invariant forall k :: 0 <= k < i ==> Distinct(objects[k])
        {
          var ok := RejectDuplicateKeys(objects[i]);
          if !ok {
            return Err(DuplicateKey);
          }
        }
        r := Err(Unparsable);
      case Complete(v) =>
        if !UniqueKeys(v) {
          return Err(DuplicateKey);
        }
        var deepest := NestingDepth(v);
        r := if deepest > maxDepth then Err(TooDeep) else Ok(v);
    }
  }

  /** What the result of strict parsing says about the text. */
  ghost predicate ParsedAs(parsed: Parsed, maxDepth: nat, r: Result<Json, FetchError>) {
    match r
    case Ok(v) => parsed == Complete(v) && UniqueKeys(v) && Depth(v) <= maxDepth
    case Err(Unparsable) => parsed.Broken? && forall k :: 0 <= k < |parsed.objects| ==> Distinct(parsed.objects[k])
    case Err(DuplicateKey) =>
      if parsed.Complete? then !UniqueKeys(parsed.v)
      else exists k :: 0 <= k < |parsed.objects| && !Distinct(parsed.objects[k])
    case Err(TooDeep) => parsed.Complete? && UniqueKeys(parsed.v) && Depth(parsed.v) > maxDepth
    case Err(_) => false
  }

  /** Read and parse a document; `parse` is the JSON parser of the library. */
  method ReadDocument(parse: Bytes -> Parsed, policy: Policy, declared: Length, chunks: seq<Bytes>)
    returns (r: Result<Json, FetchError>)
    ensures Accepted(parse, policy, declared, chunks, r)
  {
    var body :- ReadCapped(declared, chunks, policy.maxBytes);
    r := ParseStrict(parse(body), policy.maxDepth);
  }

  /** What the result for a document says about it. */
  ghost predicate Accepted(parse: Bytes -> Parsed, policy: Policy, declared: Length, chunks: seq<Bytes>,
                           r: Result<Json, FetchError>)
  {
    if declared == Unreadable then r == Err(Uncaught)
    else if Oversized(declared, chunks, policy.maxBytes) then r == Err(TooLarge)
    else ParsedAs(parse(Flat(chunks)), policy.maxDepth, r)
  }

  // ---- redirects ----

  datatype RedirectRule = NoRedirect | WwwOnly | SameSite

  predicate WwwPair(a: string, b: string) {
    a == "www." + b || b == "www." + a
  }

  predicate HasSuffix(s: string, suffix: string) {
    |s| >= |suffix| && s[|s| - |suffix|..] == suffix
  }

  /** What is left of an authority after its host: nothing, or the port. */
  function PortSuffix(c: CanonicalUrl): string {
    if |c.host| <= |c.authority| then c.authority[|c.host|..] else ""
  }

  predicate RedirectAllowed(h: Hosts, rule: RedirectRule, original: string, target: string) {
    var orig, next := Canonicalize(h, original), Canonicalize(h, target);
    if orig.Err? || next.Err? then false
    else if next.value.scheme != "https" || rule.NoRedirect? then false
    else if PortSuffix(orig.value) != PortSuffix(next.value) then false
    else if next.value.host == orig.value.host then true
    else if rule.WwwOnly? then WwwPair(next.value.host, orig.value.host)
    else WwwPair(next.value.host, orig.value.host) || HasSuffix(next.value.host, "." + orig.value.host)
  }

  /** The check of a URL before it is requested: it may refuse the URL or run out of time, and
      raises another exception when the URL cannot even be split. */
  datatype Clearance = Cleared | Refuses | Raises

  /** What a server answers. Lost stands for a connection that fails or a fetch that times out
      before the answer is complete. */
  datatype Response =
    | Redirect(location: string)
    | Failure(status: int)
    | Document(declared: Length, chunks: seq<Bytes>)
    | Lost

  /** The check, the answers, the join of a relative location (None when it raises) and the
      parser are the environment's; the first two may differ from hop to hop. */
  datatype Network = Network(
    check: (nat, string) -> Clearance,
    answer: (nat, string) -> Response,
    join: (string, string) -> Option<string>,
    parse: Bytes -> Parsed)

  /** The URL a redirect leads to, or None when the hop ends the fetch. */
  function NextHop(allowed: string -> bool, net: Network, hop: nat, current: string): Option<string> {
    match net.answer(hop, current)
    case Redirect(location) =>
      var target := net.join(current, location);
      if target.Some? && location != "" && allowed(target.value) then target else None
    case _ => None
  }

  /** `next` is the URL to request after `visited`. */
  ghost predicate Leads(allowed: string -> bool, url: string, net: Network, visited: seq<string>, next: string) {
    var n := |visited|;
    if n == 0 then next == url else NextHop(allowed, net, n - 1, visited[n - 1]) == Some(next)
  }

  /** A legal chain of requests: each URL was cleared when requested, and is where the
      requests before it led. */
  ghost predicate Chain(allowed: string -> bool, url: string, net: Network, visited: seq<string>) {
    forall k {:trigger visited[k]} :: 0 <= k < |visited| ==>
      net.check(k, visited[k]) == Cleared && Leads(allowed, url, net, visited[..k], visited[k])
  }

  /** What a finished fetch says about the requests it made: it is explained by the last answer,
      by a refusal before any answer, or by the number of redirects. */
  ghost predicate Explains(allowed: string -> bool, policy: Policy, url: string, net: Network,
                           visited: seq<string>, r: Result<Json, FetchError>)
  {
    var n := |visited|;
    match r
    case Err(Refused) =>
      && n <= policy.maxRedirects
      && exists next :: net.check(n, next) == Refuses && Leads(allowed, url, net, visited, next)
    case Err(TooManyRedirects) =>
      n == policy.maxRedirects + 1 && NextHop(allowed, net, n - 1, visited[n - 1]).Some?
    case Err(Uncaught) =>
      || (&& n <= policy.maxRedirects
          && exists next :: net.check(n, next) == Raises && Leads(allowed, url, net, visited, next))
      || (n > 0 && Settled(net, policy, n - 1, visited[n - 1], r))
    case _ =>
      && n > 0 && NextHop(allowed, net, n - 1, visited[n - 1]).None?
      && Settled(net, policy, n - 1, visited[n - 1], r)
  }

  /** What the answer that ends a fetch makes of it. */
  ghost predicate Settled(net: Network, policy: Policy, hop: nat, current: string, r: Result<Json, FetchError>) {
    match net.answer(hop, current)
    case Redirect(location) => r == Err(if net.join(current, location).None? then Uncaught else NotPermitted)
    case Failure(status) => r == Err(HttpStatus(status))
    case Lost => r == Err(Transport)
    case Document(declared, chunks) => Accepted(net.parse, policy, declared, chunks, r)
  }

  lemma ChainGrows(allowed: string -> bool, url: string, net: Network, visited: seq<string>, next: string)
    requires Chain(allowed, url, net, visited) && Leads(allowed, url, net, visited, next)
    requires net.check(|visited|, next) == Cleared
    ensures Chain(allowed, url, net, visited + [next])
  {
    var v := visited + [next];
    forall k | 0 <= k < |v|
      ensures net.check(k, v[k]) == Cleared && Leads(allowed, url, net, v[..k], v[k])
    {
      assert v[..k] == visited[..k];
      assert visited[..|visited|] == visited;
    }
  }

  /** What one request leads to: the next URL, or the end of the fetch. */
  method Request(allowed: string -> bool, policy: Policy, net: Network, hop: nat, current: string)
    returns (next: Option<string>, r: Result<Json, FetchError>)
    ensures next == NextHop(allowed, net, hop, current)
    ensures next.None? ==> Settled(net, policy, hop, current, r) && r != Err(Refused) && r != Err(TooManyRedirects)
  {
    next, r := None, Err(NotPermitted);
    match net.answer(hop, current) {
      case Redirect(location) =>
        var target := net.join(current, location);
        if target.None? {
          r := Err(Uncaught);
        } else if location != "" && allowed(target.value) {
          next := target;
        }
      case Failure(status) =>
        r := Err(HttpStatus(status));
      case Lost =>
        r := Err(Transport);
      case Document(declared, chunks) =>
        r := ReadDocument(net.parse, policy, declared, chunks);
    }
  }

  /** The hop loop, where `allowed` decides on redirect targets. `visited` are the URLs
      actually requested. */
  method Fetch(allowed: string -> bool, policy: Policy, url: string, net: Network)
    returns (r: Result<Json, FetchError>, ghost visited: seq<string>)
    ensures Chain(allowed, url, net, visited)
    ensures |visited| <= policy.maxRedirects + 1
    ensures Explains(allowed, policy, url, net, visited, r)
  {
    var current := url;
    visited := [];
    for hop := 0 to policy.maxRedirects + 1
      invariant |visited| == hop
      invariant Chain(allowed, url, net, visited)
      invariant Leads(allowed, url, net, visited, current)
    {
      var clearance := net.check(hop, current);
      if clearance != Cleared {
        return Err(if clearance == Refuses then Refused else Uncaught), visited;
      }
      ChainGrows(allowed, url, net, visited, current);
      visited := visited + [current];
      var next: Option<string>;
      next, r := Request(allowed, policy, net, hop, current);
      if next.None? {
        return;
      }
      current := next.value;
    }
    r := Err(TooManyRedirects);
  }

  /** The decision the fetcher uses: every target is judged against the first URL. */
  function Permitted(h: Hosts, rule: RedirectRule, url: string): string -> bool {
    target => RedirectAllowed(h, rule, url, target)
  }

  /** No chain of redirects, however long, leaves the site of the first URL: every later
      request is HTTPS on the same port, and its host is the first host, its www counterpart
      or, under the same-site rule only, a subdomain. Without redirects nothing follows. */
  lemma ChainStaysOnSite(h: Hosts, rule: RedirectRule, url: string, net: Network, visited: seq<string>, k: nat)
    requires Chain(Permitted(h, rule, url), url, net, visited)
    requires 0 < k < |visited|
    ensures !rule.NoRedirect?
    ensures CanonicalParts(h, url).Ok? && CanonicalParts(h, visited[k]).Ok?
    ensures var orig, next := CanonicalParts(h, url).value, CanonicalParts(h, visited[k]).value;
            && next.scheme == "https"
            && next.port == orig.port
            && (next.host == orig.host || next.host == "www." + orig.host || orig.host == "www." + next.host
                || (rule.SameSite? && exists sub :: next.host == sub + ("." + orig.host)))
  {
    assert Permitted(h, rule, url)(visited[k]) by {
      assert Leads(Permitted(h, rule, url), url, net, visited[..k], visited[k]);
    }
    AllowedExactly(h, rule, url, visited[k]);
  }

  /** A redirect is allowed exactly when redirects are, both URLs are accepted, and the target is
      HTTPS on the same port and on the same host, its www counterpart or, under the same-site
      rule only, a subdomain. */
  lemma AllowedExactly(h: Hosts, rule: RedirectRule, url: string, target: string)
    ensures RedirectAllowed(h, rule, url, target) <==>
            && rule != NoRedirect && CanonicalParts(h, url).Ok? && CanonicalParts(h, target).Ok?
            && var orig, next := CanonicalParts(h, url).value, CanonicalParts(h, target).value;
               && next.scheme == "https" && next.port == orig.port
               && (next.host == orig.host || next.host == "www." + orig.host || orig.host == "www." + next.host
                   || (rule == SameSite && exists sub :: next.host == sub + ("." + orig.host)))
  {
    if CanonicalParts(h, url).Ok? && CanonicalParts(h, target).Ok? {
      var orig, next := CanonicalParts(h, url).value, CanonicalParts(h, target).value;
      PortSuffixDecides(h, url, target);
      SuffixExactly(next.host, "." + orig.host);
    }
  }

  lemma SuffixExactly(s: string, suffix: string)
    ensures HasSuffix(s, suffix) <==> exists before :: s == before + suffix
  {
    if HasSuffix(s, suffix) {
      assert s == s[..|s| - |suffix|] + suffix;
    }
    if before :| s == before + suffix {
      assert s[|s| - |suffix|..] == suffix;
    }
  }

  lemma PortSuffixDecides(h: Hosts, url: string, target: string)
    requires CanonicalParts(h, url).Ok? && CanonicalParts(h, target).Ok?
    ensures PortSuffix(Canonicalize(h, url).value) == PortSuffix(Canonicalize(h, target).value) <==>
            CanonicalParts(h, url).value.port == CanonicalParts(h, target).value.port
  {
    PortSuffixText(h, url);
    PortSuffixText(h, target);
    var p, q := CanonicalParts(h, url).value.port, CanonicalParts(h, target).value.port;
    assert p != "" ==> (":" + p)[1..] == p;
    assert q != "" ==> (":" + q)[1..] == q;
  }

  lemma PortSuffixText(h: Hosts, url: string)
    requires CanonicalParts(h, url).Ok?
    ensures var port := CanonicalParts(h, url).value.port;
            PortSuffix(Canonicalize(h, url).value) == if port == "" then "" else ":" + port
  {
    var r := CanonicalParts(h, url).value;
    var tail := if r.port == "" then "" else ":" + r.port;
    assert Authority(r.host, r.port) == r.host + tail;
    assert (r.host + tail)[|r.host|..] == tail;
  }
}
