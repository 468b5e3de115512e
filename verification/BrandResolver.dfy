/** brand.json resolution: the chain of document hops, and the cache in front of it. */
module BrandResolver {
  import opened Wrappers
  import opened Text
  import opened Environment
  import opened TtlCache

  /** The code of a BrandAuthorizationError; Uncaught is any other exception. */
  datatype Code =
    | Unavailable
    | Malformed
    | RedirectLoop
    | NotInPortfolio
    | Ambiguous
    | HouseNotPortfolio
    | AgentOnly
    | Uncaught

  // ---- following documents ----

  datatype House = NoHouse | HouseName(domain: string) | HouseObject

  /** A document as far as following it goes; `content` stands for the rest. */
  datatype Document = Document(location: Option<string>, house: House, content: string)

  /** Lower case, without surrounding space and without one trailing root dot. */
  function NormalizeDomain(s: string): string {
    var t := Lower(Strip(s));
    if EndsWith(t, '.') then t[..|t| - 1] else t
  }

  lemma LowerDotted(domain: string)
    requires domain != "" && domain[|domain| - 1] != '.'
    ensures Lower(domain + ".") == Lower(domain) + "." && !EndsWith(Lower(domain), '.')
  {}

  /** A domain is compared in lower case, without white space around it and without one dot at
      its end. */
  lemma DomainExactly(before: string, domain: string, after: string)
    requires Blank(before) && Blank(after)
    requires domain != "" && !IsSpace(domain[0]) && domain[|domain| - 1] != '.' && !IsSpace(domain[|domain| - 1])
    ensures NormalizeDomain(before + (domain + after)) == Lower(domain)
    ensures NormalizeDomain(before + ((domain + ".") + after)) == Lower(domain)
  {
    LowerDotted(domain);
    StripText(before, domain, after);
    DottedStays(domain);
    StripText(before, domain + ".", after);
    assert (Lower(domain) + ".")[..|domain|] == Lower(domain);
  }

  lemma DottedStays(domain: string)
    requires domain != "" && !IsSpace(domain[0])
    ensures var s := domain + "."; s != "" && !IsSpace(s[0]) && !IsSpace(s[|s| - 1])
  {}

  function WellKnown(domain: string): string {
    "https://" + domain + "/.well-known/brand.json"
  }

  const HTTPS := "https://"
  const MAX_HOPS := 3

  /** One hop more is tried before following gives up. */
  const HOPS_TRIED := 4

  /** Where a resolution stands: a document, and the domain it speaks for. */
  datatype Place = Place(doc: Document, domain: string)

  /** The document names no other document. */
  predicate Final(p: Place) {
    p.doc.location.None? && !p.doc.house.HouseName?
  }

  /** The URL of the document a place leads to; None when the document names no HTTPS URL. */
  function Target(p: Place): Option<string>
    requires !Final(p)
  {
    if p.doc.location.None? then Some("https://" + NormalizeDomain(p.doc.house.domain) + "/.well-known/brand.json")
    else if "https://" <= p.doc.location.value then p.doc.location
    else None
  }

  /** The place reached with the document at that URL. */
  function Arrive(p: Place, doc: Document): Place
    requires !Final(p)
  {
    Place(doc, if p.doc.location.Some? then p.domain else NormalizeDomain(p.doc.house.domain))
  }

  /** The place a document that is not final leads to. `get` fetches a URL. */
  function Next(get: string -> Result<Document, Code>, p: Place): Result<Place, Code>
    requires !Final(p)
  {
    match Target(p)
    case None => Err(Malformed)
    case Some(url) =>
      var doc :- get(url);
      Ok(Arrive(p, doc))
  }

  /** Follow at most n documents from here, the last of which is not looked at. */
  function FollowFrom(get: string -> Result<Document, Code>, p: Place, n: nat): Result<Place, Code>
    decreases n
  {
    if n == 0 then Err(RedirectLoop)
    else if Final(p) then Ok(p)
    else
      var q :- Next(get, p);
      FollowFrom(get, q, n - 1)
  }

  datatype Fetch = Fetch(url: string, answer: Result<Document, Code>)

  /** The documents of the web, which may change; `fetched` records every fetch. */
  class Web {
    ghost var fetched: seq<Fetch>

    constructor ()
      ensures fetched == []
    {
      fetched := [];
    }

    method Get(url: string) returns (r: Result<Document, Code>)
      modifies this
      ensures fetched == old(fetched) + [Fetch(url, r)]
    {
      r := *;
      fetched := fetched + [Fetch(url, r)];
    }
  }

  /** Each place is where the fetch after the one before it arrived. */
  ghost predicate Path(fetched: seq<Fetch>, places: seq<Place>) {
    && |places| <= |fetched|
    && forall k :: 0 < k < |places| ==> Hop(places[k - 1], fetched[k], places[k])
  }

  ghost predicate Hop(p: Place, f: Fetch, q: Place) {
    !Final(p) && Target(p) == Some(f.url) && f.answer.Ok? && q == Arrive(p, f.answer.value)
  }

  /** How following ends at the last place: after four hops without looking at it; otherwise
      because it is final, names no HTTPS URL, or names one that cannot be fetched. */
  ghost predicate Ended(fetched: seq<Fetch>, places: seq<Place>, r: Result<Place, Code>)
    requires places != []
  {
    var last := places[|places| - 1];
    if |places| == MAX_HOPS + 2 then |fetched| == |places| && r == Err(RedirectLoop)
    else if Final(last) then |fetched| == |places| < MAX_HOPS + 2 && r == Ok(last)
    else
      match Target(last)
      case None => |fetched| == |places| < MAX_HOPS + 2 && r == Err(Malformed)
      case Some(url) =>
        && |fetched| == |places| + 1 <= MAX_HOPS + 2
        && fetched[|places|].url == url && fetched[|places|].answer.Err? && r == Err(fetched[|places|].answer.error)
  }

  /** The fetches made for a domain, the places reached, and what came of it. */
  ghost predicate Followed(domain: string, fetched: seq<Fetch>, places: seq<Place>, r: Result<Place, Code>) {
    && fetched != [] && fetched[0].url == "https://" + domain + "/.well-known/brand.json"
    && match fetched[0].answer
       case Err(e) => |fetched| == 1 && places == [] && r == Err(e)
       case Ok(doc) =>
         places != [] && places[0] == Place(doc, domain) && Path(fetched, places) && Ended(fetched, places, r)
  }

  lemma PathGrows(fetched: seq<Fetch>, places: seq<Place>, f: Fetch, q: Place)
    requires Path(fetched, places) && |fetched| == |places| > 0 && Hop(places[|places| - 1], f, q)
    ensures Path(fetched + [f], places + [q])
  {
    var places1, fetched1 := places + [q], fetched + [f];
    forall k | 0 < k < |places1|
      ensures Hop(places1[k - 1], fetched1[k], places1[k])
    {
      assert k < |places| ==> places1[k - 1] == places[k - 1] && fetched1[k] == fetched[k] && places1[k] == places[k];
    }
  }

  lemma PathKept(fetched: seq<Fetch>, places: seq<Place>, f: Fetch)
    requires Path(fetched, places)
    ensures Path(fetched + [f], places)
  {
    assert forall k :: 0 <= k < |fetched| ==> (fetched + [f])[k] == fetched[k];
  }

  /** Follow documents until one names no other. */
  method Follow(web: Web, domain: string)
    returns (r: Result<Place, Code>, ghost fetched: seq<Fetch>, ghost places: seq<Place>)
    modifies web
    ensures web.fetched == old(web.fetched) + fetched
    ensures Followed(domain, fetched, places, r)
  {
    var currentDomain := domain;
    var first := web.Get(WellKnown(domain));
    fetched, places := [Fetch(WellKnown(domain), first)], [];
    if first.Err? {
      return Err(first.error), fetched, places;
    }
    var doc := first.value;
    places := [Place(doc, domain)];
    for i := 0 to MAX_HOPS + 1
      invariant web.fetched == old(web.fetched) + fetched
      invariant |fetched| == |places| == i + 1 && Path(fetched, places)
      invariant fetched[0] == Fetch(WellKnown(domain), Ok(places[0].doc)) && places[0].domain == domain
      invariant places[i] == Place(doc, currentDomain)
    {
      var url;
      if doc.location.Some? {
        if !(HTTPS <= doc.location.value) {
          return Err(Malformed), fetched, places;
        }
        url := doc.location.value;
      } else if doc.house.HouseName? {
        currentDomain := NormalizeDomain(doc.house.domain);
        url := WellKnown(currentDomain);
      } else {
        return Ok(Place(doc, currentDomain)), fetched, places;
      }
      var next := web.Get(url);
      if next.Err? {
        PathKept(fetched, places, Fetch(url, next));
        return Err(next.error), fetched + [Fetch(url, next)], places;
      }
      doc := next.value;
      PathGrows(fetched, places, Fetch(url, next), Place(doc, currentDomain));
      fetched, places := fetched + [Fetch(url, next)], places + [Place(doc, currentDomain)];
    }
    r := Err(RedirectLoop);
  }

  /** A chain of documents, each leading to the next. */
  ghost predicate Chain(get: string -> Result<Document, Code>, p: Place, chain: seq<Place>) {
    && chain != [] && chain[0] == p
    && forall k :: 0 <= k < |chain| - 1 ==> !Final(chain[k]) && Next(get, chain[k]) == Ok(chain[k + 1])
  }

  lemma ChainTail(get: string -> Result<Document, Code>, p: Place, chain: seq<Place>)
    requires Chain(get, p, chain) && |chain| > 1
    ensures Chain(get, chain[1], chain[1..]) && !Final(p) && Next(get, p) == Ok(chain[1])
  {
    assert Next(get, chain[0]) == Ok(chain[0 + 1]);
    forall k | 0 <= k < |chain[1..]| - 1
      ensures !Final(chain[1..][k]) && Next(get, chain[1..][k]) == Ok(chain[1..][k + 1])
    {
      assert chain[1..][k] == chain[k + 1] && chain[1..][k + 1] == chain[(k + 1) + 1];
    }
  }

  lemma ChainCons(get: string -> Result<Document, Code>, p: Place, q: Place, rest: seq<Place>)
    requires !Final(p) && Next(get, p) == Ok(q) && Chain(get, q, rest)
    ensures Chain(get, p, [p] + rest)
  {
    var chain := [p] + rest;
    forall k | 0 <= k < |chain| - 1
      ensures !Final(chain[k]) && Next(get, chain[k]) == Ok(chain[k + 1])
    {
      if k > 0 {
        assert chain[k] == rest[k - 1] && chain[k + 1] == rest[(k - 1) + 1];
      }
    }
  }

  /** The chain that explains a result of FollowFrom. */
  lemma {:induction false} Explain(get: string -> Result<Document, Code>, p: Place, n: nat) returns (chain: seq<Place>)
    ensures Chain(get, p, chain) && |chain| <= n + 1
    ensures var r := FollowFrom(get, p, n); var last := chain[|chain| - 1];
            match r
            case Ok(q) => |chain| <= n && last == q && Final(q)
            case Err(e) => if |chain| == n + 1 then e == RedirectLoop
                           else !Final(last) && Next(get, last) == Err(e)
    decreases n
  {
    if n == 0 || Final(p) {
      chain := [p];
    } else {
      var q := Next(get, p);
      if q.Err? {
        chain := [p];
      } else {
        var rest := Explain(get, q.value, n - 1);
        ChainCons(get, p, q.value, rest);
        chain := [p] + rest;
        assert chain[|chain| - 1] == rest[|rest| - 1];
      }
    }
  }

  lemma {:induction false} FollowChain(get: string -> Result<Document, Code>, p: Place, n: nat, chain: seq<Place>)
    requires Chain(get, p, chain) && |chain| <= n + 1
    requires |chain| <= n ==> Final(chain[|chain| - 1])
    ensures FollowFrom(get, p, n) == if |chain| <= n then Ok(chain[|chain| - 1]) else Err(RedirectLoop)
    decreases n
  {
    if |chain| <= 1 {
    } else {
      ChainTail(get, p, chain);
      FollowChain(get, chain[1], n - 1, chain[1..]);
      assert chain[1..][|chain| - 2] == chain[|chain| - 1];
    }
  }

  /** A chain of at most n places that ends at a final one, q. */
  ghost predicate Ends(get: string -> Result<Document, Code>, p: Place, n: nat, q: Place, chain: seq<Place>) {
    Chain(get, p, chain) && |chain| <= n && chain[|chain| - 1] == q && Final(q)
  }

  lemma ReachesExactly(get: string -> Result<Document, Code>, p: Place, n: nat, q: Place)
    ensures FollowFrom(get, p, n) == Ok(q) <==> exists chain :: Ends(get, p, n, q, chain)
  {
    var why := Explain(get, p, n);
    if FollowFrom(get, p, n) == Ok(q) {
      assert Ends(get, p, n, q, why);
    }
    if chain :| Ends(get, p, n, q, chain) {
      FollowChain(get, p, n, chain);
    }
  }

  /** A chain of n hops. */
  ghost predicate Hops(get: string -> Result<Document, Code>, p: Place, n: nat, chain: seq<Place>) {
    Chain(get, p, chain) && |chain| == n + 1
  }

  lemma NoLoopInNext(get: string -> Result<Document, Code>, p: Place)
    requires !Final(p) && forall url :: get(url) != Err(RedirectLoop)
    ensures Next(get, p) != Err(RedirectLoop)
  {}

  lemma LoopsExactly(get: string -> Result<Document, Code>, p: Place, n: nat)
    requires forall url :: get(url) != Err(RedirectLoop)
    ensures FollowFrom(get, p, n) == Err(RedirectLoop) <==> exists chain :: Hops(get, p, n, chain)
  {
    var why := Explain(get, p, n);
    if |why| == n + 1 {
      assert Hops(get, p, n, why);
    } else if !Final(why[|why| - 1]) {
      NoLoopInNext(get, why[|why| - 1]);
    }
    if chain :| Hops(get, p, n, chain) {
      FollowChain(get, p, n, chain);
    }
  }

  /** Following ends at a place exactly when that place is final and at most three hops away; it
      reports a loop exactly when four hops can be fetched, unless a fetch itself says so. */
  lemma WithinThreeHops(get: string -> Result<Document, Code>, p: Place, q: Place)
    ensures FollowFrom(get, p, HOPS_TRIED) == Ok(q) <==> exists chain :: Ends(get, p, HOPS_TRIED, q, chain)
    ensures (forall url :: get(url) != Err(RedirectLoop)) ==>
            (FollowFrom(get, p, HOPS_TRIED) == Err(RedirectLoop) <==>
             exists chain :: Hops(get, p, HOPS_TRIED, chain))
  {
    ReachesExactly(get, p, HOPS_TRIED, q);
    if forall url :: get(url) != Err(RedirectLoop) {
      LoopsExactly(get, p, HOPS_TRIED);
    }
  }

  // ---- how many documents are fetched ----

  /** The web did not change during these fetches. */
  ghost predicate Unchanged(get: string -> Result<Document, Code>, fetched: seq<Fetch>) {
    forall k :: 0 <= k < |fetched| ==> fetched[k].answer == get(fetched[k].url)
  }

  lemma {:induction false} FollowedFrom(get: string -> Result<Document, Code>, domain: string, fetched: seq<Fetch>,
                                        places: seq<Place>, r: Result<Place, Code>, k: nat)
    requires Followed(domain, fetched, places, r) && Unchanged(get, fetched) && k < |places|
    ensures |places| <= MAX_HOPS + 2 && FollowFrom(get, places[k], MAX_HOPS + 1 - k) == r
    decreases |places| - k
  {
    if k == |places| - 1 {
    } else {
      assert Hop(places[k + 1 - 1], fetched[k + 1], places[k + 1]);
      FollowedFrom(get, domain, fetched, places, r, k + 1);
    }
  }

  /** On a web that does not change, following computes the specification function. */
  lemma FollowAgrees(get: string -> Result<Document, Code>, domain: string, fetched: seq<Fetch>,
                     places: seq<Place>, r: Result<Place, Code>)
    requires Followed(domain, fetched, places, r) && Unchanged(get, fetched)
    ensures r == match get(WellKnown(domain))
                 case Err(e) => Err(e)
                 case Ok(doc) => FollowFrom(get, Place(doc, domain), MAX_HOPS + 1)
  {
    if places != [] {
      FollowedFrom(get, domain, fetched, places, r, 0);
    }
  }

  /** At most five documents are fetched, and what the fifth one holds makes no difference: once
      fetched, following gives up. */
  lemma FifthUnseen(domain: string, fetched: seq<Fetch>, places: seq<Place>, r: Result<Place, Code>)
    requires Followed(domain, fetched, places, r)
    ensures |fetched| <= MAX_HOPS + 2
    ensures |fetched| == MAX_HOPS + 2 ==>
            r == Err(if fetched[MAX_HOPS + 1].answer.Ok? then RedirectLoop else fetched[MAX_HOPS + 1].answer.error)
  {
    if |places| == MAX_HOPS + 2 {
      assert Hop(places[MAX_HOPS + 1 - 1], fetched[MAX_HOPS + 1], places[MAX_HOPS + 1]);
    }
  }

  lemma {:induction false} PlacesAreChain(get: string -> Result<Document, Code>, domain: string, fetched: seq<Fetch>,
                                          places: seq<Place>, r: Result<Place, Code>, chain: seq<Place>, k: nat)
    requires Followed(domain, fetched, places, r) && Unchanged(get, fetched) && places != []
    requires Chain(get, places[0], chain) && k < |chain| && k <= MAX_HOPS + 1
    ensures k < |places| && places[k] == chain[k]
  {
    if k == 0 {
    } else {
      PlacesAreChain(get, domain, fetched, places, r, chain, k - 1);
      assert Next(get, chain[k - 1]) == Ok(chain[k - 1 + 1]);
      if k < |places| {
        assert Hop(places[k - 1], fetched[k], places[k]);
      }
    }
  }

  /** Three hops lead to a place that names one more document. */
  ghost predicate NamesFifth(get: string -> Result<Document, Code>, p: Place, chain: seq<Place>) {
    && Chain(get, p, chain) && |chain| == MAX_HOPS + 1
    && !Final(chain[MAX_HOPS]) && Target(chain[MAX_HOPS]).Some?
  }

  /** Five documents are fetched exactly when the first can be, and three hops from it lead to a
      place that names one more. */
  lemma FiveExactly(get: string -> Result<Document, Code>, domain: string, fetched: seq<Fetch>,
                    places: seq<Place>, r: Result<Place, Code>)
    requires Followed(domain, fetched, places, r) && Unchanged(get, fetched)
    ensures |fetched| == MAX_HOPS + 2 <==>
            && get(WellKnown(domain)).Ok?
            && exists chain :: NamesFifth(get, Place(get(WellKnown(domain)).value, domain), chain)
  {
    if |fetched| == MAX_HOPS + 2 {
      var chain := places[..MAX_HOPS + 1];
      forall k | 0 <= k < |chain| - 1
        ensures !Final(chain[k]) && Next(get, chain[k]) == Ok(chain[k + 1])
      {
        assert Hop(places[k + 1 - 1], fetched[k + 1], places[k + 1]);
      }
      if |places| == MAX_HOPS + 2 {
        assert Hop(places[MAX_HOPS + 1 - 1], fetched[MAX_HOPS + 1], places[MAX_HOPS + 1]);
      }
      assert NamesFifth(get, places[0], chain);
    }
    if get(WellKnown(domain)).Ok? {
      if chain :| NamesFifth(get, Place(get(WellKnown(domain)).value, domain), chain) {
        PlacesAreChain(get, domain, fetched, places, r, chain, MAX_HOPS);
      }
    }
  }

  const ELSEWHERE := Document(Some("https://a"), NoHouse, "")

  /** Documents that all lead elsewhere: five are fetched, and a loop is reported. */
  lemma FourHops(domain: string, fetched: seq<Fetch>, places: seq<Place>, r: Result<Place, Code>)
    requires Followed(domain, fetched, places, r) && Unchanged(url => Ok(ELSEWHERE), fetched)
    ensures |fetched| == MAX_HOPS + 2 && r == Err(RedirectLoop)
  {
    var get: string -> Result<Document, Code> := url => Ok(ELSEWHERE);
    var p := Place(ELSEWHERE, domain);
    assert HTTPS <= "https://a" by {
      assert "https://a"[..8] == HTTPS;
    }
    assert Next(get, p) == Ok(p);
    assert NamesFifth(get, p, [p, p, p, p]);
    FiveExactly(get, domain, fetched, places, r);
    FifthUnseen(domain, fetched, places, r);
  }

  // ---- the cache ----

  /** A resolution, as far as the cache is concerned. */
  datatype Resolution = Resolution(domain: string, brandId: Option<string>, content: string)

  type Key = (string, Option<string>)
  type Outcome = Result<Resolution, Code>
  type Loads = seq<Load<Key, Outcome>>

  /** Failures that are remembered; the others are resolved afresh every time. */
  predicate Remembered(c: Code) {
    c.Unavailable? || c.Malformed? || c.RedirectLoop?
  }

  function Life(ttl: real, negativeTtl: real): Outcome -> Option<real> {
    (r: Outcome) =>
      if r.Ok? then Some(ttl)
      else if r.error.Unavailable? || r.error.Malformed? || r.error.RedirectLoop? then Some(negativeTtl)
      else None
  }

  class BrandAuthorizationResolver {
    const ttl: real
    const negativeTtl: real
    var cache: map<Key, Entry<Outcome>>
    ghost var loads: Loads

    ghost predicate Consistent(now: real)
      reads this
    {
      && Sound(cache, loads, Life(ttl, negativeTtl))
      && Timely(loads, now)
      && Needed(loads, Life(ttl, negativeTtl))
    }

    constructor (ttl: real, negativeTtl: real)
      ensures forall now :: Consistent(now)
      ensures this.ttl == ttl && this.negativeTtl == negativeTtl && loads == []
    {
      this.ttl, this.negativeTtl := ttl, negativeTtl;
      cache, loads := map[], [];
    }

    /** Resolve past the cache: anything can come of it. */
    method ResolveUncached(key: Key, w: World) returns (r: Outcome)
      modifies w
      ensures w.now >= old(w.now)
    {
      var t := w.Clock();
      r := *;
    }

    /** The answer for a key: the outcome of a load made now, or, unless a refresh was forced,
        of a load whose lifetime is not over; only remembered failures are served. */
    ghost predicate Answers(before: Loads, key: Key, forceRefresh: bool, r: Outcome, asked: real)
      reads this
    {
      if loads == before then
        && !forceRefresh && Fresh(loads, Life(ttl, negativeTtl), key, r, asked)
        && (r.Err? ==> r.error.Unavailable? || r.error.Malformed? || r.error.RedirectLoop?)
      else
        && |loads| == |before| + 1 && loads[..|before|] == before
        && var l := loads[|before|];
           l.key == key && l.outcome == r && l.started >= asked && l.forced == forceRefresh
    }

    /** Resolve a brand, by its normalized domain. */
    method Resolve(domain: string, brandId: Option<string>, forceRefresh: bool, w: World)
      returns (r: Outcome, ghost asked: real)
      requires Consistent(w.now)
      modifies this, w
      ensures Consistent(w.now) && old(w.now) <= asked <= w.now
      ensures Answers(old(loads), (NormalizeDomain(domain), brandId), forceRefresh, r, asked)
    {
      r, asked := ResolveKey((NormalizeDomain(domain), brandId), forceRefresh, w);
    }

    method ResolveKey(key: Key, forceRefresh: bool, w: World) returns (r: Outcome, ghost asked: real)
      requires Consistent(w.now)
      modifies this, w
      ensures Consistent(w.now) && old(w.now) <= asked <= w.now
      ensures Answers(old(loads), key, forceRefresh, r, asked)
    {
      ghost var start := w.now;
      asked := w.now;
      if key in cache && !forceRefresh {
        var t := w.Clock();
        asked := t;
        if cache[key].expiresAt > t {
          ServedBrand(cache, loads, ttl, negativeTtl, key, start, t);
          r := cache[key].outcome;
          return;
        }
      }
      r := Refresh(key, forceRefresh, w);
    }

    /** Resolve past the cache, and cache the outcome when it is one to remember. */
    method Refresh(key: Key, ghost forced: bool, w: World) returns (r: Outcome)
      requires Consistent(w.now)
      requires !forced && key in cache ==> cache[key].expiresAt <= w.now
      modifies this, w
      ensures Consistent(w.now) && old(w.now) <= w.now
      ensures exists l :: loads == old(loads) + [l] && l.key == key && l.outcome == r && l.forced == forced
                          && l.started == old(w.now)
    {
      ghost var started := w.now;
      r := ResolveUncached(key, w);
      var finished := w.now;
      var next := cache;
      if r.Ok? || Remembered(r.error) {
        finished := w.Clock();
        next := cache[key := Entry(finished + (if r.Ok? then ttl else negativeTtl), r)];
      }
      Store(next, Load(key, started, finished, forced, r), started);
    }

    /** Replace the cache after a load, and log the load. */
    method Store(next: map<Key, Entry<Outcome>>, ghost l: Load<Key, Outcome>, ghost before: real)
      requires Consistent(before) && before <= l.started <= l.finished
      requires !l.forced && l.key in cache ==> cache[l.key].expiresAt <= l.started
      requires next == AfterLoad(cache, ttl, negativeTtl, l)
      modifies this
      ensures Consistent(l.finished) && loads == old(loads) + [l] && cache == next
    {
      LoggedBrand(cache, loads, ttl, negativeTtl, l, next, before, l.finished);
      cache := next;
      loads := loads + [l];
    }
  }

  /** The cache after a load: remembered outcomes replace what was cached for the key. */
  ghost function AfterLoad(cache: map<Key, Entry<Outcome>>, ttl: real, negativeTtl: real, l: Load<Key, Outcome>)
    : map<Key, Entry<Outcome>>
  {
    if l.outcome.Ok? then cache[l.key := Entry(l.finished + ttl, l.outcome)]
    else if Remembered(l.outcome.error) then cache[l.key := Entry(l.finished + negativeTtl, l.outcome)]
    else cache
  }

  lemma ServedBrand(cache: map<Key, Entry<Outcome>>, loads: Loads, ttl: real, negativeTtl: real,
                    key: Key, before: real, now: real)
    requires Sound(cache, loads, Life(ttl, negativeTtl)) && Timely(loads, before) && before <= now
    requires key in cache && now < cache[key].expiresAt
    ensures Timely(loads, now)
    ensures Fresh(loads, Life(ttl, negativeTtl), key, cache[key].outcome, now)
    ensures cache[key].outcome.Err? ==> Remembered(cache[key].outcome.error)
  {
    LaterTimely(loads, before, now);
    Served(cache, loads, Life(ttl, negativeTtl), key, now);
    assert Life(ttl, negativeTtl)(cache[key].outcome).Some?;
  }

  lemma LoggedBrand(cache: map<Key, Entry<Outcome>>, loads: Loads, ttl: real, negativeTtl: real,
                    l: Load<Key, Outcome>, next: map<Key, Entry<Outcome>>, before: real, now: real)
    requires Sound(cache, loads, Life(ttl, negativeTtl)) && Timely(loads, before)
             && Needed(loads, Life(ttl, negativeTtl))
    requires before <= l.started <= l.finished <= now
    requires !l.forced && l.key in cache ==> cache[l.key].expiresAt <= l.started
    requires next == AfterLoad(cache, ttl, negativeTtl, l)
    ensures Sound(next, loads + [l], Life(ttl, negativeTtl)) && Timely(loads + [l], now)
            && Needed(loads + [l], Life(ttl, negativeTtl))
    ensures (loads + [l])[..|loads|] == loads && (loads + [l])[|loads|] == l
  {
    Logged(cache, loads, Life(ttl, negativeTtl), l, next, before, now);
  }

  /** With documents that do not change, a cached answer is the uncached one. */
  lemma UnchangingResolution(loads: Loads, ttl: real, negativeTtl: real, uncached: Key -> Outcome,
                             key: Key, r: Outcome, asked: real, before: Loads)
    requires forall i :: 0 <= i < |loads| ==> loads[i].outcome == uncached(loads[i].key)
    requires before <= loads
    requires if loads == before then Fresh(loads, Life(ttl, negativeTtl), key, r, asked)
             else |loads| == |before| + 1 && loads[|before|].key == key && loads[|before|].outcome == r
    ensures r == uncached(key)
  {
    if loads == before {
      UnchangingAgrees(loads, Life(ttl, negativeTtl), uncached, key, r, asked);
    }
  }
}
