/** Seller authorization against a publisher's adagents.json. */
module Adagents {
  import opened Wrappers
  import opened Text
  import opened Environment
  import opened TtlCache
  import opened UrlCanon

  // ---- documents ----

  /** A property; one without an identifier is malformed and skipped. */
  datatype Property = Property(id: string, tags: seq<string>)

  /** A property selection, in a product or in a grant. An absent text is None or "". */
  datatype Selector = Selector(
    domain: Option<string>,
    domains: seq<string>,
    selection: string,
    propertyIds: seq<string>,
    propertyTags: seq<string>)

  /** One authorized_agents[] entry; times are None when absent or unreadable. */
  datatype Agent = Agent(
    url: Option<string>,
    kind: string,
    propertyIds: seq<string>,
    propertyTags: seq<string>,
    properties: seq<Property>,
    selectors: seq<Option<Selector>>,
    effectiveFrom: Option<int>,
    effectiveUntil: Option<int>,
    hasCollections: bool,
    countries: seq<string>,
    placementIds: seq<string>,
    hasPlacementTags: bool)

  /** Entries that are not objects are None. */
  datatype Document = Document(properties: seq<Property>, revoked: seq<string>, agents: seq<Option<Agent>>)

  /** What a purchase asks for: the present, its countries and its placements (empty when it
      names none). */
  datatype Purchase = Purchase(now: int, countries: seq<string>, placementIds: seq<string>)

  // ---- what is claimed and granted ----

  function Valid(props: seq<Property>): seq<Property> {
    if props == [] then []
    else
      var rest := Valid(props[1..]);
      if props[0].id != "" then [props[0]] + rest else rest
  }

  lemma {:induction false} ValidMembers(props: seq<Property>, p: Property)
    ensures p in Valid(props) <==> p in props && p.id != ""
  {
    if props == [] {
    } else {
      ValidMembers(props[1..], p);
      assert props == [props[0]] + props[1..];
    }
  }

  /** A property carries one of the tags. */
  predicate Tagged(p: Property, tags: seq<string>) {
    exists t :: t in tags && t in p.tags
  }

  function IdsWithTags(props: seq<Property>, tags: seq<string>): set<string> {
    set p | p in props && Tagged(p, tags) :: p.id
  }

  function ClaimedIds(sel: Selector, props: seq<Property>): set<string> {
    if sel.selection == "all" then set p | p in props :: p.id
    else if sel.selection == "by_id" then set i | i in sel.propertyIds
    else if sel.selection == "by_tag" then IdsWithTags(props, sel.propertyTags)
    else {}
  }

  /** The domains a granting selector speaks for. */
  function SelectorDomains(sel: Selector): seq<string> {
    if sel.domain.Some? && sel.domain.value != "" then [sel.domain.value] else sel.domains
  }

  predicate SpeaksFor(sel: Selector, domain: string) {
    exists d :: d in SelectorDomains(sel) && Lower(d) == domain
  }

  /** An entry grants a property of the publisher, whatever its scope. */
  predicate Grants(a: Agent, domain: string, props: seq<Property>, id: string) {
    match a.kind
    case "property_ids" => id in a.propertyIds
    case "property_tags" => id in IdsWithTags(props, a.propertyTags)
    case "inline_properties" => id != "" && exists p :: p in a.properties && p.id == id
    case "publisher_properties" =>
      exists s :: s in a.selectors && s.Some? && SpeaksFor(s.value, domain) && id in ClaimedIds(s.value, props)
    case _ => false
  }

  /** Collect what an entry grants. */
  method GrantedIds(a: Agent, domain: string, props: seq<Property>) returns (granted: set<string>)
    ensures forall id :: id in granted <==> Grants(a, domain, props, id)
  {
    if a.kind == "property_ids" {
      return set i | i in a.propertyIds;
    }
    if a.kind == "property_tags" {
      return IdsWithTags(props, a.propertyTags);
    }
    if a.kind == "inline_properties" {
      return set p | p in a.properties && p.id != "" :: p.id;
    }
    granted := {};
    if a.kind == "publisher_properties" {
      for n := 0 to |a.selectors|
        invariant forall id :: id in granted <==>
                    exists k :: 0 <= k < n && a.selectors[k].Some?
                                && SpeaksFor(a.selectors[k].value, domain)
                                   && id in ClaimedIds(a.selectors[k].value, props)
      {
        var s := a.selectors[n];
        if s.Some? {
          if SpeaksFor(s.value, domain) {
            granted := granted + ClaimedIds(s.value, props);
          }
        }
      }
    }
  }

  datatype ScopeReason =
    | NotYetEffective
    | Expired
    | CollectionScoped
    | CountryScoped
    | PlacementScoped
    | PlacementTagScoped

  function Uppercased(countries: seq<string>): set<string> {
    set c | c in countries :: Upper(c)
  }

  /** Why an entry does not apply to a purchase, or None when it applies. */
  function ScopeProblem(a: Agent, p: Purchase): Option<ScopeReason> {
    if a.effectiveFrom.Some? && p.now < a.effectiveFrom.value then Some(NotYetEffective)
    else if a.effectiveUntil.Some? && p.now >= a.effectiveUntil.value then Some(Expired)
    else if a.hasCollections then Some(CollectionScoped)
    else if a.countries != [] && (p.countries == [] || !(Uppercased(p.countries) <= Uppercased(a.countries)))
    then Some(CountryScoped)
    else if a.placementIds != [] && (p.placementIds == [] || exists i :: i in p.placementIds && i !in a.placementIds)
    then Some(PlacementScoped)
    else if a.hasPlacementTags && a.placementIds == [] then Some(PlacementTagScoped)
    else None
  }

  /** An entry applies inside its time window, when it is not scoped to collections or to
      placement tags alone, and when it is unscoped or covers all of the named countries and
      placements. */
  lemma AppliesExactly(a: Agent, p: Purchase)
    ensures ScopeProblem(a, p).None? <==>
            && (a.effectiveFrom.Some? ==> a.effectiveFrom.value <= p.now)
            && (a.effectiveUntil.Some? ==> p.now < a.effectiveUntil.value)
            && !a.hasCollections
            && (a.countries == [] ||
                (p.countries != []
                 && forall c :: c in p.countries ==> exists d :: d in a.countries && Upper(c) == Upper(d)))
            && (a.placementIds == [] ||
                (p.placementIds != [] && forall i :: i in p.placementIds ==> i in a.placementIds))
            && (a.hasPlacementTags ==> a.placementIds != [])
  {
    if forall c :: c in p.countries ==> exists d :: d in a.countries && Upper(c) == Upper(d) {
      forall u | u in Uppercased(p.countries)
        ensures u in Uppercased(a.countries)
      {
        var c :| c in p.countries && Upper(c) == u;
        var d :| d in a.countries && Upper(c) == Upper(d);
      }
    }
    if Uppercased(p.countries) <= Uppercased(a.countries) {
      forall c | c in p.countries
        ensures exists d :: d in a.countries && Upper(c) == Upper(d)
      {
        assert Upper(c) in Uppercased(p.countries);
      }
    }
  }

  /** Why an entry does not apply: the first of the six conditions, in this order. */
  lemma ReasonExactly(a: Agent, p: Purchase)
    ensures var early := a.effectiveFrom.Some? && p.now < a.effectiveFrom.value;
            var late := a.effectiveUntil.Some? && a.effectiveUntil.value <= p.now;
            var abroad := a.countries != [] && !(p.countries != []
              && forall c :: c in p.countries ==> exists d :: d in a.countries && Upper(c) == Upper(d));
            var elsewhere := a.placementIds != [] && !(p.placementIds != []
              && forall i :: i in p.placementIds ==> i in a.placementIds);
            ScopeProblem(a, p) ==
            if early then Some(NotYetEffective)
            else if late then Some(Expired)
            else if a.hasCollections then Some(CollectionScoped)
            else if abroad then Some(CountryScoped)
            else if elsewhere then Some(PlacementScoped)
            else if a.hasPlacementTags && a.placementIds == [] then Some(PlacementTagScoped)
            else None
  {
    var b := Agent(None, "", [], [], [], [], None, None, false, a.countries, [], false);
    AppliesExactly(b, Purchase(p.now, p.countries, []));
  }

  // ---- what is claimed and granted, in the terms of the document ----

  /** Some tag of the property is one of these tags. */
  ghost predicate SharesTag(p: Property, tags: seq<string>) {
    exists i, j :: 0 <= i < |p.tags| && 0 <= j < |tags| && p.tags[i] == tags[j]
  }

  /** A selector claims a property of the document, by its kind of selection. */
  ghost predicate Claims(sel: Selector, doc: Document, id: string) {
    || (sel.selection == "all" && id != "" && exists p :: p in doc.properties && p.id == id)
    || (sel.selection == "by_id" && id in sel.propertyIds)
    || (sel.selection == "by_tag" && id != ""
        && exists p :: p in doc.properties && p.id == id && SharesTag(p, sel.propertyTags))
  }

  /** A granting selector names the domain, alone or in its list. */
  ghost predicate Names(sel: Selector, domain: string) {
    if sel.domain.Some? && sel.domain.value != "" then Lower(sel.domain.value) == domain
    else exists k :: 0 <= k < |sel.domains| && Lower(sel.domains[k]) == domain
  }

  /** An entry gives a property of the document, by its kind of authorization. */
  ghost predicate Gives(a: Agent, doc: Document, domain: string, id: string) {
    || (a.kind == "property_ids" && id in a.propertyIds)
    || (a.kind == "property_tags" && id != ""
        && exists p :: p in doc.properties && p.id == id && SharesTag(p, a.propertyTags))
    || (a.kind == "inline_properties" && id != "" && exists p :: p in a.properties && p.id == id)
    || (a.kind == "publisher_properties"
        && exists k :: 0 <= k < |a.selectors| && a.selectors[k].Some?
             && Names(a.selectors[k].value, domain) && Claims(a.selectors[k].value, doc, id))
  }

  lemma SharesTagExactly(p: Property, tags: seq<string>)
    ensures Tagged(p, tags) <==> SharesTag(p, tags)
  {
    if Tagged(p, tags) {
      var t :| t in tags && t in p.tags;
      var i, j :| 0 <= i < |p.tags| && 0 <= j < |tags| && p.tags[i] == t && tags[j] == t;
    }
    if i, j :| 0 <= i < |p.tags| && 0 <= j < |tags| && p.tags[i] == tags[j] {
      assert tags[j] in tags && tags[j] in p.tags;
    }
  }

  lemma WithTagsExactly(doc: Document, tags: seq<string>, id: string)
    ensures id in IdsWithTags(Valid(doc.properties), tags) <==>
            id != "" && exists p :: p in doc.properties && p.id == id && SharesTag(p, tags)
  {
    forall p
      ensures p in Valid(doc.properties) <==> p in doc.properties && p.id != ""
      ensures Tagged(p, tags) <==> SharesTag(p, tags)
    {
      ValidMembers(doc.properties, p);
      SharesTagExactly(p, tags);
    }
  }

  lemma ClaimedExactly(sel: Selector, doc: Document, id: string)
    ensures id in ClaimedIds(sel, Valid(doc.properties)) <==> Claims(sel, doc, id)
  {
    WithTagsExactly(doc, sel.propertyTags, id);
    forall p
      ensures p in Valid(doc.properties) <==> p in doc.properties && p.id != ""
    {
      ValidMembers(doc.properties, p);
    }
  }

  lemma NamesExactly(sel: Selector, domain: string)
    ensures SpeaksFor(sel, domain) <==> Names(sel, domain)
  {}

  lemma GrantsExactly(a: Agent, doc: Document, domain: string, id: string)
    ensures Grants(a, domain, Valid(doc.properties), id) <==> Gives(a, doc, domain, id)
  {
    WithTagsExactly(doc, a.propertyTags, id);
    forall k | 0 <= k < |a.selectors| && a.selectors[k].Some?
      ensures SpeaksFor(a.selectors[k].value, domain) <==> Names(a.selectors[k].value, domain)
      ensures id in ClaimedIds(a.selectors[k].value, Valid(doc.properties)) <==> Claims(a.selectors[k].value, doc, id)
    {
      NamesExactly(a.selectors[k].value, domain);
      ClaimedExactly(a.selectors[k].value, doc, id);
    }
    if a.kind == "publisher_properties" {
      PublisherGrants(a, doc, domain, id);
    }
  }

  lemma PublisherGrants(a: Agent, doc: Document, domain: string, id: string)
    requires forall k :: 0 <= k < |a.selectors| && a.selectors[k].Some? ==>
      && (SpeaksFor(a.selectors[k].value, domain) <==> Names(a.selectors[k].value, domain))
      && (id in ClaimedIds(a.selectors[k].value, Valid(doc.properties)) <==> Claims(a.selectors[k].value, doc, id))
    requires a.kind == "publisher_properties"
    ensures Grants(a, domain, Valid(doc.properties), id) <==> Gives(a, doc, domain, id)
  {}

  // ---- the declarative rule ----

  /** `same` says whether an entry's URL is the seller's (URL canonicalization decides). */
  ghost predicate Listed(doc: Document, same: string -> bool, a: Agent) {
    Some(a) in doc.agents && a.url.Some? && same(a.url.value)
  }

  /** Some entry of the seller is in scope and grants the property. */
  ghost predicate Covered(doc: Document, same: string -> bool, p: Purchase, domain: string, id: string) {
    exists a :: Listed(doc, same, a) && ScopeProblem(a, p).None? && Grants(a, domain, Valid(doc.properties), id)
  }

  predicate Revoked(doc: Document, domain: string) {
    exists r :: r in doc.revoked && Lower(r) == domain
  }

  /** A property of the document has this identifier. */
  ghost predicate Known(doc: Document, id: string) {
    id != "" && exists q :: q in doc.properties && q.id == id
  }

  /** The seller may sell what the selector claims of the publisher. */
  ghost predicate Authorized(doc: Document, same: string -> bool, p: Purchase, sel: Selector, domain: string) {
    var props := Valid(doc.properties);
    var claimed := ClaimedIds(sel, props);
    && !Revoked(doc, domain)
    && claimed != {}
    && (sel.selection == "by_id" ==> forall id :: id in claimed ==> Known(doc, id))
    && (forall id :: id in claimed ==> Covered(doc, same, p, domain, id))
  }

  /** Why a product does not pass. Escaped is an exception from loading a document that is no
      FetchError: nothing turns it into a denial. */
  datatype Denial =
    | BadSelector
    | NoSelectors
    | Unavailable(message: string)
    | DomainRevoked
    | NothingClaimed
    | UnknownIds(ids: set<string>)
    | NotListed
    | OutOfScope(reasons: seq<ScopeReason>)
    | NotGranted(ids: set<string>)
    | Escaped

  /** The entries of the seller, in file order. */
  function Entries(agents: seq<Option<Agent>>, same: string -> bool): seq<Agent> {
    if agents == [] then []
    else
      var rest := Entries(agents[1..], same);
      if agents[0].Some? && agents[0].value.url.Some? && same(agents[0].value.url.value)
      then [agents[0].value] + rest else rest
  }

  lemma EntriesOfOne(a: Option<Agent>, same: string -> bool)
    ensures Entries([a], same) == if a.Some? && a.value.url.Some? && same(a.value.url.value) then [a.value] else []
  {
    assert [a][1..] == [];
  }

  /** Entries keep the order of the file. */
  lemma {:induction false} EntriesInOrder(left: seq<Option<Agent>>, right: seq<Option<Agent>>, same: string -> bool)
    ensures Entries(left + right, same) == Entries(left, same) + Entries(right, same)
  {
    if left == [] {
      assert left + right == right;
    } else {
      var rest := Entries(left[1..], same);
      EntriesInOrder(left[1..], right, same);
      assert (left + right)[1..] == left[1..] + right && (left + right)[0] == left[0];
      if left[0].Some? {
        Assoc([left[0].value], rest, Entries(right, same));
      }
    }
  }

  lemma {:induction false} EntriesListed(agents: seq<Option<Agent>>, same: string -> bool, a: Agent)
    ensures a in Entries(agents, same) <==> Some(a) in agents && a.url.Some? && same(a.url.value)
  {
    if agents == [] {
    } else {
      EntriesListed(agents[1..], same, a);
      assert agents == [agents[0]] + agents[1..];
    }
  }

  /** Why entries do not apply, in file order. */
  function Problems(entries: seq<Agent>, p: Purchase): seq<ScopeReason> {
    if entries == [] then []
    else
      var earlier, problem := Problems(entries[..|entries| - 1], p), ScopeProblem(entries[|entries| - 1], p);
      if problem.Some? then earlier + [problem.value] else earlier
  }

  /** Collect what the entries in scope grant, and why the others are not in scope. */
  method GrantsInScope(entries: seq<Agent>, domain: string, props: seq<Property>, p: Purchase)
    returns (granted: set<string>, reasons: seq<ScopeReason>)
    ensures forall id :: id in granted <==>
              exists k :: 0 <= k < |entries| && ScopeProblem(entries[k], p).None?
                && Grants(entries[k], domain, props, id)
    ensures reasons == Problems(entries, p)
  {
    granted, reasons := {}, [];
    for n := 0 to |entries|
      invariant reasons == Problems(entries[..n], p)
      invariant forall id :: id in granted <==>
                  exists k :: 0 <= k < n && ScopeProblem(entries[k], p).None? && Grants(entries[k], domain, props, id)
    {
      assert entries[..n + 1][..n] == entries[..n];
      var problem := ScopeProblem(entries[n], p);
      if problem.Some? {
        reasons := reasons + [problem.value];
      } else {
        var more := GrantedIds(entries[n], domain, props);
        granted := granted + more;
      }
    }
    assert entries[..|entries|] == entries;
  }

  function KnownIds(props: seq<Property>): set<string> {
    set q | q in props :: q.id
  }

  /** What a verdict on a selector says about the document; the conditions are those under
      which the checks before it passed. */
  ghost predicate Verdict(doc: Document, same: string -> bool, p: Purchase, sel: Selector, domain: string,
                          r: Result<(), Denial>)
  {
    var props := Valid(doc.properties);
    var claimed := ClaimedIds(sel, props);
    var known := sel.selection == "by_id" ==> claimed <= KnownIds(props);
    var entries := Entries(doc.agents, same);
    match r
    case Ok(_) =>
      && !Revoked(doc, domain) && claimed != {} && known
      && forall id :: id in claimed ==> Covered(doc, same, p, domain, id)
    case Err(DomainRevoked) => Revoked(doc, domain)
    case Err(NothingClaimed) => !Revoked(doc, domain) && claimed == {}
    case Err(UnknownIds(ids)) =>
      !Revoked(doc, domain) && sel.selection == "by_id" && ids == claimed - KnownIds(props) && ids != {}
    case Err(NotListed) => !Revoked(doc, domain) && claimed != {} && known && entries == []
    case Err(OutOfScope(reasons)) =>
      && !Revoked(doc, domain) && claimed != {} && known && entries != []
      && reasons == Problems(entries, p) && reasons != []
      && exists id :: id in claimed && !Covered(doc, same, p, domain, id)
    case Err(NotGranted(ids)) =>
      && !Revoked(doc, domain) && claimed != {} && known && entries != []
      && Problems(entries, p) == [] && ids != {}
      && forall id :: id in ids <==> id in claimed && !Covered(doc, same, p, domain, id)
    case Err(_) => false
  }

  lemma KnownExactly(doc: Document, id: string)
    ensures id in KnownIds(Valid(doc.properties)) <==> Known(doc, id)
  {
    forall q
      ensures q in Valid(doc.properties) <==> q in doc.properties && q.id != ""
    {
      ValidMembers(doc.properties, q);
    }
  }

  /** A selector passes exactly when the declarative rule authorizes it. */
  lemma VerdictIsExact(doc: Document, same: string -> bool, p: Purchase, sel: Selector, domain: string,
                       r: Result<(), Denial>)
    requires Verdict(doc, same, p, sel, domain, r)
    ensures r.Ok? <==> Authorized(doc, same, p, sel, domain)
  {
    var props := Valid(doc.properties);
    forall id
      ensures id in KnownIds(props) <==> Known(doc, id)
    {
      KnownExactly(doc, id);
    }
    if r == Err(NotListed) {
      var id :| id in ClaimedIds(sel, props);
      if Covered(doc, same, p, domain, id) {
        var a :| Listed(doc, same, a);
        EntriesListed(doc.agents, same, a);
      }
    }
  }

  /** An entry of the seller, listed in the document, is in force for the purchase: inside its
      time window, not scoped to collections or to placement tags alone, and covering all named
      countries and placements if it names any. */
  ghost predicate InForce(doc: Document, same: string -> bool, p: Purchase, a: Agent) {
    && Some(a) in doc.agents && a.url.Some? && same(a.url.value)
    && (a.effectiveFrom.Some? ==> a.effectiveFrom.value <= p.now)
    && (a.effectiveUntil.Some? ==> p.now < a.effectiveUntil.value)
    && !a.hasCollections && (a.hasPlacementTags ==> a.placementIds != [])
    && (a.countries == []
        || (p.countries != []
            && forall c :: c in p.countries ==> exists d :: d in a.countries && Upper(c) == Upper(d)))
    && (a.placementIds == []
        || (p.placementIds != [] && forall i :: i in p.placementIds ==> i in a.placementIds))
  }

  /** Some entry in force gives the property. */
  ghost predicate Given(doc: Document, same: string -> bool, p: Purchase, domain: string, id: string) {
    exists a :: InForce(doc, same, p, a) && Gives(a, doc, domain, id)
  }

  lemma GivenExactly(doc: Document, same: string -> bool, p: Purchase, domain: string, id: string)
    ensures Covered(doc, same, p, domain, id) <==> Given(doc, same, p, domain, id)
  {
    forall a
      ensures Listed(doc, same, a) && ScopeProblem(a, p).None? <==> InForce(doc, same, p, a)
      ensures Grants(a, domain, Valid(doc.properties), id) <==> Gives(a, doc, domain, id)
    {
      AppliesExactly(a, p);
      GrantsExactly(a, doc, domain, id);
    }
  }

  /** What a verdict means, in the terms of the document and of the purchase. */
  ghost predicate Meant(doc: Document, same: string -> bool, p: Purchase, sel: Selector, domain: string,
                        r: Result<(), Denial>)
  {
    var revoked := exists k :: 0 <= k < |doc.revoked| && Lower(doc.revoked[k]) == domain;
    match r
    case Ok(_) =>
      && !revoked && (exists id :: Claims(sel, doc, id))
      && (forall id :: Claims(sel, doc, id) ==> Given(doc, same, p, domain, id))
      && (sel.selection == "by_id" ==>
            forall id :: id in sel.propertyIds ==> Known(doc, id))
    case Err(DomainRevoked) => revoked
    case Err(NothingClaimed) => !revoked && forall id :: !Claims(sel, doc, id)
    case Err(UnknownIds(ids)) =>
      && !revoked && sel.selection == "by_id" && ids != {}
      && forall id :: id in ids <==> id in sel.propertyIds && !Known(doc, id)
    case Err(NotListed) =>
      !revoked && forall a :: Some(a) in doc.agents && a.url.Some? ==> !same(a.url.value)
    case Err(OutOfScope(_)) => !revoked && exists id :: Claims(sel, doc, id) && !Given(doc, same, p, domain, id)
    case Err(NotGranted(ids)) =>
      !revoked && ids != {} && forall id :: id in ids <==> Claims(sel, doc, id) && !Given(doc, same, p, domain, id)
    case Err(_) => false
  }

  lemma RevokedExactly(doc: Document, domain: string)
    ensures Revoked(doc, domain) <==> exists k :: 0 <= k < |doc.revoked| && Lower(doc.revoked[k]) == domain
  {}

  lemma NotListedMeans(doc: Document, same: string -> bool)
    requires Entries(doc.agents, same) == []
    ensures forall a :: Some(a) in doc.agents && a.url.Some? ==> !same(a.url.value)
  {
    forall a | Some(a) in doc.agents && a.url.Some?
      ensures !same(a.url.value)
    {
      EntriesListed(doc.agents, same, a);
    }
  }

  lemma ClaimedAll(sel: Selector, doc: Document)
    ensures forall id :: id in ClaimedIds(sel, Valid(doc.properties)) <==> Claims(sel, doc, id)
  {
    forall id
      ensures id in ClaimedIds(sel, Valid(doc.properties)) <==> Claims(sel, doc, id)
    {
      ClaimedExactly(sel, doc, id);
    }
  }

  lemma GivenAll(doc: Document, same: string -> bool, p: Purchase, domain: string)
    ensures forall id :: Covered(doc, same, p, domain, id) <==> Given(doc, same, p, domain, id)
  {
    forall id
      ensures Covered(doc, same, p, domain, id) <==> Given(doc, same, p, domain, id)
    {
      GivenExactly(doc, same, p, domain, id);
    }
  }

  lemma SomeClaimed(sel: Selector, doc: Document)
    ensures ClaimedIds(sel, Valid(doc.properties)) != {} <==> exists id :: Claims(sel, doc, id)
  {
    ClaimedAll(sel, doc);
    if ClaimedIds(sel, Valid(doc.properties)) != {} {
      var id :| id in ClaimedIds(sel, Valid(doc.properties));
      assert Claims(sel, doc, id);
    }
  }

  lemma UnknownMeans(doc: Document, sel: Selector, ids: set<string>)
    requires sel.selection == "by_id" && ids == ClaimedIds(sel, Valid(doc.properties)) - KnownIds(Valid(doc.properties))
    ensures forall id :: id in ids <==> id in sel.propertyIds && !Known(doc, id)
  {
    forall id
      ensures id in KnownIds(Valid(doc.properties)) <==> Known(doc, id)
    {
      KnownExactly(doc, id);
    }
  }

  /** The selector passes, in both readings. */
  lemma AuthorizedMeans(doc: Document, same: string -> bool, p: Purchase, sel: Selector, domain: string)
    ensures Authorized(doc, same, p, sel, domain) <==> Meant(doc, same, p, sel, domain, Ok(()))
  {
    RevokedExactly(doc, domain);
    SomeClaimed(sel, doc);
    ClaimedAll(sel, doc);
    GivenAll(doc, same, p, domain);
    assert sel.selection == "by_id" ==> ClaimedIds(sel, Valid(doc.properties)) == set i | i in sel.propertyIds;
  }

  lemma DenialMeans(doc: Document, same: string -> bool, p: Purchase, sel: Selector, domain: string, e: Denial)
    requires Verdict(doc, same, p, sel, domain, Err(e))
    ensures Meant(doc, same, p, sel, domain, Err(e))
  {
    RevokedExactly(doc, domain);
    match e
    case NothingClaimed =>
      ClaimedAll(sel, doc);
    case UnknownIds(ids) =>
      UnknownMeans(doc, sel, ids);
    case NotListed =>
      NotListedMeans(doc, same);
    case OutOfScope(_) =>
      ClaimedAll(sel, doc);
      GivenAll(doc, same, p, domain);
    case NotGranted(_) =>
      ClaimedAll(sel, doc);
      GivenAll(doc, same, p, domain);
    case _ =>
  }

  /** A verdict means what it says. */
  lemma VerdictMeans(doc: Document, same: string -> bool, p: Purchase, sel: Selector, domain: string,
                     r: Result<(), Denial>)
    requires Verdict(doc, same, p, sel, domain, r)
    ensures Meant(doc, same, p, sel, domain, r)
  {
    match r
    case Ok(_) =>
      VerdictIsExact(doc, same, p, sel, domain, r);
      AuthorizedMeans(doc, same, p, sel, domain);
    case Err(e) =>
      DenialMeans(doc, same, p, sel, domain, e);
  }

  /** Check one selector against a loaded document. */
  method CheckSelector(doc: Document, same: string -> bool, p: Purchase, sel: Selector, domain: string)
    returns (r: Result<(), Denial>)
    ensures Verdict(doc, same, p, sel, domain, r) && Meant(doc, same, p, sel, domain, r)
  {
    r := Judge(doc, same, p, sel, domain);
    VerdictMeans(doc, same, p, sel, domain, r);
  }

  /** The checks on a selector, in order. */
  method Judge(doc: Document, same: string -> bool, p: Purchase, sel: Selector, domain: string)
    returns (r: Result<(), Denial>)
    ensures Verdict(doc, same, p, sel, domain, r)
  {
    if Revoked(doc, domain) {
      return Err(DomainRevoked);
    }
    var props := Valid(doc.properties);
    var claimed := ClaimedIds(sel, props);
    if claimed == {} {
      return Err(NothingClaimed);
    }
    var unknown := claimed - KnownIds(props);
    assert forall id :: id in claimed && id !in KnownIds(props) ==> id in unknown;
    assert unknown == {} ==> claimed <= KnownIds(props);
    if unknown != {} && sel.selection == "by_id" {
      return Err(UnknownIds(unknown));
    }
    var entries := Entries(doc.agents, same);
    if entries == [] {
      return Err(NotListed);
    }
    var granted, reasons := GrantsInScope(entries, domain, props, p);
    forall id
      ensures id in granted <==> Covered(doc, same, p, domain, id)
    {
      GrantedIsCovered(doc, same, p, domain, entries, id);
    }
    var missing := claimed - granted;
    if missing != {} {
      var id :| id in missing;
      return Err(if reasons != [] then OutOfScope(reasons) else NotGranted(missing));
    }
    return Ok(());
  }

  lemma GrantedIsCovered(doc: Document, same: string -> bool, p: Purchase, domain: string, entries: seq<Agent>,
                         id: string)
    requires entries == Entries(doc.agents, same)
    ensures (exists k :: 0 <= k < |entries| && ScopeProblem(entries[k], p).None?
                         && Grants(entries[k], domain, Valid(doc.properties), id))
            <==> Covered(doc, same, p, domain, id)
  {
    if Covered(doc, same, p, domain, id) {
      var a :| Listed(doc, same, a) && ScopeProblem(a, p).None? && Grants(a, domain, Valid(doc.properties), id);
      EntriesListed(doc.agents, same, a);
    }
    var props := Valid(doc.properties);
    if k :| 0 <= k < |entries| && ScopeProblem(entries[k], p).None? && Grants(entries[k], domain, props, id) {
      EntriesListed(doc.agents, same, entries[k]);
    }
  }

  // ---- consequences of the rule ----

  /** Only the set of entries matters: not their order, not repetitions. */
  lemma OrderDoesNotMatter(doc: Document, agents: seq<Option<Agent>>, same: string -> bool, p: Purchase, sel: Selector,
                           domain: string)
    requires forall a :: a in doc.agents <==> a in agents
    ensures Authorized(doc, same, p, sel, domain) <==> Authorized(doc.(agents := agents), same, p, sel, domain)
  {
    MoreEntries(doc, agents, same, p, sel, domain);
    MoreEntries(doc.(agents := agents), doc.agents, same, p, sel, domain);
    assert doc.(agents := agents).(agents := doc.agents) == doc;
  }

  /** Adding entries takes no authorization away. */
  lemma MoreEntries(doc: Document, agents: seq<Option<Agent>>, same: string -> bool, p: Purchase, sel: Selector,
                    domain: string)
    requires forall a :: a in doc.agents ==> a in agents
    ensures Authorized(doc, same, p, sel, domain) ==> Authorized(doc.(agents := agents), same, p, sel, domain)
  {
    var more := doc.(agents := agents);
    forall id | Covered(doc, same, p, domain, id)
      ensures Covered(more, same, p, domain, id)
    {
      var a :| Listed(doc, same, a) && ScopeProblem(a, p).None? && Grants(a, domain, Valid(doc.properties), id);
      assert Listed(more, same, a);
    }
  }

  lemma NarrowerScope(a: Agent, p: Purchase, q: Purchase)
    requires q.now == p.now
    requires q.countries == p.countries || (q.countries != [] && Uppercased(q.countries) <= Uppercased(p.countries))
    requires q.placementIds == p.placementIds
             || (q.placementIds != [] && forall i :: i in q.placementIds ==> i in p.placementIds)
    requires ScopeProblem(a, p).None?
    ensures ScopeProblem(a, q).None?
  {
    if a.countries != [] {
      assert p.countries != [] && Uppercased(p.countries) <= Uppercased(a.countries);
    }
    assert a.placementIds != [] ==> p.placementIds != [] && forall i :: i in p.placementIds ==> i in a.placementIds;
  }

  /** What is authorized for some countries and placements is authorized for fewer of them, as
      long as narrowing does not stop naming any. */
  lemma NarrowerPurchase(doc: Document, same: string -> bool, p: Purchase, q: Purchase, sel: Selector, domain: string)
    requires q.now == p.now
    requires q.countries == p.countries || (q.countries != [] && Uppercased(q.countries) <= Uppercased(p.countries))
    requires q.placementIds == p.placementIds
             || (q.placementIds != [] && forall i :: i in q.placementIds ==> i in p.placementIds)
    requires Authorized(doc, same, p, sel, domain)
    ensures Authorized(doc, same, q, sel, domain)
  {
    forall id | Covered(doc, same, p, domain, id)
      ensures Covered(doc, same, q, domain, id)
    {
      var a :| Listed(doc, same, a) && ScopeProblem(a, p).None? && Grants(a, domain, Valid(doc.properties), id);
      NarrowerScope(a, p, q);
    }
  }

  /** An entry is the seller's when its URL is equivalent to the seller's. */
  function SameUrl(h: Hosts, seller: string): string -> bool {
    url => UrlsEquivalent(h, url, seller)
  }

  lemma {:induction false} EntriesAlike(agents: seq<Option<Agent>>, left: string -> bool, right: string -> bool)
    requires forall url :: left(url) == right(url)
    ensures Entries(agents, left) == Entries(agents, right)
  {
    if agents == [] {
    } else {
      EntriesAlike(agents[1..], left, right);
    }
  }

  lemma CoveredAlike(doc: Document, left: string -> bool, right: string -> bool, p: Purchase, domain: string,
                     id: string)
    requires forall url :: left(url) == right(url)
    ensures Covered(doc, left, p, domain, id) ==> Covered(doc, right, p, domain, id)
  {
    if Covered(doc, left, p, domain, id) {
      var a :| Listed(doc, left, a) && ScopeProblem(a, p).None? && Grants(a, domain, Valid(doc.properties), id);
      assert Listed(doc, right, a);
    }
  }

  lemma VerdictAlike(doc: Document, left: string -> bool, right: string -> bool, p: Purchase, sel: Selector,
                     domain: string, r: Result<(), Denial>)
    requires forall url :: left(url) == right(url)
    ensures Verdict(doc, left, p, sel, domain, r) ==> Verdict(doc, right, p, sel, domain, r)
  {
    EntriesAlike(doc.agents, left, right);
    forall id
      ensures Covered(doc, left, p, domain, id) <==> Covered(doc, right, p, domain, id)
    {
      CoveredAlike(doc, left, right, p, domain, id);
      CoveredAlike(doc, right, left, p, domain, id);
    }
  }

  lemma SameUrlAlike(h: Hosts, left: string, right: string, url: string)
    requires UrlsEquivalent(h, left, right)
    ensures SameUrl(h, left)(url) == SameUrl(h, right)(url)
  {}

  /** Sellers with equivalent URLs get the same verdict, down to the reason of a denial. */
  lemma EquivalentSellers(h: Hosts, left: string, right: string, doc: Document, p: Purchase, sel: Selector,
                          domain: string, r: Result<(), Denial>)
    requires UrlsEquivalent(h, left, right)
    ensures Verdict(doc, SameUrl(h, left), p, sel, domain, r) <==> Verdict(doc, SameUrl(h, right), p, sel, domain, r)
  {
    forall url
      ensures SameUrl(h, left)(url) == SameUrl(h, right)(url)
    {
      SameUrlAlike(h, left, right, url);
    }
    VerdictAlike(doc, SameUrl(h, left), SameUrl(h, right), p, sel, domain, r);
    VerdictAlike(doc, SameUrl(h, right), SameUrl(h, left), p, sel, domain, r);
  }

  // ---- the authorizer and its cache ----

  /** A FetchError with its message, or any other exception. */
  datatype LoadError = Failed(message: string) | Uncaught

  type Loaded = Result<Document, LoadError>
  type Loads = seq<Load<string, Loaded>>

  /** Documents and fetch errors are cached; other exceptions are not. */
  function Life(ttl: real, negativeTtl: real): Loaded -> Option<real> {
    (r: Loaded) => if r.Ok? then Some(ttl) else if r.error.Failed? then Some(negativeTtl) else None
  }

  const UNAVAILABLE := "adagents.json unavailable"

  /** What a caller gets for a cached outcome: an empty message is replaced. */
  function Raised(r: Loaded): Loaded {
    if r == Err(Failed("")) then Err(Failed(UNAVAILABLE)) else r
  }

  /** `r` answers a question asked at `asked`: it is the outcome of a load made for the
      question, or what is raised for a load before it whose lifetime was not over. */
  ghost predicate Answers(l: Load<string, Loaded>, life: Loaded -> Option<real>, r: Loaded, asked: real) {
    || (asked <= l.started && r == l.outcome)
    || (life(l.outcome).Some? && l.finished <= asked < l.finished + life(l.outcome).value && r == Raised(l.outcome))
  }

  ghost predicate Vouched(loads: Loads, life: Loaded -> Option<real>, key: string, r: Loaded, asked: real) {
    exists i :: 0 <= i < |loads| && loads[i].key == key && Answers(loads[i], life, r, asked)
  }

  lemma VouchedGrows(loads: Loads, more: Loads, life: Loaded -> Option<real>, key: string, r: Loaded, asked: real)
    requires Vouched(loads, life, key, r, asked) && loads <= more
    ensures Vouched(more, life, key, r, asked)
  {
    var i :| 0 <= i < |loads| && loads[i].key == key && Answers(loads[i], life, r, asked);
    assert more[i] == loads[i];
  }

  lemma VouchServed(loads: Loads, life: Loaded -> Option<real>, key: string, r: Loaded, asked: real)
    requires Fresh(loads, life, key, r, asked)
    ensures Vouched(loads, life, key, Raised(r), asked)
  {}

  lemma VouchLoaded(loads: Loads, after: Loads, life: Loaded -> Option<real>, key: string, r: Loaded, asked: real)
    requires exists l :: after == loads + [l] && l.key == key && l.outcome == r && asked <= l.started
    ensures Vouched(after, life, key, r, asked)
  {
    assert after[|loads|].key == key && Answers(after[|loads|], life, r, asked);
  }

  /** How one selector of a product was decided. */
  datatype Check = Check(domain: string, loaded: Loaded, asked: real, purchase: Purchase)

  class SalesAgentAuthorizer {
    const ttl: real
    const negativeTtl: real
    var cache: map<string, Entry<Loaded>>
    ghost var loads: Loads

    ghost predicate Consistent(now: real)
      reads this
    {
      && Sound(cache, loads, Life(ttl, negativeTtl))
      && Timely(loads, now)
      && Needed(loads, Life(ttl, negativeTtl))
    }

    constructor (ttl: real, negativeTtl: real)
      ensures forall now :: Consistent(now)
      ensures this.ttl == ttl && this.negativeTtl == negativeTtl && loads == []
    {
      this.ttl, this.negativeTtl := ttl, negativeTtl;
      cache, loads := map[], [];
    }

    /** Fetch and check a document: anything can come of it. */
    method FetchDocument(key: string, w: World) returns (r: Loaded)
      modifies w
      ensures w.now >= old(w.now)
    {
      var t := w.Clock();
      r := *;
    }

    /** Load a document that is not cached or whose entry has expired, and cache what comes of
        it, unless that is an exception other than a FetchError. */
    method LoadAdagents(key: string, w: World) returns (r: Loaded)
      requires Consistent(w.now) && (key in cache ==> cache[key].expiresAt <= w.now)
      modifies this, w
      ensures Consistent(w.now) && old(w.now) <= w.now
      ensures exists l :: loads == old(loads) + [l] && l.key == key && l.outcome == r && l.started == old(w.now)
    {
      ghost var started := w.now;
      r := FetchDocument(key, w);
      ghost var finished := w.now;
      var next := cache;
      if r.Ok? || r.error.Failed? {
        var t := w.Clock();
        finished := t;
        next := cache[key := Entry(t + (if r.Ok? then ttl else negativeTtl), r)];
      }
      Store(next, Load(key, started, finished, false, r), started, w.now);
    }

    /** Replace the cache after a load, and log the load. */
    method Store(next: map<string, Entry<Loaded>>, ghost l: Load<string, Loaded>, ghost before: real, ghost now: real)
      requires Consistent(before) && before <= l.started <= l.finished <= now
      requires l.key in cache ==> cache[l.key].expiresAt <= l.started
      requires if l.outcome.Ok? then next == cache[l.key := Entry(l.finished + ttl, l.outcome)]
               else if l.outcome.error.Failed? then next == cache[l.key := Entry(l.finished + negativeTtl, l.outcome)]
               else next == cache
      modifies this
      ensures Consistent(now) && loads == old(loads) + [l]
    {
      Logged(cache, loads, Life(ttl, negativeTtl), l, next, before, now);
      cache := next;
      loads := loads + [l];
    }

    /** The document of a publisher. Loads are logged; each was needed when it was made. */
    method GetAdagents(domain: string, w: World) returns (r: Loaded, ghost asked: real)
      requires Consistent(w.now)
      modifies this, w
      ensures Consistent(w.now) && old(w.now) <= asked <= w.now
      ensures old(loads) <= loads && |loads| <= |old(loads)| + 1
      ensures Vouched(loads, Life(ttl, negativeTtl), Lower(domain), r, asked)
    {
      var key := Lower(domain);
      ghost var life, start := Life(ttl, negativeTtl), w.now;
      asked := w.now;
      if key in cache {
        var t := w.Clock();
        asked := t;
        if cache[key].expiresAt > t {
          LaterTimely(loads, start, t);
          Served(cache, loads, life, key, t);
          VouchServed(loads, life, key, cache[key].outcome, t);
          r := Raised(cache[key].outcome);
          return;
        }
      }
      r := LoadAdagents(key, w);
      VouchLoaded(old(loads), loads, life, key, r, asked);
    }

    /** Verify every selector of a product, in order, stopping at the first denial. The
        wall clock is read for each selector. */
    method VerifyProduct(w: World, same: string -> bool, selectors: Option<seq<Option<Selector>>>,
                         countries: seq<string>, placementIds: seq<string>)
      returns (r: Result<(), Denial>, ghost checks: seq<Check>)
      requires Consistent(w.now)
      modifies this, w
      ensures Consistent(w.now) && old(loads) <= loads
      ensures selectors.None? || selectors.value == [] ==> r == Err(NoSelectors)
      ensures AllVouched(loads, Life(ttl, negativeTtl), checks, old(w.now), countries, placementIds)
      ensures r.Ok? ==> selectors.Some? && |checks| == |selectors.value| > 0 && AllPass(selectors.value, same, checks)
      ensures r.Err? && !(selectors.None? || selectors.value == []) ==>
                FirstDenied(selectors.value, same, checks, r.error)
    {
      checks := [];
      if selectors.None? || selectors.value == [] {
        return Err(NoSelectors), checks;
      }
      ghost var life, start := Life(ttl, negativeTtl), w.now;
      for n := 0 to |selectors.value|
        invariant Consistent(w.now) && old(loads) <= loads && w.now >= start
        invariant |checks| == n && AllPass(selectors.value, same, checks)
        invariant AllVouched(loads, life, checks, start, countries, placementIds)
      {
        var sel := selectors.value[n];
        if Malformed(sel) {
          return Err(BadSelector), checks;
        }
        var domain := Lower(sel.value.domain.value);
        ghost var before := loads;
        var loaded, asked := GetAdagents(domain, w);
        LowerIdempotent(sel.value.domain.value);
        var now: int := *;
        var purchase := Purchase(now, countries, placementIds);
        ghost var check := Check(domain, loaded, asked, purchase);
        AddCheck(before, loads, life, checks, check, start, countries, placementIds);
        ghost var passed := checks;
        checks := checks + [check];
        if loaded.Err? {
          AddDenied(selectors.value, same, passed, check, LoadDenial(loaded.error));
          return Err(LoadDenial(loaded.error)), checks;
        }
        var decided := CheckSelector(loaded.value, same, purchase, sel.value, domain);
        VerdictIsExact(loaded.value, same, purchase, sel.value, domain, decided);
        if decided.Err? {
          AddDenied(selectors.value, same, passed, check, decided.error);
          return Err(decided.error), checks;
        }
        AddPass(selectors.value, same, passed, check);
      }
      r := Ok(());
    }
  }

  /** Every check is about the purchase and was decided on a document its publisher vouches
      for. */
  ghost predicate AllVouched(loads: Loads, life: Loaded -> Option<real>, checks: seq<Check>, start: real,
                             countries: seq<string>, placementIds: seq<string>)
  {
    forall k :: 0 <= k < |checks| ==>
      && Vouched(loads, life, checks[k].domain, checks[k].loaded, checks[k].asked)
      && checks[k].asked >= start
      && checks[k].purchase.countries == countries && checks[k].purchase.placementIds == placementIds
  }

  lemma AddCheck(before: Loads, loads: Loads, life: Loaded -> Option<real>, checks: seq<Check>, check: Check,
                 start: real, countries: seq<string>, placementIds: seq<string>)
    requires before <= loads && AllVouched(before, life, checks, start, countries, placementIds)
    requires AllVouched(loads, life, [check], start, countries, placementIds)
    ensures AllVouched(loads, life, checks + [check], start, countries, placementIds)
  {
    assert [check][0] == check;
    forall k | 0 <= k < |checks|
      ensures Vouched(loads, life, checks[k].domain, checks[k].loaded, checks[k].asked)
    {
      VouchedGrows(before, loads, life, checks[k].domain, checks[k].loaded, checks[k].asked);
    }
  }

  /** Check k is about selector k, and passed. */
  ghost predicate Passes(selectors: seq<Option<Selector>>, same: string -> bool, checks: seq<Check>, k: nat)
    requires k < |checks| <= |selectors|
  {
    && selectors[k].Some? && selectors[k].value.domain.Some?
    && checks[k].domain == Lower(selectors[k].value.domain.value)
    && checks[k].loaded.Ok?
    && Authorized(checks[k].loaded.value, same, checks[k].purchase, selectors[k].value, checks[k].domain)
  }

  ghost predicate AllPass(selectors: seq<Option<Selector>>, same: string -> bool, checks: seq<Check>) {
    |checks| <= |selectors| && forall k :: 0 <= k < |checks| ==> Passes(selectors, same, checks, k)
  }

  /** A further check, about the next selector, that passes. */
  lemma AddPass(selectors: seq<Option<Selector>>, same: string -> bool, checks: seq<Check>, check: Check)
    requires |checks| < |selectors| && AllPass(selectors, same, checks) && !Malformed(selectors[|checks|])
    requires check.domain == Lower(selectors[|checks|].value.domain.value) && check.loaded.Ok?
    requires Authorized(check.loaded.value, same, check.purchase, selectors[|checks|].value, check.domain)
    ensures AllPass(selectors, same, checks + [check])
  {
    var next := checks + [check];
    assert next[|checks|] == check;
    forall k | 0 <= k < |checks|
      ensures Passes(selectors, same, next, k)
    {
      assert Passes(selectors, same, checks, k) && next[k] == checks[k];
    }
  }

  /** A further check, about the next selector, that is denied. */
  lemma AddDenied(selectors: seq<Option<Selector>>, same: string -> bool, checks: seq<Check>, check: Check, e: Denial)
    requires |checks| < |selectors| && AllPass(selectors, same, checks) && !Malformed(selectors[|checks|])
    requires check.domain == Lower(selectors[|checks|].value.domain.value)
             && Denied(selectors[|checks|].value, same, check, e)
    ensures FirstDenied(selectors, same, checks + [check], e)
  {
    var next := checks + [check];
    assert next[..|checks|] == checks && next[|checks|] == check;
  }

  predicate Malformed(sel: Option<Selector>) {
    sel.None? || sel.value.domain.None?
  }

  /** What verification raises when a document cannot be loaded. */
  function LoadDenial(e: LoadError): Denial {
    match e
    case Failed(message) => Unavailable(message)
    case Uncaught => Escaped
  }

  /** A check that denies its selector, for this reason. */
  ghost predicate Denied(sel: Selector, same: string -> bool, check: Check, e: Denial) {
    match check.loaded
    case Err(Failed(message)) => e == Unavailable(message)
    case Err(Uncaught) => e == Escaped
    case Ok(doc) => Verdict(doc, same, check.purchase, sel, check.domain, Err(e))
  }

  /** Every check but the last passed. The denial is that of the last check, or that of the next
      selector, which is malformed. */
  ghost predicate FirstDenied(selectors: seq<Option<Selector>>, same: string -> bool, checks: seq<Check>, e: Denial) {
    var n := |checks|;
    if e == BadSelector then
      && n < |selectors| && (selectors[n].None? || selectors[n].value.domain.None?)
      && AllPass(selectors, same, checks)
    else
      && 0 < n <= |selectors| && selectors[n - 1].Some? && selectors[n - 1].value.domain.Some?
      && checks[n - 1].domain == Lower(selectors[n - 1].value.domain.value)
      && Denied(selectors[n - 1].value, same, checks[n - 1], e)
      && AllPass(selectors, same, checks[..n - 1])
  }

  /** A selector is well formed, and its publisher's document authorizes it. */
  ghost predicate Holds(document: string -> Loaded, sel: Option<Selector>, same: string -> bool, p: Purchase) {
    && sel.Some? && sel.value.domain.Some?
    && var domain := Lower(sel.value.domain.value);
    && document(domain).Ok? && Authorized(document(domain).value, same, p, sel.value, domain)
  }

  ghost predicate Unchanging(loads: Loads, uncached: string -> Loaded) {
    forall i :: 0 <= i < |loads| ==> loads[i].outcome == uncached(loads[i].key)
  }

  /** What an answer says when loading a key always gives the same outcome. */
  lemma UnchangingAnswer(loads: Loads, life: Loaded -> Option<real>, uncached: string -> Loaded,
                         key: string, r: Loaded, asked: real)
    requires Unchanging(loads, uncached) && Vouched(loads, life, key, r, asked)
    ensures r == uncached(key) || (uncached(key) == Err(Failed("")) && r == Raised(uncached(key)))
  {}

  /** Every answer for a key is the uncached one exactly when loading it does not fail with an
      empty message, failures are not cached, or nothing was loaded for it. */
  lemma CachedAnswersExactly(loads: Loads, ttl: real, negativeTtl: real, uncached: string -> Loaded, key: string)
    requires Unchanging(loads, uncached)
    ensures (forall r, asked :: Vouched(loads, Life(ttl, negativeTtl), key, r, asked) ==> r == uncached(key)) <==>
            || uncached(key) != Err(Failed(""))
            || negativeTtl <= 0.0
            || forall i :: 0 <= i < |loads| ==> loads[i].key != key
  {
    var life := Life(ttl, negativeTtl);
    if uncached(key) == Err(Failed("")) && negativeTtl > 0.0 {
      if i :| 0 <= i < |loads| && loads[i].key == key {
        assert Answers(loads[i], life, Raised(uncached(key)), loads[i].finished);
        assert Vouched(loads, life, key, Raised(uncached(key)), loads[i].finished);
      }
    }
  }

  /** A load that failed with an empty message, and the answer served for it. */
  lemma EmptyMessageReplaced(loads: Loads)
    requires loads == [Load("a", 0.0, 1.0, false, Err(Failed("")))]
    ensures Vouched(loads, Life(60.0, 60.0), "a", Err(Failed("adagents.json unavailable")), 2.0)
    ensures loads[0].outcome != Err(Failed("adagents.json unavailable"))
  {
    assert Answers(loads[0], Life(60.0, 60.0), Err(Failed(UNAVAILABLE)), 2.0);
  }

  /** Why the last check denied its selector, in terms of the document itself: the verdict on it,
      or the exception it is loaded with, where an empty message may be replaced. */
  ghost predicate DeniedBy(uncached: string -> Loaded, sel: Selector, same: string -> bool, c: Check, e: Denial) {
    match uncached(c.domain)
    case Ok(doc) =>
      Verdict(doc, same, c.purchase, sel, c.domain, Err(e)) && Meant(doc, same, c.purchase, sel, c.domain, Err(e))
    case Err(Failed(message)) => e == Unavailable(message) || (message == "" && e == Unavailable(UNAVAILABLE))
    case Err(Uncaught) => e == Escaped
  }

  /** With documents that do not change, the verdict is that of the documents themselves: a
      product passes when every selector holds at the time of its check. It is denied because of
      the one checked last, for the reason its document gives, or because the next is malformed
      and holds at no time. */
  lemma UnchangingVerdict(loads: Loads, life: Loaded -> Option<real>, uncached: string -> Loaded,
                          selectors: seq<Option<Selector>>, same: string -> bool, checks: seq<Check>, e: Denial,
                          start: real, countries: seq<string>, placementIds: seq<string>)
    requires Unchanging(loads, uncached) && AllVouched(loads, life, checks, start, countries, placementIds)
    ensures |checks| == |selectors| && AllPass(selectors, same, checks) ==>
              forall k :: 0 <= k < |selectors| ==> Holds(uncached, selectors[k], same, checks[k].purchase)
    ensures FirstDenied(selectors, same, checks, e) ==>
              if e == BadSelector then forall p :: !Holds(uncached, selectors[|checks|], same, p)
              else
                var sel, c := selectors[|checks| - 1], checks[|checks| - 1];
                !Holds(uncached, sel, same, c.purchase) && DeniedBy(uncached, sel.value, same, c, e)
  {
    forall k | 0 <= k < |checks|
      ensures checks[k].loaded == uncached(checks[k].domain)
              || (uncached(checks[k].domain) == Err(Failed(""))
                 && checks[k].loaded == Raised(uncached(checks[k].domain)))
    {
      UnchangingAnswer(loads, life, uncached, checks[k].domain, checks[k].loaded, checks[k].asked);
    }
    if |checks| == |selectors| && AllPass(selectors, same, checks) {
      forall k | 0 <= k < |selectors|
        ensures Holds(uncached, selectors[k], same, checks[k].purchase)
      {
        assert Passes(selectors, same, checks, k);
      }
    }
    if FirstDenied(selectors, same, checks, e) && e != BadSelector {
      var last := checks[|checks| - 1];
      if last.loaded.Ok? {
        var sel := selectors[|checks| - 1].value;
        VerdictIsExact(last.loaded.value, same, last.purchase, sel, last.domain, Err(e));
        VerdictMeans(last.loaded.value, same, last.purchase, sel, last.domain, Err(e));
      }
    }
  }
}
