/** `WikipediaService`: reverse-geocode a coordinate, derive search queries from
    the first map item, and hand the first Wikipedia extract found to a
    completion handler. Geocoding, percent-encoding, URL parsing, the HTTP
    request and JSON decoding are oracles; what the service decides on top of
    them is modelled exactly. */
module Wikipedia {
  import opened Wrappers
  import opened Places

  // ---------------------------------------------------------------------------
  // Request link
  // ---------------------------------------------------------------------------

  /** The MediaWiki query endpoint with every fixed parameter; the encoded
      query is appended as the value of `titles`. */
  const ApiPrefix: string :=
    "https://en.wikipedia.org/w/api.php?format=json&action=query&prop=extracts&exintro&explaintext&redirects=1&titles="

  /** `addingPercentEncoding(withAllowedCharacters: .urlQueryAllowed)`, which
      may fail. */
  type PercentEncoder = string -> Option<string>

  /** `linkWithQuery`: nil when encoding fails, otherwise the prefix followed
      by the encoded query. */
  function LinkWithQuery(query: string, encode: PercentEncoder): (link: Option<string>)
    ensures link.Some? <==> encode(query).Some?
    ensures link.Some? ==> |ApiPrefix| <= |link.value| && link.value[..|ApiPrefix|] == ApiPrefix
  {
    match encode(query)
    case None => None
    case Some(encoded) => Some(ApiPrefix + encoded)
  }

  /** Reads the `titles` value back out of a link built on `ApiPrefix`. */
  function TitlesOfLink(link: string): (t: Option<string>)
    ensures t.Some? ==> ApiPrefix + t.value == link
  {
    if |ApiPrefix| <= |link| && link[..|ApiPrefix|] == ApiPrefix then Some(link[|ApiPrefix|..]) else None
  }

  /** The link carries exactly the encoded query and nothing else after the
      fixed prefix, so distinct encodings give distinct links. */
  lemma LinkCarriesEncodedQuery(query: string, query': string, encode: PercentEncoder)
    ensures LinkWithQuery(query, encode).Some? ==>
              TitlesOfLink(LinkWithQuery(query, encode).value) == encode(query)
    ensures LinkWithQuery(query, encode).Some? && LinkWithQuery(query, encode) == LinkWithQuery(query', encode) ==>
              encode(query) == encode(query')
  {
    if LinkWithQuery(query, encode).Some? {
      var link := LinkWithQuery(query, encode).value;
      assert link[..|ApiPrefix|] == ApiPrefix;
      assert link[|ApiPrefix|..] == encode(query).value;
      if LinkWithQuery(query, encode) == LinkWithQuery(query', encode) {
        assert link[|ApiPrefix|..] == encode(query').value;
      }
    }
  }

  // ---------------------------------------------------------------------------
  // fetchDescription
  // ---------------------------------------------------------------------------

  /** The decoded body (`WikiApiResponse`, `WikiQuery`, `WikiPage`). */
  datatype WikiPage = WikiPage(extract: string)
  datatype WikiQuery = WikiQuery(pages: map<string, WikiPage>)
  datatype WikiApiResponse = WikiApiResponse(query: WikiQuery)

  /** `URL(string:)`: whether the string parses as a URL. */
  type UrlParser = string -> bool
  /** `URLSession.shared.data(from:)`: the body, or nil when it throws. */
  type Transport = string -> Option<seq<byte>>
  /** `JSONDecoder().decode(WikiApiResponse.self, from:)`, or nil when it throws. */
  type ResponseDecoder = seq<byte> -> Option<WikiApiResponse>

  /** `fetchDescription(query:)`: the extract of some page of the response,
      nil when any step fails or the response has no page. Which page is
      `values.first` of a Swift dictionary is unspecified, so any page may be
      picked. An empty extract is still a description. */
  method FetchDescription(query: string, encode: PercentEncoder, isUrl: UrlParser,
                          download: Transport, decode: ResponseDecoder)
    returns (r: Option<string>)
    ensures r.Some? <==>
              && LinkWithQuery(query, encode).Some?
              && isUrl(LinkWithQuery(query, encode).value)
              && download(LinkWithQuery(query, encode).value).Some?
              && decode(download(LinkWithQuery(query, encode).value).value).Some?
              && |decode(download(LinkWithQuery(query, encode).value).value).value.query.pages| > 0
    ensures r.Some? ==>
              var pages := decode(download(LinkWithQuery(query, encode).value).value).value.query.pages;
              exists key :: key in pages && pages[key].extract == r.value
  {
    var link := LinkWithQuery(query, encode);
    if link.None? || !isUrl(link.value) {
      return None;
    }
    var body := download(link.value);
    if body.None? {
      return None;
    }
    var response := decode(body.value);
    if response.None? {
      return None;
    }
    var pages := response.value.query.pages;
    if |pages| == 0 {
      return None;
    }
    var key :| key in pages;
    r := Some(pages[key].extract);
  }

  /** Whatever page is picked, an empty extract is a hit: a response whose
      only page has an empty extract yields `""`, not nil. */
  method EmptyExtractIsAHit(query: string, encode: PercentEncoder, isUrl: UrlParser,
                            download: Transport, decode: ResponseDecoder)
    returns (r: Option<string>)
    requires LinkWithQuery(query, encode).Some? && isUrl(LinkWithQuery(query, encode).value)
    requires download(LinkWithQuery(query, encode).value).Some?
    requires decode(download(LinkWithQuery(query, encode).value).value).Some?
    requires var pages := decode(download(LinkWithQuery(query, encode).value).value).value.query.pages;
             |pages| > 0 && forall key :: key in pages ==> pages[key].extract == ""
    ensures r == Some("")
  {
    r := FetchDescription(query, encode, isUrl, download, decode);
  }

  // ---------------------------------------------------------------------------
  // findSuitableDescription
  // ---------------------------------------------------------------------------

  /** The iOS 26 `MKAddressRepresentations` strings the service reads. */
  datatype AddressRepresentations = AddressRepresentations(cityWithContext: Option<string>, regionName: Option<string>)

  /** An `MKMapItem`: its placemark, and the address representations that only
      iOS 26 provides (and that may be missing there too). */
  datatype MapItem = MapItem(placemark: Placemark, addressRepresentations: Option<AddressRepresentations>)

  /** The failure reported by the location worker's geocoding publisher. */
  datatype GeocodeError = GeocodeError(code: int)

  /** The description source: `fetchDescription` for a query. */
  type Fetcher = string -> Option<string>

  /** What one call of `findSuitableDescription` does: the values passed to the
      completion handler, in order, and the queries fetched, in order. */
  datatype Lookup = Lookup(completions: seq<Option<string>>, queries: seq<string>)

  /** The lookup that calls the handler with nil without fetching. */
  const GiveUp: Lookup := Lookup([None], [])

  /** The pre-iOS 26 loop: fetch the candidates in order and stop at the first
      description; nil when none of them has one. */
  function FirstHit(cands: seq<string>, fetch: Fetcher): (r: Lookup)
    ensures |r.completions| == 1
    ensures |r.queries| <= |cands| && r.queries == cands[..|r.queries|]
    ensures r.completions[0].None? <==> forall i :: 0 <= i < |cands| ==> fetch(cands[i]).None?
    ensures r.completions[0].None? ==> r.queries == cands
    ensures r.completions[0].Some? ==>
              && |r.queries| > 0
              && r.completions[0] == fetch(r.queries[|r.queries| - 1])
              && forall i :: 0 <= i < |r.queries| - 1 ==> fetch(r.queries[i]).None?
    decreases |cands|
  {
    if |cands| == 0 then GiveUp
    else match fetch(cands[0])
      case Some(d) => Lookup([Some(d)], [cands[0]])
      case None =>
        var rest := FirstHit(cands[1..], fetch);
        Lookup(rest.completions, [cands[0]] + rest.queries)
  }

  /** The single query of the iOS 26 branch: `cityWithContext` when present,
      otherwise `regionName`. */
  function ModernQuery(item: MapItem): (q: Option<string>)
    ensures item.addressRepresentations.None? ==> q.None?
    ensures item.addressRepresentations.Some? && item.addressRepresentations.value.cityWithContext.Some? ==>
              q == item.addressRepresentations.value.cityWithContext
    ensures q.None? <==>
              item.addressRepresentations.None? ||
              (item.addressRepresentations.value.cityWithContext.None? && item.addressRepresentations.value.regionName.None?)
  {
    match item.addressRepresentations
    case None => None
    case Some(reps) => if reps.cityWithContext.Some? then reps.cityWithContext else reps.regionName
  }

  /** The iOS 26 branch as written: a description is handed over, but when the
      one fetch finds nothing the handler is never called. */
  function ModernLookup(item: MapItem, fetch: Fetcher): (r: Lookup)
    ensures |r.queries| <= 1 && |r.completions| <= 1
    ensures r.queries == [] <==> ModernQuery(item).None?
    ensures r.queries != [] ==> r.queries[0] == ModernQuery(item).value
    ensures r.completions == [] <==> ModernQuery(item).Some? && fetch(ModernQuery(item).value).None?
    ensures r.completions != [] && r.completions[0].Some? ==> r.queries != [] && r.completions[0] == fetch(r.queries[0])
  {
    match ModernQuery(item)
    case None => GiveUp
    case Some(q) => Lookup(if fetch(q).Some? then [fetch(q)] else [], [q])
  }

  /** The pre-iOS 26 branch: the present address parts, in the fixed order,
      are the candidates. */
  function LegacyLookup(item: MapItem, fetch: Fetcher): (r: Lookup)
    ensures |r.completions| == 1
    ensures |r.queries| <= |PresentParts(item.placemark)|
    ensures r.queries == PresentParts(item.placemark)[..|r.queries|]
  {
    FirstHit(PresentParts(item.placemark), fetch)
  }

  /** `findSuitableDescription(for:completionHandler:)` as written. The
      geocoding result (for the query `"<latitude>, <longitude>"`) is an input;
      `modernApi` says whether iOS 26 is available. */
  function FindSuitableDescription(geocode: Result<seq<MapItem>, GeocodeError>, modernApi: bool, fetch: Fetcher)
    : (r: Lookup)
    ensures geocode.Failure? || geocode.value == [] ==> r == GiveUp
    ensures geocode.Success? && geocode.value != [] && !modernApi ==> |r.completions| == 1
    ensures geocode.Success? && geocode.value != [] ==>
              forall q :: q in r.queries ==>
                if modernApi then Some(q) == ModernQuery(geocode.value[0])
                else q in PresentParts(geocode.value[0].placemark)
  {
    match geocode
    case Failure(_) => GiveUp
    case Success(items) =>
      if |items| == 0 then GiveUp
      else if modernApi then ModernLookup(items[0], fetch)
      else LegacyLookup(items[0], fetch)
  }

  /** Pre-iOS 26, the handler is called exactly once, with the description of
      the first present address part that has one, and no part after it is
      fetched; nil exactly when no part has a description. */
  lemma {:induction false} LegacyPicksFirstDescribedPart(items: seq<MapItem>, fetch: Fetcher)
    requires |items| > 0
    ensures var r := FindSuitableDescription(Success(items), false, fetch);
            var parts := PresentParts(items[0].placemark);
            && |r.completions| == 1
            && (r.completions[0].None? <==> forall i :: 0 <= i < |parts| ==> fetch(parts[i]).None?)
            && (r.completions[0].Some? ==>
                  exists i :: 0 <= i < |parts| && r.completions[0] == fetch(parts[i]) &&
                    r.queries == parts[..i + 1] &&
                    forall j :: 0 <= j < i ==> fetch(parts[j]).None?)
  {
    var r := FindSuitableDescription(Success(items), false, fetch);
    var parts := PresentParts(items[0].placemark);
    assert r == FirstHit(parts, fetch);
    if r.completions[0].Some? {
      var i := |r.queries| - 1;
      assert r.queries == parts[..i + 1];
      assert r.queries[i] == parts[i];
      forall j | 0 <= j < i
        ensures fetch(parts[j]).None?
      {
        assert r.queries[j] == parts[j];
      }
    }
  }

  /** A placemark with a name whose description exists: only the name is
      fetched and its description is delivered. */
  lemma NamedPlaceStopsAtName(item: MapItem, fetch: Fetcher)
    requires item.placemark.name.Some? && fetch(item.placemark.name.value).Some?
    ensures FindSuitableDescription(Success([item]), false, fetch)
              == Lookup([fetch(item.placemark.name.value)], [item.placemark.name.value])
  {
    PresentPartsOrder(item.placemark);
  }

  /** The finding: on iOS 26, when the chosen query has no description the
      completion handler is never called, so the description is never
      delivered. */
  lemma ModernMissNeverCompletes(item: MapItem, fetch: Fetcher)
    requires ModernQuery(item).Some? && fetch(ModernQuery(item).value).None?
    ensures FindSuitableDescription(Success([item]), true, fetch).completions == []
  {
  }

  /** The iOS 26 branch with the evidently intended behaviour: the handler
      receives the fetch result, nil included. */
  function ModernLookupChecked(item: MapItem, fetch: Fetcher): (r: Lookup)
    ensures |r.completions| == 1
    ensures r.queries == (if ModernQuery(item).Some? then [ModernQuery(item).value] else [])
    ensures r.completions[0] == (if ModernQuery(item).Some? then fetch(ModernQuery(item).value) else None)
    ensures ModernLookup(item, fetch).completions != [] ==> r == ModernLookup(item, fetch)
  {
    match ModernQuery(item)
    case None => GiveUp
    case Some(q) => Lookup([fetch(q)], [q])
  }

  /** `findSuitableDescription` with the iOS 26 branch corrected. */
  function FindSuitableDescriptionChecked(geocode: Result<seq<MapItem>, GeocodeError>, modernApi: bool, fetch: Fetcher)
    : (r: Lookup)
    ensures !modernApi ==> r == FindSuitableDescription(geocode, modernApi, fetch)
    ensures FindSuitableDescription(geocode, modernApi, fetch).completions != [] ==>
              r == FindSuitableDescription(geocode, modernApi, fetch)
  {
    match geocode
    case Failure(_) => GiveUp
    case Success(items) =>
      if |items| == 0 then GiveUp
      else if modernApi then ModernLookupChecked(items[0], fetch)
      else LegacyLookup(items[0], fetch)
  }

  /** With the correction every lookup calls its handler exactly once,
      whatever the platform, geocoding result and fetch results. */
  lemma CheckedLookupAlwaysCompletesOnce(geocode: Result<seq<MapItem>, GeocodeError>, modernApi: bool, fetch: Fetcher)
    ensures |FindSuitableDescriptionChecked(geocode, modernApi, fetch).completions| == 1
  {
  }
}
