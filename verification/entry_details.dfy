/** The entry details screen: the `EntryDetailsSection` enum, the view model's
    projection of a stored entry, how the Wikipedia description reaches it,
    and the data-source and layout rules of the collection view. */
module EntryDetails {
  import opened Wrappers
  import opened Uuids
  import opened Models
  import opened Storage
  import opened Boxes
  import opened Wikipedia

  // ---------------------------------------------------------------------------
  // Sections
  // ---------------------------------------------------------------------------

  /** `enum EntryDetailsSection: Int, CaseIterable`, raw values from 0. */
  datatype Section = UserInfo | MediaCards | MapView | PlaceInfo

  const AllSections: seq<Section> := [UserInfo, MediaCards, MapView, PlaceInfo]

  function SectionRaw(s: Section): int
  {
    match s
    case UserInfo => 0
    case MediaCards => 1
    case MapView => 2
    case PlaceInfo => 3
  }

  /** `EntryDetailsSection(rawValue:)`. */
  function SectionFromRaw(raw: int): Option<Section>
  {
    if raw == 0 then Some(UserInfo)
    else if raw == 1 then Some(MediaCards)
    else if raw == 2 then Some(MapView)
    else if raw == 3 then Some(PlaceInfo)
    else None
  }

  /** The raw values are 0, 1, 2, 3 in declaration order; the initializer
      inverts them and refuses every other integer. */
  lemma SectionRawRoundTrip(s: Section, raw: int)
    ensures SectionFromRaw(SectionRaw(s)) == Some(s)
    ensures SectionFromRaw(raw) == Some(s) <==> SectionRaw(s) == raw
    ensures SectionFromRaw(raw).Some? <==> 0 <= raw < |AllSections|
    ensures forall i :: 0 <= i < |AllSections| ==> SectionRaw(AllSections[i]) == i
  {
  }

  /** `numberOfSections(in:)`: `allCases.count`. */
  function NumberOfSections(): (n: nat)
    ensures n == 4
    ensures forall s: Section :: 0 <= SectionRaw(s) < n
  {
    |AllSections|
  }

  // ---------------------------------------------------------------------------
  // The view model
  // ---------------------------------------------------------------------------

  /** `MediaCardViewModel.Entry`: the stored file name and the decoded kind. */
  datatype MediaCard = MediaCard(fileName: string, kind: MediaType)

  /** `MediaCardViewModel(mediaEntry:)`: nil where `MediaType(rawValue:)!`
      would trap. */
  function CardOf(m: MediaEntry): (c: Option<MediaCard>)
    ensures c.Some? <==> m.mediaType == 0 || m.mediaType == 1
    ensures c.Some? ==> c.value.fileName == m.mediaPath && RawValue(c.value.kind) == m.mediaType
  {
    match MediaTypeFromRaw(m.mediaType)
    case None => None
    case Some(t) => Some(MediaCard(m.mediaPath, t))
  }

  /** `EntryDetailsViewModel`: the stored entry's fields, one card per media
      object, and the observable Wikipedia description. */
  datatype ViewModel = ViewModel(
    title: string,
    description: string,
    cards: seq<MediaCard>,
    latitude: real,
    longitude: real,
    wikiDescription: Box<Option<string>>)

  /** Whether building the view model for `entry` would trap on a force
      unwrap: the entry, one of its media objects or a media kind missing. */
  predicate ViewModelTraps(s: Store, entry: GeoEntry)
  {
    || entry.id !in s.entries
    || exists m :: m in s.entries[entry.id].media && (m !in s.media || CardOf(s.media[m]).None?)
  }

  /** `EntryDetailsViewModel(entry:)`: re-fetches the entry from the store and
      builds a card for each element of its media set, in the set's (here
      arbitrary) iteration order, which is returned as `order`. `None` where
      the app would trap. */
  method MakeViewModel(s: Store, entry: GeoEntry) returns (r: Option<ViewModel>, order: seq<MediaId>)
    ensures r.None? <==> ViewModelTraps(s, entry)
    ensures r.Some? ==>
              var stored := s.entries[entry.id];
              && r.value.title == stored.title
              && r.value.description == stored.description
              && r.value.latitude == stored.latitude
              && r.value.longitude == stored.longitude
    ensures r.Some? ==> r.value.wikiDescription == NewBox(None)
    ensures r.Some? ==>
              var stored := s.entries[entry.id];
              && |r.value.cards| == |order| == |stored.media|
              && (forall m :: m in stored.media <==> m in order)
              && (forall i, j :: 0 <= i < j < |order| ==> order[i] != order[j])
              && (forall i :: 0 <= i < |order| ==> order[i] in s.media && CardOf(s.media[order[i]]) == Some(r.value.cards[i]))
  {
    order := [];
    if entry.id !in s.entries {
      return None, order;
    }
    var stored := s.entries[entry.id];
    var cards: seq<MediaCard> := [];
    var rest := stored.media;
    while rest != {}
      invariant rest <= stored.media
      invariant |cards| == |order|
      invariant |order| + |rest| == |stored.media|
      invariant forall m :: m in stored.media <==> m in rest || m in order
      invariant forall i :: 0 <= i < |order| ==> order[i] in stored.media && order[i] !in rest
      invariant forall i, j :: 0 <= i < j < |order| ==> order[i] != order[j]
      invariant forall i :: 0 <= i < |order| ==> order[i] in s.media && CardOf(s.media[order[i]]) == Some(cards[i])
      decreases rest
    {
      var m :| m in rest;
      if m !in s.media || CardOf(s.media[m]).None? {
        return None, order;
      }
      cards := cards + [CardOf(s.media[m]).value];
      order := order + [m];
      rest := rest - {m};
    }
    r := Some(ViewModel(stored.title, stored.description, cards, stored.latitude, stored.longitude, NewBox(None)));
  }

  /** In a consistent store only a media kind other than 0 or 1 makes the
      view model trap for a stored entry. */
  lemma ConsistentStoreTrapsOnlyOnUnknownKind(s: Store, entry: GeoEntry)
    requires Consistent(s) && entry.id in s.entries
    ensures ViewModelTraps(s, entry) <==>
              exists m :: m in s.entries[entry.id].media &&
                s.media[m].mediaType != 0 && s.media[m].mediaType != 1
  {
  }

  // ---------------------------------------------------------------------------
  // Wikipedia description
  // ---------------------------------------------------------------------------

  /** The listener `bindViewModel` installs; it reloads the collection view. */
  const ReloadListener: ListenerId := 0

  /** `loadInitialWikiData`: each value the service hands to the completion
      handler is assigned to `wikiDescription`, nil included. */
  function LoadInitialWikiData(vm: ViewModel, lookup: Lookup): (vm': ViewModel)
    ensures vm'.(wikiDescription := vm.wikiDescription) == vm
    ensures vm'.wikiDescription.value ==
              if |lookup.completions| == 0 then vm.wikiDescription.value
              else lookup.completions[|lookup.completions| - 1]
    ensures vm'.wikiDescription.listener == vm.wikiDescription.listener
    ensures vm.wikiDescription.listener.Some? ==>
              vm'.wikiDescription.calls ==
                vm.wikiDescription.calls + CallsFor(vm.wikiDescription.listener.value, lookup.completions)
    ensures vm.wikiDescription.listener.None? ==> vm'.wikiDescription.calls == vm.wikiDescription.calls
  {
    if vm.wikiDescription.listener.Some? then
      SetAllNotifiesBoundListener(vm.wikiDescription, lookup.completions);
      vm.(wikiDescription := SetAll(vm.wikiDescription, lookup.completions))
    else
      SetAllBeforeBindIsSilent(vm.wikiDescription, lookup.completions);
      vm.(wikiDescription := SetAll(vm.wikiDescription, lookup.completions))
  }

  /** `viewDidLoad`: the lookup starts, the reload listener is bound, and the
      completion arrives later on the main queue. */
  function ViewDidLoad(vm: ViewModel, lookup: Lookup): (vm': ViewModel)
    ensures vm'.(wikiDescription := vm.wikiDescription) == vm
    ensures vm'.wikiDescription.listener == Some(ReloadListener)
    ensures vm'.wikiDescription.value ==
              if lookup.completions == [] then vm.wikiDescription.value
              else lookup.completions[|lookup.completions| - 1]
    ensures vm'.wikiDescription.calls ==
              vm.wikiDescription.calls + [Call(ReloadListener, vm.wikiDescription.value)]
              + CallsFor(ReloadListener, lookup.completions)
  {
    LoadInitialWikiData(vm.(wikiDescription := Bind(vm.wikiDescription, ReloadListener)), lookup)
  }

  /** After the screen loads, the description is the value the service
      delivered last (nil when it delivered nothing), and the collection view
      reloads once at bind time and once per delivered value. */
  lemma ViewDidLoadShowsDeliveredDescription(vm: ViewModel, lookup: Lookup)
    requires vm.wikiDescription == NewBox(None)
    ensures ViewDidLoad(vm, lookup).wikiDescription.value ==
              if lookup.completions == [] then None else lookup.completions[|lookup.completions| - 1]
    ensures ViewDidLoad(vm, lookup).wikiDescription.calls ==
              [Call(ReloadListener, None)] + CallsFor(ReloadListener, lookup.completions)
  {
  }

  // ---------------------------------------------------------------------------
  // Data source and layout
  // ---------------------------------------------------------------------------

  /** Whether an optional description is non-nil and non-empty. */
  predicate Shown(d: Option<string>)
  {
    d.Some? && d.value != ""
  }

  /** `collectionView(_:numberOfItemsInSection:)`. */
  function NumberOfItems(vm: ViewModel, section: int): (n: nat)
    ensures SectionFromRaw(section).None? ==> n == 0
    ensures section == SectionRaw(UserInfo) ==> (n == 1 <==> vm.description != "") && n <= 1
    ensures section == SectionRaw(MediaCards) ==> n == |vm.cards|
    ensures section == SectionRaw(MapView) ==> n == 1
    ensures section == SectionRaw(PlaceInfo) ==> (n == 1 <==> Shown(vm.wikiDescription.value)) && n <= 1
  {
    match SectionFromRaw(section)
    case None => 0
    case Some(UserInfo) => if |vm.description| == 0 then 0 else 1
    case Some(MapView) => 1
    case Some(MediaCards) => |vm.cards|
    case Some(PlaceInfo) =>
      match vm.wikiDescription.value
      case Some(value) => if |value| == 0 then 0 else 1
      case None => 0
  }

  /** Items over all sections, in section order. */
  function TotalItems(vm: ViewModel, sections: nat): nat
  {
    if sections == 0 then 0 else TotalItems(vm, sections - 1) + NumberOfItems(vm, sections - 1)
  }

  /** The screen shows the map, every card, and each text row only when it has
      text: `|cards| + 1` items plus one per non-empty text. */
  lemma TotalItemsCount(vm: ViewModel)
    ensures TotalItems(vm, NumberOfSections()) ==
              |vm.cards| + 1 + (if vm.description != "" then 1 else 0) + (if Shown(vm.wikiDescription.value) then 1 else 0)
  {
    assert TotalItems(vm, 1) == NumberOfItems(vm, 0);
    assert TotalItems(vm, 2) == TotalItems(vm, 1) + NumberOfItems(vm, 1);
    assert TotalItems(vm, 3) == TotalItems(vm, 2) + NumberOfItems(vm, 2);
    assert NumberOfItems(vm, 0) == (if vm.description != "" then 1 else 0);
    assert NumberOfItems(vm, 3) == (if Shown(vm.wikiDescription.value) then 1 else 0);
  }

  /** The layout of one section: a list (with or without a header) or the
      horizontal card strip, which always has a header. */
  datatype SectionLayout = List(header: bool) | Strip

  /** `createCompositionalLayout`'s section provider; `None` where it calls
      `fatalError`. */
  function LayoutFor(index: int): (l: Option<SectionLayout>)
    ensures l.Some? <==> SectionFromRaw(index).Some?
    ensures l == Some(Strip) <==> index == SectionRaw(MediaCards)
  {
    match SectionFromRaw(index)
    case None => None
    case Some(MediaCards) => Some(Strip)
    case Some(_) => Some(List(index != 0))
  }

  /** Whether a section gets a supplementary header. */
  predicate HasHeader(l: SectionLayout)
  {
    l.Strip? || l.header
  }

  /** Every section but the first has a header. */
  lemma OnlyFirstSectionHasNoHeader(index: int)
    requires 0 <= index < NumberOfSections()
    ensures LayoutFor(index).Some?
    ensures HasHeader(LayoutFor(index).value) <==> index != 0
  {
  }

  /** The place-info row appears exactly when the delivered description is
      non-empty; in particular, pre-iOS 26 it shows the first address part's
      description when that is non-empty. */
  lemma PlaceInfoFollowsLookup(vm: ViewModel, lookup: Lookup)
    requires vm.wikiDescription == NewBox(None)
    ensures NumberOfItems(ViewDidLoad(vm, lookup), SectionRaw(PlaceInfo)) == 1 <==>
              lookup.completions != [] && Shown(lookup.completions[|lookup.completions| - 1])
  {
    ViewDidLoadShowsDeliveredDescription(vm, lookup);
  }

  /** On iOS 26 a place whose query has no description leaves the place-info
      row hidden, because nothing is delivered. */
  lemma ModernMissHidesPlaceInfo(vm: ViewModel, item: MapItem, fetch: Fetcher)
    requires vm.wikiDescription == NewBox(None)
    requires ModernQuery(item).Some? && fetch(ModernQuery(item).value).None?
    ensures var lookup := FindSuitableDescription(Success([item]), true, fetch);
            NumberOfItems(ViewDidLoad(vm, lookup), SectionRaw(PlaceInfo)) == 0
  {
    var lookup := FindSuitableDescription(Success([item]), true, fetch);
    ModernMissNeverCompletes(item, fetch);
    PlaceInfoFollowsLookup(vm, lookup);
  }
}
