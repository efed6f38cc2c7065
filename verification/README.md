# GeoMemories core, modelled in Dafny

GeoMemories is an iOS app that keeps geotagged memories. Each memory is a
`GeoEntry` with a title, a description, a coordinate and a set of photos and
videos (`MediaEntry`). Memories are stored through CoreStore. The app imports
media from the photo picker and caches thumbnails. It looks up a Wikipedia
extract for the place and shows all of this on a details screen. This project
models the logic behind those features as pure Dafny functions over immutable
data and proves what that logic guarantees.

The model has these parts:

- `Wrappers` (`wrappers.dfy`): `Option`, `Result`, and `Promise`.
  - `Promise` models a Combine `Future` promise. The first fulfilment wins and later calls are ignored.
- `Text` (`text.dfy`):
  - `compactMap`;
  - `joined(separator:)`, with its layout lemma;
  - `trimmingCharacters(in: .whitespacesAndNewlines)`, over the Unicode whitespace and newline set.
- `Uuids` (`uuid.dfy`): a UUID as 16 bytes.
  - `uuidString` is uppercase 8-4-4-4-12 hex.
  - The parser inverts it, so distinct UUIDs give distinct file names.
- `Models` (`models.dfy`): the `GeoEntry` and `MediaEntry` records with their defaults, and the `MediaType` raw-value enum.
- `Storage` (`storage.dfy`): `GeoEntryValidator`, `GeoEntryMapper`, `QueryBuilder` and the four operations of `StorageService`.
  - The store maps `id` to entry and keeps the inverse media relationship as an invariant.
  - Each `dataStack.perform` is one atomic step that commits or leaves the store unchanged.
- `MediaFiles` (`media_worker.dfy`): the `MediaFileWorker` placeholder cache and the `saveMedia` import dispatch with its file naming.
- `Places` (`places.dfy`): the eight optional placemark address parts in their fixed order.
- `Wikipedia` (`wikipedia.dfy`): `linkWithQuery`, `fetchDescription` and `findSuitableDescription`.
  - A lookup is recorded as the sequence of values handed to the completion handler plus the queries fetched.
- `Boxes` (`box.dfy`): `Box<T>`.
  - Listener invocations are recorded as a trace of calls.
- `EntryDetails` (`entry_details.dfy`): the detail screen.
  - Covers the section enum, the view model built from the store, and how the Wikipedia description reaches the `Box`.
  - Also covers the item count per section and the header rule of the layout.
- `LocationCell` (`location_cell.dfy`): the fixed row height and the address text of a search result.

The operating system, the network and CoreStore's internals are reached only
through function-typed parameters, so every proof holds for all of their
behaviours. These parameters are:

- the image decoder and the video frame extractor;
- the file copy and the JPEG encoder;
- the storage call `addMediaEntry`;
- geocoding;
- percent-encoding, URL parsing, the HTTP request and JSON decoding;
- the `fault` with which the persistent store may refuse a commit.

Random draws (`UUID()`) are parameters too.

`mediaIds` and `imageIds` name the same relationship, and the model keeps one
media set. `addMediaEntry` is called by the worker but is not declared by the
storage protocol, so it is a parameter.

## Model

| member | source | states |
|---|---|---|
| `Models.MediaTypeRawRoundTrip` | GeoMemories/Models/MediaEntry.swift:10-13 | `MediaType(rawValue:)` inverts `rawValue`; exactly the integers 0 and 1 name a case |
| `Models.AllMediaTypesComplete` | GeoMemories/Models/MediaEntry.swift:10-13 | `allCases` has two elements: `image` with raw value 0, then `video` with raw value 1 |
| `Models.NewGeoEntry` | GeoMemories/Models/GeoEntry.swift:11-29 | a new entry has the drawn id, empty title and description, latitude and longitude 0.0, and no media |
| `Models.NewGeoEntriesHaveDistinctIds` | GeoMemories/Models/GeoEntry.swift:12-13 | entries built from a non-repeating UUID source have pairwise distinct ids |
| `Models.NewMediaEntry` | GeoMemories/Models/MediaEntry.swift:15-24 | a new media record has no owner, an empty path, and the image raw value as its type |
| `Uuids.Text` | GeoMemories/Workers/MediaFileWorker.swift:124 | `uuidString` has 36 characters: dashes at positions 8, 13, 18 and 23, and upper-case hexadecimal digits in the five groups between them |
| `Uuids.TextRoundTrip` | GeoMemories/Workers/MediaFileWorker.swift:124 | parsing the 36-character `uuidString` gives back the UUID |
| `Uuids.TextInjective` | GeoMemories/Workers/MediaFileWorker.swift:162 | distinct UUIDs have distinct `uuidString`s |
| `Text.CompactMapMembership` | GeoMemories/Services/WikipediaService.swift:103 | a value survives `compactMap` exactly when it was present as a non-nil element |
| `Text.CompactMapAllSome` | GeoMemories/Scenes/LocationCell/LocationCellViewModel.swift:49 | when no element is nil, `compactMap` keeps every element in order |
| `Text.JoinLayout` | GeoMemories/Scenes/LocationCell/LocationCellViewModel.swift:49-51 | each part sits at its offset in the joined string; every part but the last is followed by exactly one separator, and the string ends right after the last part |
| `Text.Trim` | GeoMemories/Services/StorageService.swift:52 | the trimmed title is a slice of the title; only whitespace and newlines are cut off; a non-empty result starts and ends with other characters |
| `Text.TrimEmptyIff` | GeoMemories/Services/StorageService.swift:52 | a title trims to `""` exactly when every character is whitespace or a newline |
| `Places.PresentPartsOrder` | GeoMemories/Services/WikipediaService.swift:95-103 | the kept address parts are the non-nil ones in the fixed order, at most eight, with a present name first |
| `Places.PresentPartsExtremes` | GeoMemories/Scenes/LocationCell/LocationCellViewModel.swift:37-49 | all parts present keeps all eight in order; all parts nil keeps none |
| `Storage.Validate` | GeoMemories/Services/StorageService.swift:51-67 | the title check comes first, then latitude, then longitude, and the first failure's message is reported; an entry passes exactly when its trimmed title is non-empty, latitude is in [-90, 90] and longitude is in [-180, 180] |
| `Storage.ValidateRejectsOnlyInvalidInput` | GeoMemories/Services/StorageService.swift:52-66 | every rejection is `invalidInput`, and all four bounds are inclusive |
| `Storage.DefaultEntryFailsValidation` | GeoMemories/Models/GeoEntry.swift:15-25 | a default entry's (0, 0) coordinate is in range, yet the entry is rejected for its empty title |
| `Storage.MapOntoCopiesEveryField` | GeoMemories/Services/StorageService.swift:84-95 | the mapper copies id, title, description, both coordinates and the media set, so nothing of the target record survives |
| `Storage.OwnershipIsInverse` | GeoMemories/Models/GeoEntry.swift:27-28 | in a consistent store, a media item is in an entry's media set exactly when its `linkedGeoEntry` is that entry, so it belongs to at most one entry |
| `Storage.UnlinkedMediaIsOwnerless` | GeoMemories/Models/MediaEntry.swift:16-17 | a media record whose owner is nil is in no entry's media set |
| `Storage.Write` | GeoMemories/Services/StorageService.swift:89-94 | writing a record stores it under its id and leaves the other records' fields unchanged; the media it claims leave their other owners; every media file path and type is unchanged |
| `Storage.WritePreservesConsistency` | GeoMemories/Models/GeoEntry.swift:27-28 | writing a record whose media are all stored keeps the two sides of the relationship in agreement |
| `Storage.RemoveKeys` | GeoMemories/Services/StorageService.swift:249-254 | deleting removes exactly the given keys, keeps the other records unchanged, and clears the owner of media that pointed to a deleted record |
| `Storage.RemoveKeysPreservesConsistency` | GeoMemories/Models/MediaEntry.swift:16-17 | deleting records keeps the relationship consistent |
| `Storage.Selected` | GeoMemories/Services/StorageService.swift:113-125 | a query selects exactly the stored records it matches |
| `Storage.ByIdSelectsAtMostTheKey` | GeoMemories/Services/StorageService.swift:118-124 | in a consistent store the id query selects the record with that id, if any, and nothing else |
| `Storage.FetchOne` | GeoMemories/Services/StorageService.swift:221-223 | `fetchOne` returns a record exactly when the id query selects one, and that record has the requested id |
| `Storage.DeleteAll` | GeoMemories/Services/StorageService.swift:249-254 | keeps exactly the records the query does not match, unchanged; keeps every media key, and clears the owner of exactly the media whose owner was a matched record |
| `Storage.Commit` | GeoMemories/Services/StorageService.swift:166-177 | a transaction commits its draft exactly when no insert conflicted and the store reports no fault; otherwise the store is unchanged and an internal error is reported |
| `Storage.Create` | GeoMemories/Services/StorageService.swift:97-104 | a create conflicts exactly when the body already conflicted or the id is already stored, and a conflict leaves the draft's store unchanged. Otherwise the record is stored under its id, the key set grows by that id, and every other record keeps its fields except the media the new record claims |
| `Storage.CreateAllInsertsIds` | GeoMemoriesTests/CoreStoreTests.swift:81-113 | in a conflict-free transaction body every created record is stored under its id with its id, title, description and coordinates; its media set loses only the media that later creates in the same body claim |
| `Storage.CreateAllDuplicateConflicts` | GeoMemoriesTests/CoreStoreTests.swift:90-98 | two creates with the same id in one transaction conflict with the unique constraint on `id` |
| `Storage.PerformCreates` | GeoMemoriesTests/CoreStoreTests.swift:88-98 | the transaction succeeds exactly when no create conflicts and the store reports no fault. On success every created record is stored with its fields, minus media that later creates claim; on failure the store is unchanged |
| `Storage.DuplicateIdsAbortTransaction` | GeoMemoriesTests/CoreStoreTests.swift:81-113 | a transaction that inserts two entries with the same id fails with a constraint violation, and nothing is committed |
| `Storage.FreshEntriesCommit` | GeoMemoriesTests/CoreStoreTests.swift:12-22 | entries with fresh, pairwise distinct UUIDs all commit in one transaction |
| `Storage.AfterValidation` | GeoMemories/Services/StorageService.swift:159-164 | the promise is fulfilled after validation exactly when validation failed, and then it holds the validation error |
| `Storage.AddGeoEntry` | GeoMemories/Services/StorageService.swift:152-180 | always publishes. A rejected entry publishes `invalidInput`. With a fresh id and no fault the entry is inserted, even a rejected one; otherwise the store is unchanged. A valid entry publishes itself, a constraint violation or the store fault |
| `Storage.GetGeoEntries` | GeoMemories/Services/StorageService.swift:182-203 | returns every stored record exactly once, with pairwise distinct ids, and its ids are exactly the keys the fetch-all query selects; a store fault becomes `coreStoreError` |
| `Storage.UpdateGeoEntry` | GeoMemories/Services/StorageService.swift:205-240 | always publishes. A rejected entry publishes `invalidInput`. A stored id with no fault is overwritten, even by a rejected entry. An absent id leaves the store unchanged and comes back as `coreStoreError(userError(notFound))` |
| `Storage.DeleteGeoEntry` | GeoMemories/Services/StorageService.swift:242-265 | removes exactly the record with the given id and keeps every other record unchanged. Media keys, paths and types stay as they were, and only the deleted record's media lose their owner. Leaves the store unchanged when the id is absent or the store faults; publishes success unless the store faults; keeps the store consistent |
| `Storage.ServiceWritesPreserveConsistency` | GeoMemories/Services/StorageService.swift:166-177 | adding or updating an entry whose media are stored keeps the relationship consistent |
| `Storage.RejectedEntryIsStillAdded` | GeoMemories/Services/StorageService.swift:159-177 | an entry with a blank title and a fresh id is reported as `invalidInput` and is inserted anyway |
| `Storage.RejectedUpdateIsStillWritten` | GeoMemories/Services/StorageService.swift:212-237 | an update with an out-of-range latitude is reported as `invalidInput` and overwrites the stored record anyway |
| `Storage.AddGeoEntryChecked` | GeoMemories/Services/StorageService.swift:159-164 | with a `return` after the failed validation, a rejected entry leaves the store unchanged; any change to the store stores a validated entry |
| `Storage.UpdateGeoEntryChecked` | GeoMemories/Services/StorageService.swift:212-217 | the same for update |
| `Storage.CheckedWritesKeepRecordsValid` | GeoMemories/Services/StorageService.swift:51-67 | with the checked operations, a store of valid records stays valid |
| `MediaFiles.LoadMediaPlaceholder` | GeoMemories/Workers/MediaFileWorker.swift:53-109 | a cache hit returns the cached image with the cache unchanged. A miss decodes an image, or extracts a video's frame at 60/60 s; a success is cached under `mediaPath`, and a failure is `readingError` with the cache unchanged. Any other type is `unsupportedFormat` |
| `MediaFiles.LoadIsIdempotent` | GeoMemories/Workers/MediaFileWorker.swift:56-62 | after a successful load, loading the same path again returns the same image and leaves the cache unchanged, whatever the loaders now do |
| `MediaFiles.Evict` | GeoMemories/Workers/MediaFileWorker.swift:45 | eviction removes exactly the given keys and keeps the others |
| `MediaFiles.ReloadAfterEvictionAgrees` | GeoMemories/Workers/MediaFileWorker.swift:72-103 | after any eviction, a reload with the same loaders gives the image of the first load |
| `MediaFiles.SaveMedia` | GeoMemories/Workers/MediaFileWorker.swift:111-195 | a movie is handled before an image, and an item that is neither publishes `unsupportedFormat` and does nothing else. Covers the copy destination and the requested record, and a copy failure publishing `copyError`. After a successful copy, or a successful JPEG encode, the answer of `addMediaEntry` is what gets published. A movie without a file URL, an image that fails to load, and a failed encode never publish |
| `MediaFiles.SavedPathShapes` | GeoMemories/Workers/MediaFileWorker.swift:124-173 | a video's record path is the bare `<uuidString>.mov`; an image's is the documents directory URL string followed by `<uuidString>.jpg` |
| `MediaFiles.DistinctDrawsNameDistinctFiles` | GeoMemories/Workers/MediaFileWorker.swift:124-162 | distinct UUIDs never name the same file, whether movie or image |
| `MediaFiles.CopyFailureStillRequestsRecord` | GeoMemories/Workers/MediaFileWorker.swift:130-140 | a failed copy publishes `copyError`, yet the record for the missing file is still requested |
| `MediaFiles.SaveMediaChecked` | GeoMemories/Workers/MediaFileWorker.swift:130-140 | with a `return` after the failed copy, no record is requested; a video record is requested only after a successful copy; otherwise it behaves as `saveMedia` |
| `Wikipedia.LinkWithQuery` | GeoMemories/Services/WikipediaService.swift:133-140 | there is a link exactly when percent-encoding succeeds, and it starts with the fixed API prefix |
| `Wikipedia.LinkCarriesEncodedQuery` | GeoMemories/Services/WikipediaService.swift:133-140 | what follows the prefix is exactly the encoded query, so equal links mean equal encodings |
| `Wikipedia.FetchDescription` | GeoMemories/Services/WikipediaService.swift:117-129 | returns a description exactly when encoding, URL parsing, download and decoding all succeed and the response has a page; the description is the extract of one of its pages |
| `Wikipedia.EmptyExtractIsAHit` | GeoMemories/Services/WikipediaService.swift:125 | an empty extract is returned as `""`, not as nil |
| `Wikipedia.FirstHit` | GeoMemories/Services/WikipediaService.swift:103-109 | completes exactly once. The queries are a prefix of the candidates, and the result is the first candidate's description; no later candidate is fetched. It is nil exactly when no candidate has one, and then every candidate was fetched |
| `Wikipedia.ModernQuery` | GeoMemories/Services/WikipediaService.swift:79-89 | `cityWithContext` takes precedence over `regionName`; there is no query exactly when both are missing |
| `Wikipedia.ModernLookup` | GeoMemories/Services/WikipediaService.swift:72-93 | fetches at most the one query. The handler is skipped exactly when that fetch finds nothing; with no query the handler gets nil |
| `Wikipedia.LegacyLookup` | GeoMemories/Services/WikipediaService.swift:94-111 | completes exactly once, and fetches a prefix of the present address parts |
| `Wikipedia.FindSuitableDescription` | GeoMemories/Services/WikipediaService.swift:52-115 | a geocoding failure or an empty result completes with nil. Before iOS 26 it completes exactly once. Every fetched query comes from the first map item |
| `Wikipedia.LegacyPicksFirstDescribedPart` | GeoMemories/Services/WikipediaService.swift:95-110 | for any non-empty geocoding result before iOS 26, the handler is called once, with the description of the first map item's first address part that has one, and the parts after it are not fetched; it gets nil exactly when no part has one |
| `Wikipedia.NamedPlaceStopsAtName` | GeoMemories/Services/WikipediaService.swift:103-108 | a named place whose name has a description fetches only the name |
| `Wikipedia.ModernMissNeverCompletes` | GeoMemories/Services/WikipediaService.swift:79-92 | on iOS 26, when the chosen query's fetch finds nothing, the handler is never called |
| `Wikipedia.ModernLookupChecked` | GeoMemories/Services/WikipediaService.swift:79-92 | the corrected iOS 26 branch hands over the fetch result, nil included, exactly once, and agrees with the original whenever the original completes |
| `Wikipedia.FindSuitableDescriptionChecked` | GeoMemories/Services/WikipediaService.swift:52-115 | the corrected lookup equals the original before iOS 26 and wherever the original completes |
| `Wikipedia.CheckedLookupAlwaysCompletesOnce` | GeoMemories/Services/WikipediaService.swift:52-115 | the corrected lookup calls its handler exactly once for every input |
| `Boxes.NewBox` | GeoMemories/Helpers/Box.swift:21-23 | a new box holds its argument, has no listener, and has called no one |
| `Boxes.Bind` | GeoMemories/Helpers/Box.swift:25-28 | bind installs the listener and calls it once with the current value |
| `Boxes.Set` | GeoMemories/Helpers/Box.swift:13-17 | an assignment stores the value and calls the bound listener, if any, with it |
| `Boxes.SetAllNotifiesBoundListener` | GeoMemories/Helpers/Box.swift:13-17 | after a bind, every assignment calls the listener with the new value, in order, and the box holds the last value |
| `Boxes.SetAllBeforeBindIsSilent` | GeoMemories/Helpers/Box.swift:15-19 | assignments before any bind call no one |
| `Boxes.RebindReplacesListener` | GeoMemories/Helpers/Box.swift:25-28 | after a second bind only the second listener hears assignments; the first was called once, at its own bind |
| `EntryDetails.SectionRawRoundTrip` | GeoMemories/Scenes/EntryDetails/EntryDetailsViewModel.swift:12-16 | the sections have raw values 0 to 3 in declaration order; the initializer inverts them and rejects any other integer |
| `EntryDetails.NumberOfSections` | GeoMemories/Scenes/EntryDetails/EntryDetailsViewController.swift:128-130 | there are four sections, one per case |
| `EntryDetails.CardOf` | GeoMemories/Scenes/EntryDetails/MediaCard/MediaCardViewModel.swift:52-58 | a card exists exactly when the media type is 0 or 1; it carries the media path and that type |
| `EntryDetails.MakeViewModel` | GeoMemories/Scenes/EntryDetails/EntryDetailsViewModel.swift:75-86 | fails exactly where a force unwrap would trap. Otherwise it exposes the stored title, description and coordinates, one card per media item with the order a permutation of the media set, and a description box that starts nil |
| `EntryDetails.ConsistentStoreTrapsOnlyOnUnknownKind` | GeoMemories/Scenes/EntryDetails/EntryDetailsViewModel.swift:76-78 | in a consistent store, the view model of a stored entry fails only on a media type other than 0 and 1 |
| `EntryDetails.LoadInitialWikiData` | GeoMemories/Scenes/EntryDetails/EntryDetailsViewModel.swift:88-100 | every delivered value, nil included, is assigned to `wikiDescription`: the box ends holding the last one (or its old value when none was delivered), keeps its listener, and notifies a bound listener once per delivery, in order. Nothing else in the view model changes |
| `EntryDetails.ViewDidLoad` | GeoMemories/Scenes/EntryDetails/EntryDetailsViewController.swift:57-61 | loading the screen changes only `wikiDescription`. The box ends bound to the reload listener and holding the last delivered value (its old value when none was delivered). The listener is called once with the current value at bind time, then once per delivery in order |
| `EntryDetails.ViewDidLoadShowsDeliveredDescription` | GeoMemories/Scenes/EntryDetails/EntryDetailsViewController.swift:57-61 | after the screen loads, the description is the last value delivered (nil if none); the view reloads once at bind and once per delivery |
| `EntryDetails.NumberOfItems` | GeoMemories/Scenes/EntryDetails/EntryDetailsViewController.swift:132-151 | `userInfo` has one item exactly when the description is non-empty; `mediaCards` has one per card; `mapView` has one; `placeInfo` has one exactly when the Wikipedia description is non-nil and non-empty; an unknown section has none |
| `EntryDetails.TotalItemsCount` | GeoMemories/Scenes/EntryDetails/EntryDetailsViewController.swift:132-151 | the screen shows the cards, the map, and one item for each non-empty text |
| `EntryDetails.LayoutFor` | GeoMemories/Scenes/EntryDetails/EntryDetailsViewController.swift:216-232 | only the four section indices have a layout; `mediaCards` is the horizontal strip |
| `EntryDetails.OnlyFirstSectionHasNoHeader` | GeoMemories/Scenes/EntryDetails/EntryDetailsViewController.swift:234-277 | every section except section 0 has a header |
| `EntryDetails.PlaceInfoFollowsLookup` | GeoMemories/Scenes/EntryDetails/EntryDetailsViewController.swift:145-149 | after loading, the place-info row shows exactly when the last delivered description is non-empty |
| `EntryDetails.ModernMissHidesPlaceInfo` | GeoMemories/Services/WikipediaService.swift:79-92 | on iOS 26, a query without a description leaves the place-info row hidden |
| `LocationCell.Height` | GeoMemories/Scenes/LocationCell/LocationCellViewModel.swift:23-25 | the height is 60 for every item |
| `LocationCell.Description` | GeoMemories/Scenes/LocationCell/LocationCellViewModel.swift:27-56 | on iOS 26: the full address, else the coordinate text. Earlier: the formatted postal address, else the present parts joined with ", " |
| `LocationCell.FallbackAddressLayout` | GeoMemories/Scenes/LocationCell/LocationCellViewModel.swift:49-51 | in the fallback text each kept part is followed by exactly ", " unless it is last; there is no leading or trailing separator |
| `LocationCell.FallbackAddressExtremes` | GeoMemories/Scenes/LocationCell/LocationCellViewModel.swift:37-52 | with every part nil the text is `""`; with only the name it is the name; with every part present all eight are kept |
| `LocationCell.FallbackAddressEmptyIff` | GeoMemories/Scenes/LocationCell/LocationCellViewModel.swift:49-52 | the fallback text is empty exactly when no part is kept or the single kept part is empty |

## Left out

- `noDataStack` and `noSelfFound`: these arise only when a `weak self` has been released. That is object-lifetime plumbing, and the model has no such state.
- The production schema's lack of a unique constraint on `id`. The store is a map keyed by `id`, so it follows the test schema (`uniqueConstraints: [[\.$id]]`). Adding an id that is already stored is a constraint violation here, where the production store would hold two records.
- The test schema's unique constraint on `MediaEntry.linkedGeoEntry`, which allows at most one media item per entry. The app itself does not declare it.
- Floating point: coordinates are reals. NaN and infinities are not modelled, nor is `String(format: "%+.6f, %+.6f")`, whose text `LocationCell.Description` takes as an input. The same goes for `Coordinate2DRepresentable`'s equality and hashing.
- Geocoding of the `"<latitude>, <longitude>"` query: its result is an input of `Wikipedia.FindSuitableDescription`.
- Percent-encoding, `URL(string:)`, `URLSession` and `JSONDecoder`: these are function parameters.
- `Wikipedia.FetchDescription` does not fix which page it returns, because the order of a Swift dictionary's values is unspecified.
- Threads and queues. Descriptions reach the view model on the main queue after `viewDidLoad` has bound its listener, so `EntryDetails.ViewDidLoad` applies the bind first.
- `NSCache` memory pressure: eviction is any removal of keys (`MediaFiles.Evict`).
- Full file paths. The loaders receive the stored path relative to the documents directory, and the join with the directory is part of those parameters. The copy receives the joined destination, the documents directory string followed by `<uuidString>.mov`, as `saveMedia` builds it.
  - `saveMedia` records an image under the documents directory's absolute URL string, while `loadMediaPlaceholder` appends the stored path to the documents directory again.
  - Whether the decoder then finds the file depends on URL handling that is not part of this model.
- The ordering of Combine events: a `Future` keeps its first fulfilment and drops the rest (`Promise.Fulfil`).
- Branches of `saveMedia` that never complete are recorded as `Pending`. They are: a movie with no file URL, an image that fails to load, and a failed JPEG encode.
- `MediaCardViewModel.mediaURL` and `cachedImage` (file-system path building and a force-unwrapped image load). So are section titles, which are localized strings, and all UIKit views, layouts and controls except the header rule.
- GeoMemories/Services/FileService.swift is not part of this model. It repeats the import pipeline of `MediaFileWorker`.
- `Storage.GetGeoEntries` leaves the order of the returned records open, because the source does not sort its fetch.
- `EntryDetails.MakeViewModel` leaves the order of the cards open. It returns the order it used, which is a permutation of the media set.

## Findings

| source | as written | input that shows it | evidently intended | confidence | as-written member | corrected member |
|---|---|---|---|---|---|---|
| GeoMemories/Services/StorageService.swift:159-166 | the `catch` fulfils the promise with `invalidInput` but does not return, so the insert transaction still runs | an entry titled `"   "` with an id not yet stored, and no store fault: subscribers see `invalidInput`, yet the entry is stored | return after reporting the validation error, leaving the store unchanged | high; not executed | `Storage.RejectedEntryIsStillAdded` | `Storage.AddGeoEntryChecked` |
| GeoMemories/Services/StorageService.swift:212-219 | the same missing `return` in `updateGeoEntry` | a stored entry updated with latitude 91: `invalidInput` is reported and the record is overwritten | return after reporting the validation error | high; not executed | `Storage.RejectedUpdateIsStillWritten` | `Storage.UpdateGeoEntryChecked` |
| GeoMemories/Workers/MediaFileWorker.swift:130-140 | a failed `copyItem` fulfils the promise with `copyError` but does not return, so `addMediaEntry` is still called | a movie whose copy throws: a media record is requested for a file that does not exist | return after reporting the copy error | high; not executed | `MediaFiles.CopyFailureStillRequestsRecord` | `MediaFiles.SaveMediaChecked` |
| GeoMemories/Services/WikipediaService.swift:79-92 | on iOS 26, when the one fetch returns nil, the `Task` ends without calling the completion handler | a map item with a `cityWithContext` that has no Wikipedia page: the handler is never called | call the handler with nil, as the other branches do | medium; not executed | `Wikipedia.ModernMissNeverCompletes` | `Wikipedia.FindSuitableDescriptionChecked` |
