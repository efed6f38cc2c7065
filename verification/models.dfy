/** The two persisted record kinds of GeoMemories, `GeoEntry` and `MediaEntry`,
    and the `MediaType` raw-value enum. */
module Models {
  import opened Wrappers
  import opened Uuids

  // ---------------------------------------------------------------------------
  // MediaType
  // ---------------------------------------------------------------------------

  /** `enum MediaType: Int, CaseIterable`. */
  datatype MediaType = Image | Video

  const AllMediaTypes: seq<MediaType> := [Image, Video]

  function RawValue(t: MediaType): int
  {
    match t
    case Image => 0
    case Video => 1
  }

  /** `MediaType(rawValue:)`. */
  function MediaTypeFromRaw(raw: int): Option<MediaType>
  {
    if raw == 0 then Some(Image)
    else if raw == 1 then Some(Video)
    else None
  }

  /** The raw-value initializer inverts `rawValue`, and nothing but the two raw
      values 0 and 1 names a case. */
  lemma MediaTypeRawRoundTrip(t: MediaType, raw: int)
    ensures MediaTypeFromRaw(RawValue(t)) == Some(t)
    ensures MediaTypeFromRaw(raw) == Some(t) <==> RawValue(t) == raw
    ensures MediaTypeFromRaw(raw).None? <==> raw != 0 && raw != 1
  {
  }

  /** `allCases` lists every case exactly once, `image` (raw value 0) first. */
  lemma AllMediaTypesComplete(t: MediaType)
    ensures |AllMediaTypes| == 2 && t in AllMediaTypes
    ensures RawValue(AllMediaTypes[0]) == 0 && RawValue(AllMediaTypes[1]) == 1
  {
  }

  // ---------------------------------------------------------------------------
  // Records
  // ---------------------------------------------------------------------------

  /** The identity of a `MediaEntry` object in the store. */
  datatype MediaId = MediaId(n: nat)

  /** A stored memory: the `id`, `title`, `entry_description`, `latitude`,
      `longitude` fields and the `media_entries` relationship (the set of owned
      media objects). Coordinates are `Double` in the app; here they are reals. */
  datatype GeoEntry = GeoEntry(
    id: Uuid,
    title: string,
    description: string,
    latitude: real,
    longitude: real,
    media: set<MediaId>)

  /** A stored media item: the optional `linked_geo_entry` back-reference (by the
      owner's id), `media_path` and the raw `media_type`. */
  datatype MediaEntry = MediaEntry(
    linkedGeoEntry: Option<Uuid>,
    mediaPath: string,
    mediaType: int)

  /** `GeoEntry()`: every stored field at its declared default, and `id` drawn
      from `UUID()`. */
  function NewGeoEntry(draw: Uuid): (e: GeoEntry)
    ensures e.id == draw
    ensures e.title == "" && e.description == ""
    ensures e.latitude == 0.0 && e.longitude == 0.0
    ensures e.media == {}
  {
    GeoEntry(draw, "", "", 0.0, 0.0, {})
  }

  /** One `GeoEntry()` per draw of the random source, in order. */
  function NewGeoEntries(draws: seq<Uuid>): (es: seq<GeoEntry>)
    ensures |es| == |draws|
    ensures forall i :: 0 <= i < |es| ==> es[i] == NewGeoEntry(draws[i])
  {
    if |draws| == 0 then [] else [NewGeoEntry(draws[0])] + NewGeoEntries(draws[1..])
  }

  /** Each new entry gets its own id: entries built from a random source that
      never repeats itself carry pairwise distinct ids. */
  lemma NewGeoEntriesHaveDistinctIds(draws: seq<Uuid>)
    requires DistinctDraws(draws)
    ensures forall i, j :: 0 <= i < j < |draws| ==> NewGeoEntries(draws)[i].id != NewGeoEntries(draws)[j].id
  {
  }

  /** `MediaEntry()`: no owner, empty path, `MediaType.image.rawValue`. */
  function NewMediaEntry(): (m: MediaEntry)
    ensures m.linkedGeoEntry.None?
    ensures m.mediaPath == ""
    ensures MediaTypeFromRaw(m.mediaType) == Some(Image)
  {
    MediaEntry(None, "", RawValue(Image))
  }
}
