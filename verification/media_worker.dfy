/** `MediaFileWorker` (Workers/MediaFileWorker.swift): the placeholder cache
    for media thumbnails and the import of picked photos and videos.

    The operating system is reached only through parameters: the image
    decoder, the video frame extractor, the file copy, the JPEG encoder and the
    storage call `addMediaEntry`. Files are named by their path relative to the
    app's documents directory. */
module MediaFiles {
  import opened Wrappers
  import opened Uuids
  import opened Models
  import Storage

  /** A decoded `UIImage`. */
  datatype Bitmap = Bitmap(handle: nat)

  /** An error thrown by a system call (file copy, frame extraction). */
  datatype SystemError = SystemError(code: int)

  /** `MediaFileWorkerError` (`noSelfFound` is not modelled). */
  datatype MediaFileWorkerError =
    | StorageServiceError(storageError: Storage.StorageServiceError)
    | UnsupportedFormat
    | CopyError(error: SystemError)
    | ReadingError(cause: Option<SystemError>)

  // ---------------------------------------------------------------------------
  // loadMediaPlaceholder
  // ---------------------------------------------------------------------------

  /** `NSCache<NSString, UIImage>` keyed by `mediaPath`. */
  type Cache = map<string, Bitmap>

  /** A `CMTime`: `value / timescale` seconds. */
  datatype Time = Time(value: int, timescale: int)

  /** `CMTime(seconds: 1, preferredTimescale: 60)`. */
  const PlaceholderFrameTime: Time := Time(60, 60)

  /** `UIImage(contentsOfFile:)`: the decoded file, or nothing. */
  type ImageDecoder = string -> Option<Bitmap>

  /** `AVAssetImageGenerator.copyCGImage(at:actualTime:)`: the frame at a time, or the thrown error. */
  type FrameExtractor = (string, Time) -> Result<Bitmap, SystemError>

  /** `loadMediaPlaceholder(from:)`: the cache is consulted first; on a miss an
      image file is decoded and a video's frame at one second is extracted; a
      success is cached under the media path, a failure leaves the cache alone. */
  function LoadMediaPlaceholder(cache: Cache, entry: MediaEntry, decode: ImageDecoder, frameAt: FrameExtractor)
    : (out: (Cache, Result<Bitmap, MediaFileWorkerError>))
    ensures entry.mediaPath in cache ==> out == (cache, Success(cache[entry.mediaPath]))
    ensures out.1.Failure? ==> out.0 == cache
    ensures out.1.Success? ==> out.0 == cache[entry.mediaPath := out.1.value]
    ensures entry.mediaPath !in cache && entry.mediaType == RawValue(Image) ==>
              (out.1.Success? <==> decode(entry.mediaPath).Some?)
              && (out.1.Success? ==> out.1.value == decode(entry.mediaPath).value)
              && (out.1.Failure? ==> out.1.error == ReadingError(None))
    ensures entry.mediaPath !in cache && entry.mediaType == RawValue(Video) ==>
              match frameAt(entry.mediaPath, PlaceholderFrameTime)
              case Success(img) => out.1 == Success(img)
              case Failure(e) => out.1 == Failure(ReadingError(Some(e)))
    ensures entry.mediaPath !in cache && MediaTypeFromRaw(entry.mediaType).None? ==>
              out == (cache, Failure(UnsupportedFormat))
  {
    var key := entry.mediaPath;
    if key in cache then (cache, Success(cache[key]))
    else if entry.mediaType == RawValue(Image) then
      match decode(key)
      case None => (cache, Failure(ReadingError(None)))
      case Some(img) => (cache[key := img], Success(img))
    else if entry.mediaType == RawValue(Video) then
      match frameAt(key, PlaceholderFrameTime)
      case Failure(e) => (cache, Failure(ReadingError(Some(e))))
      case Success(img) => (cache[key := img], Success(img))
    else (cache, Failure(UnsupportedFormat))
  }

  /** After a successful load, every later load of the same media path returns
      the same image and leaves the cache as it is, whatever the loaders would
      now produce and whatever type the record claims. */
  lemma LoadIsIdempotent(cache: Cache, entry: MediaEntry, entry': MediaEntry,
                         decode: ImageDecoder, frameAt: FrameExtractor,
                         decode': ImageDecoder, frameAt': FrameExtractor)
    requires LoadMediaPlaceholder(cache, entry, decode, frameAt).1.Success?
    requires entry'.mediaPath == entry.mediaPath
    ensures var (c1, r1) := LoadMediaPlaceholder(cache, entry, decode, frameAt);
            LoadMediaPlaceholder(c1, entry', decode', frameAt') == (c1, r1)
  {
  }

  /** `NSCache` may drop entries at any time. */
  function Evict(cache: Cache, keys: set<string>): (c: Cache)
    ensures c.Keys == cache.Keys - keys
    ensures forall k :: k in c ==> c[k] == cache[k]
  {
    cache - keys
  }

  /** While the file is unchanged (the same loaders), a load returns the image
      it computed on a miss, whether it is later served from the cache or
      recomputed after eviction. */
  lemma ReloadAfterEvictionAgrees(cache: Cache, entry: MediaEntry, decode: ImageDecoder,
                                  frameAt: FrameExtractor, evicted: set<string>)
    requires entry.mediaPath !in cache
    requires LoadMediaPlaceholder(cache, entry, decode, frameAt).1.Success?
    ensures var (c1, r1) := LoadMediaPlaceholder(cache, entry, decode, frameAt);
            LoadMediaPlaceholder(Evict(c1, evicted), entry, decode, frameAt).1 == r1
  {
  }

  // ---------------------------------------------------------------------------
  // saveMedia(forEntry:result:)
  // ---------------------------------------------------------------------------

  /** What the picker result's `NSItemProvider` offers: whether it conforms to
      the movie type, whether it can load a `UIImage`, and what the two loads
      deliver (the temporary movie file, the image). */
  datatype ItemProvider = ItemProvider(
    hasMovie: bool,
    canLoadImage: bool,
    movieFile: Option<string>,
    image: Option<Bitmap>)

  /** A call to `storageService.addMediaEntry(of:withPath:for:)`. */
  datatype MediaRequest = MediaRequest(kind: MediaType, path: string, owner: Option<Uuid>)

  /** `FileManager.copyItem(at:to:)`: the thrown error, if any. */
  type FileCopier = (string, string) -> Option<SystemError>

  /** `UIImage.jpegData(compressionQuality: 0.95)`: whether it produced data. */
  type JpegEncoder = Bitmap -> bool

  /** The storage service's `addMediaEntry`, whose result the worker forwards. */
  type MediaAdder = MediaRequest -> Result<MediaEntry, Storage.StorageServiceError>

  /** What one `saveMedia` call did: what its `Future` publishes (`Pending` when
      it never completes), the file copy it made, the file it wrote, and the
      record it asked the storage service for. */
  datatype SaveTrace = SaveTrace(
    published: Promise<Result<MediaEntry, MediaFileWorkerError>>,
    copied: Option<(string, string)>,
    written: Option<string>,
    requested: Option<MediaRequest>)

  const MovieExtension: string := ".mov"
  const ImageExtension: string := ".jpg"

  /** `UUID().uuidString + ".mov"`. */
  function MovieFileName(draw: Uuid): string
    requires Valid(draw)
  {
    Text(draw) + MovieExtension
  }

  /** `UUID().uuidString + ".jpg"`. */
  function ImageFileName(draw: Uuid): string
    requires Valid(draw)
  {
    Text(draw) + ImageExtension
  }

  /** The worker's result for the storage service's answer: the record, or
      the storage error wrapped as `storageServiceError`. */
  function AddAnswer(r: Result<MediaEntry, Storage.StorageServiceError>): Result<MediaEntry, MediaFileWorkerError>
  {
    match r
    case Success(m) => Success(m)
    case Failure(e) => Failure(StorageServiceError(e))
  }

  /** Forwards the storage service's answer into the worker's promise. */
  function Forward(p: Promise<Result<MediaEntry, MediaFileWorkerError>>,
                   r: Result<MediaEntry, Storage.StorageServiceError>)
    : Promise<Result<MediaEntry, MediaFileWorkerError>>
  {
    match r
    case Success(m) => p.Fulfil(Success(m))
    case Failure(e) => p.Fulfil(Failure(StorageServiceError(e)))
  }

  /** `saveMedia(forEntry:result:)`, as written. `documents` is the
      `absoluteString` of the documents directory URL, `draw` the `UUID()` that
      names the new file. A movie is checked for before an image. A failed copy
      publishes `copyError` but, lacking a `return`, still asks for the record. */
  function SaveMedia(owner: Option<Uuid>, provider: ItemProvider, documents: string, draw: Uuid,
                     copy: FileCopier, jpeg: JpegEncoder, add: MediaAdder): (t: SaveTrace)
    requires Valid(draw)
    ensures !provider.hasMovie && !provider.canLoadImage ==>
              t == SaveTrace(Pending.Fulfil(Failure(UnsupportedFormat)), None, None, None)
    ensures provider.hasMovie ==> t.written.None? && (t.requested.Some? ==> t.requested.value.kind == Video)
    ensures !provider.hasMovie ==> t.copied.None? && (t.requested.Some? ==> t.requested.value.kind == Image)
    ensures provider.hasMovie && provider.movieFile.Some? ==>
              && t.copied == Some((provider.movieFile.value, documents + MovieFileName(draw)))
              && t.requested == Some(MediaRequest(Video, MovieFileName(draw), owner))
    ensures provider.hasMovie && provider.movieFile.Some? && copy(provider.movieFile.value, documents + MovieFileName(draw)).Some? ==>
              t.published == Fulfilled(Failure(CopyError(copy(provider.movieFile.value, documents + MovieFileName(draw)).value)))
    ensures t.published.Fulfilled? && t.published.outcome.Success? ==>
              t.requested.Some? && add(t.requested.value) == Success(t.published.outcome.value)
    ensures t.requested.Some? && (t.published.Pending? || !t.published.outcome.Failure? || !t.published.outcome.error.CopyError?) ==>
              t.published == Fulfilled(AddAnswer(add(t.requested.value)))
    ensures provider.hasMovie && provider.movieFile.Some? && copy(provider.movieFile.value, documents + MovieFileName(draw)).None? ==>
              t.published == Fulfilled(AddAnswer(add(MediaRequest(Video, MovieFileName(draw), owner))))
    ensures !provider.hasMovie && provider.canLoadImage && provider.image.Some? && jpeg(provider.image.value) ==>
              && t.written == Some(documents + ImageFileName(draw))
              && t.requested == Some(MediaRequest(Image, documents + ImageFileName(draw), owner))
              && t.published == Fulfilled(AddAnswer(add(MediaRequest(Image, documents + ImageFileName(draw), owner))))
    ensures provider.hasMovie && provider.movieFile.None? ==> t == SaveTrace(Pending, None, None, None)
    ensures !provider.hasMovie && provider.canLoadImage && (provider.image.None? || !jpeg(provider.image.value)) ==>
              t == SaveTrace(Pending, None, None, None)
    ensures t.requested.None? ==> t.published.Pending? || t.published.outcome == Failure(UnsupportedFormat)
  {
    if provider.hasMovie then
      match provider.movieFile
      case None => SaveTrace(Pending, None, None, None)
      case Some(url) =>
        var fileName := MovieFileName(draw);
        var destination := documents + fileName;
        var p := match copy(url, destination)
                 case Some(e) => Pending.Fulfil(Failure(CopyError(e)))
                 case None => Pending;
        var request := MediaRequest(Video, fileName, owner);
        SaveTrace(Forward(p, add(request)), Some((url, destination)), None, Some(request))
    else if provider.canLoadImage then
      match provider.image
      case None => SaveTrace(Pending, None, None, None)
      case Some(img) =>
        var imagePath := documents + ImageFileName(draw);
        if jpeg(img) then
          var request := MediaRequest(Image, imagePath, owner);
          SaveTrace(Forward(Pending, add(request)), None, Some(imagePath), Some(request))
        else SaveTrace(Pending, None, None, None)
    else SaveTrace(Pending.Fulfil(Failure(UnsupportedFormat)), None, None, None)
  }

  /** The two file-naming rules: a video's record path is the bare file name
      `<uuidString>.mov`; an image's record path is the absolute URL string of
      `<uuidString>.jpg` in the documents directory. */
  lemma SavedPathShapes(owner: Option<Uuid>, provider: ItemProvider, documents: string, draw: Uuid,
                        copy: FileCopier, jpeg: JpegEncoder, add: MediaAdder)
    requires Valid(draw)
    ensures var t := SaveMedia(owner, provider, documents, draw, copy, jpeg, add);
            t.requested.Some? ==>
              var path := t.requested.value.path;
              (t.requested.value.kind == Video ==>
                 |path| == 40 && path[..36] == Text(draw) && path[36..] == ".mov")
              && (t.requested.value.kind == Image ==>
                 |path| == |documents| + 40 && path[..|documents|] == documents
                 && path[|documents|..|documents| + 36] == Text(draw) && path[|documents| + 36..] == ".jpg")
  {
    var t := SaveMedia(owner, provider, documents, draw, copy, jpeg, add);
    if t.requested.Some? {
      var path := t.requested.value.path;
      if t.requested.value.kind == Image {
        assert path == documents + (Text(draw) + ImageExtension);
      }
    }
  }

  /** Two imports with different `UUID()` draws never name the same file. */
  lemma DistinctDrawsNameDistinctFiles(u: Uuid, v: Uuid)
    requires Valid(u) && Valid(v) && u != v
    ensures MovieFileName(u) != MovieFileName(v)
    ensures ImageFileName(u) != ImageFileName(v)
    ensures MovieFileName(u) != ImageFileName(v)
  {
    SuffixedTextInjective(u, v, MovieExtension);
    SuffixedTextInjective(u, v, ImageExtension);
    assert MovieFileName(u)[37] == 'm' && ImageFileName(v)[37] == 'j';
  }

  /** As written, a failed copy is reported as `copyError` while a record for
      the file that was never copied is still requested. */
  lemma CopyFailureStillRequestsRecord(owner: Option<Uuid>, url: string, documents: string, draw: Uuid,
                                       copy: FileCopier, jpeg: JpegEncoder, add: MediaAdder)
    requires Valid(draw)
    requires copy(url, documents + MovieFileName(draw)).Some?
    ensures var t := SaveMedia(owner, ItemProvider(true, false, Some(url), None), documents, draw, copy, jpeg, add);
            && t.published == Fulfilled(Failure(CopyError(copy(url, documents + MovieFileName(draw)).value)))
            && t.requested == Some(MediaRequest(Video, MovieFileName(draw), owner))
  {
  }

  /** `saveMedia` with a `return` after the failed copy, as evidently intended:
      a failed copy publishes `copyError` and requests no record. */
  function SaveMediaChecked(owner: Option<Uuid>, provider: ItemProvider, documents: string, draw: Uuid,
                            copy: FileCopier, jpeg: JpegEncoder, add: MediaAdder): (t: SaveTrace)
    requires Valid(draw)
    ensures provider.hasMovie && provider.movieFile.Some? && copy(provider.movieFile.value, documents + MovieFileName(draw)).Some? ==>
              t.published == Fulfilled(Failure(CopyError(copy(provider.movieFile.value, documents + MovieFileName(draw)).value)))
              && t.requested.None?
    ensures t.requested.Some? && t.requested.value.kind == Video ==>
              t.copied.Some? && copy(t.copied.value.0, t.copied.value.1).None?
    ensures !(provider.hasMovie && provider.movieFile.Some? && copy(provider.movieFile.value, documents + MovieFileName(draw)).Some?) ==>
              t == SaveMedia(owner, provider, documents, draw, copy, jpeg, add)
  {
    if provider.hasMovie && provider.movieFile.Some? then
      var url := provider.movieFile.value;
      var destination := documents + MovieFileName(draw);
      match copy(url, destination)
      case Some(e) => SaveTrace(Pending.Fulfil(Failure(CopyError(e))), Some((url, destination)), None, None)
      case None => SaveMedia(owner, provider, documents, draw, copy, jpeg, add)
    else SaveMedia(owner, provider, documents, draw, copy, jpeg, add)
  }
}
