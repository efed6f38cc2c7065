/** The persistence layer of GeoMemories (StorageService.swift): the entry
    validator, the field mapper, the query builder and the four CRUD operations
    of `StorageService`, over a store that stands for the CoreStore data stack.

    The store holds `GeoEntry` records keyed by their `id` (the unique
    constraint on `id`) and `MediaEntry` objects keyed by object identity. The
    `media_entries` / `linked_geo_entry` relationship is a to-many / to-one
    inverse pair: writing one side re-points the other.

    Every `dataStack.perform` is one atomic step: its body runs against a draft
    of the store, and the draft is committed only if the body did not throw, no
    uniqueness conflict arose and the persistent store reports no fault. The
    `fault` parameter of each operation is that last, external, outcome. */
module Storage {
  import opened Wrappers
  import opened Uuids
  import opened Models
  import opened Text

  // ---------------------------------------------------------------------------
  // Errors
  // ---------------------------------------------------------------------------

  /** A failure reported by the persistent store on commit. */
  datatype PersistenceFault =
    | ConstraintViolation(id: Uuid)   // two `GeoEntry` objects with the same `id`
    | StoreFailure(code: int)         // any other SQLite / CoreData failure

  /** `CoreStoreError`, as far as this layer produces it: either the store
      failed, or the transaction body threw (`userError`). */
  datatype CoreStoreError =
    | InternalError(fault: PersistenceFault)
    | UserError(thrown: StorageServiceError)

  /** `StorageServiceError` (`noDataStack` is not modelled). */
  datatype StorageServiceError =
    | CoreStoreError(cause: CoreStoreError)
    | InvalidInput(message: string)
    | NotFound

  // ---------------------------------------------------------------------------
  // GeoEntryValidator
  // ---------------------------------------------------------------------------

  const TitleEmptyMessage: string := "Title cannot be empty"
  const LatitudeMessage: string := "Latitude must be between -90 and 90 degrees"
  const LongitudeMessage: string := "Longitude must be between -180 and 180 degrees"

  predicate LatitudeInRange(lat: real) { -90.0 <= lat <= 90.0 }
  predicate LongitudeInRange(lon: real) { -180.0 <= lon <= 180.0 }

  /** `GeoEntryValidator.validate`: the title check, then latitude, then
      longitude; the first failing check decides the message. */
  function Validate(e: GeoEntry): (r: Result<(), StorageServiceError>)
    ensures AllWhitespace(e.title) ==> r == Failure(InvalidInput(TitleEmptyMessage))
    ensures !AllWhitespace(e.title) && !LatitudeInRange(e.latitude) ==>
                r == Failure(InvalidInput(LatitudeMessage))
    ensures !AllWhitespace(e.title) && LatitudeInRange(e.latitude) && !LongitudeInRange(e.longitude) ==>
                r == Failure(InvalidInput(LongitudeMessage))
    ensures r.Success? <==>
              !AllWhitespace(e.title) && LatitudeInRange(e.latitude) && LongitudeInRange(e.longitude)
  {
    TrimEmptyIff(e.title);
    if Trim(e.title) == "" then Failure(InvalidInput(TitleEmptyMessage))
    else if !(e.latitude >= -90.0 && e.latitude <= 90.0) then Failure(InvalidInput(LatitudeMessage))
    else if !(e.longitude >= -180.0 && e.longitude <= 180.0) then Failure(InvalidInput(LongitudeMessage))
    else Success(())
  }

  /** Every rejection is an `invalidInput`, and the bounds are inclusive. */
  lemma ValidateRejectsOnlyInvalidInput(e: GeoEntry)
    ensures Validate(e).Failure? ==> Validate(e).error.InvalidInput?
    ensures !AllWhitespace(e.title) && e.latitude in {-90.0, 90.0} && e.longitude in {-180.0, 180.0} ==>
                Validate(e).Success?
  {
  }

  /** A default-constructed entry is rejected for its empty title, although its
      (0, 0) coordinates are in range. */
  lemma DefaultEntryFailsValidation(draw: Uuid)
    ensures LatitudeInRange(NewGeoEntry(draw).latitude) && LongitudeInRange(NewGeoEntry(draw).longitude)
    ensures Validate(NewGeoEntry(draw)) == Failure(InvalidInput(TitleEmptyMessage))
  {
  }

  // ---------------------------------------------------------------------------
  // GeoEntryMapper
  // ---------------------------------------------------------------------------

  /** `GeoEntryMapper.map(_:to:in:)`: copies id, title, description, latitude,
      longitude and the media set onto the target record. */
  function MapOnto(entry: GeoEntry, target: GeoEntry): GeoEntry
  {
    target.(id := entry.id, title := entry.title, description := entry.description,
            latitude := entry.latitude, longitude := entry.longitude, media := entry.media)
  }

  /** The mapper copies every stored field, so nothing of the target survives. */
  lemma MapOntoCopiesEveryField(entry: GeoEntry, target: GeoEntry)
    ensures MapOnto(entry, target) == entry
  {
  }

  // ---------------------------------------------------------------------------
  // The store and its relationship invariant
  // ---------------------------------------------------------------------------

  datatype Store = Store(entries: map<Uuid, GeoEntry>, media: map<MediaId, MediaEntry>)

  /** Records are keyed by their own id, and the two sides of the media
      relationship agree. */
  predicate Consistent(s: Store)
  {
    && (forall k :: k in s.entries ==> s.entries[k].id == k)
    && (forall k, m :: k in s.entries && m in s.entries[k].media ==>
          m in s.media && s.media[m].linkedGeoEntry == Some(k))
    && (forall m :: m in s.media && s.media[m].linkedGeoEntry.Some? ==>
          s.media[m].linkedGeoEntry.value in s.entries
          && m in s.entries[s.media[m].linkedGeoEntry.value].media)
  }

  /** A media object is in an entry's media set exactly when its
      `linkedGeoEntry` is that entry; so it belongs to at most one entry. */
  lemma OwnershipIsInverse(s: Store, k: Uuid, k': Uuid, m: MediaId)
    requires Consistent(s) && k in s.entries && m in s.media
    ensures m in s.entries[k].media <==> s.media[m].linkedGeoEntry == Some(k)
    ensures k' in s.entries && k != k' && m in s.entries[k].media ==> m !in s.entries[k'].media
  {
  }

  /** An ownerless media object is valid: it sits in no entry's media set. */
  lemma UnlinkedMediaIsOwnerless(s: Store, m: MediaId)
    requires Consistent(s) && m in s.media && s.media[m].linkedGeoEntry.None?
    ensures forall k :: k in s.entries ==> m !in s.entries[k].media
  {
  }

  /** The back-reference of media object `m` after record `rec` is written. */
  function Relink(me: MediaEntry, claimed: bool, owner: Uuid): MediaEntry
  {
    if claimed then me.(linkedGeoEntry := Some(owner))
    else if me.linkedGeoEntry == Some(owner) then me.(linkedGeoEntry := None)
    else me
  }

  /** Stores `rec` under its id (inserting or overwriting) and keeps the inverse
      relationship: the media `rec` claims leave their previous owners and point
      to `rec`; the media `rec` no longer claims lose their owner. */
  function Write(s: Store, rec: GeoEntry): (s': Store)
    ensures s'.entries.Keys == s.entries.Keys + {rec.id}
    ensures s'.entries[rec.id] == rec
    ensures forall k :: k in s.entries && k != rec.id ==>
              s'.entries[k] == s.entries[k].(media := s.entries[k].media - rec.media)
    ensures s'.media.Keys == s.media.Keys
    ensures forall m :: m in s.media ==>
              s'.media[m].mediaPath == s.media[m].mediaPath && s'.media[m].mediaType == s.media[m].mediaType
  {
    var others := map k | k in s.entries && k != rec.id ::
                    s.entries[k].(media := s.entries[k].media - rec.media);
    Store(others[rec.id := rec],
          map m | m in s.media :: Relink(s.media[m], m in rec.media, rec.id))
  }

  /** Writing a record whose media are all in the store keeps the store consistent. */
  lemma WritePreservesConsistency(s: Store, rec: GeoEntry)
    requires Consistent(s) && rec.media <= s.media.Keys
    ensures Consistent(Write(s, rec))
  {
    var s' := Write(s, rec);
    forall m | m in s'.media && s'.media[m].linkedGeoEntry.Some?
      ensures s'.media[m].linkedGeoEntry.value in s'.entries
      ensures m in s'.entries[s'.media[m].linkedGeoEntry.value].media
    {
      if m !in rec.media {
        var o := s.media[m].linkedGeoEntry.value;
        assert s'.media[m] == s.media[m];
        assert m in s.entries[o].media;
      }
    }
    forall k, m | k in s'.entries && m in s'.entries[k].media
      ensures m in s'.media && s'.media[m].linkedGeoEntry == Some(k)
    {
      if k != rec.id {
        assert m in s.entries[k].media && m !in rec.media;
      }
    }
  }

  /** Removes the entries whose keys are in `ks`; media that pointed to them lose
      their owner (the relationship's nullify delete rule). */
  function RemoveKeys(s: Store, ks: set<Uuid>): (s': Store)
    ensures s'.entries.Keys == s.entries.Keys - ks
    ensures forall k :: k in s'.entries ==> s'.entries[k] == s.entries[k]
    ensures s'.media.Keys == s.media.Keys
    ensures forall m :: m in s.media ==>
              s'.media[m] == (if s.media[m].linkedGeoEntry.Some? && s.media[m].linkedGeoEntry.value in ks
                              then s.media[m].(linkedGeoEntry := None) else s.media[m])
  {
    Store(map k | k in s.entries && k !in ks :: s.entries[k],
          map m | m in s.media :: if s.media[m].linkedGeoEntry.Some? && s.media[m].linkedGeoEntry.value in ks
                                  then s.media[m].(linkedGeoEntry := None) else s.media[m])
  }

  lemma RemoveKeysPreservesConsistency(s: Store, ks: set<Uuid>)
    requires Consistent(s)
    ensures Consistent(RemoveKeys(s, ks))
  {
  }

  // ---------------------------------------------------------------------------
  // QueryBuilder
  // ---------------------------------------------------------------------------

  /** `From<GeoEntry>()` and `From<GeoEntry>().where(\.$id == id)`. */
  datatype Query = FetchAll | ById(id: Uuid)

  predicate Matches(q: Query, e: GeoEntry)
  {
    match q
    case FetchAll => true
    case ById(id) => e.id == id
  }

  /** The keys of the records a query selects. */
  function Selected(s: Store, q: Query): (ks: set<Uuid>)
    ensures forall k :: k in ks <==> k in s.entries && Matches(q, s.entries[k])
  {
    set k | k in s.entries && Matches(q, s.entries[k])
  }

  /** In a consistent store the id query selects the record keyed by that id,
      if there is one, and nothing else. */
  lemma ByIdSelectsAtMostTheKey(s: Store, id: Uuid)
    requires Consistent(s)
    ensures Selected(s, ById(id)) == (if id in s.entries then {id} else {})
  {
  }

  /** `transaction.fetchOne(fetchByIdQuery(id))`. */
  function FetchOne(s: Store, id: Uuid): (r: Option<GeoEntry>)
    requires Consistent(s)
    ensures r.Some? <==> Selected(s, ById(id)) != {}
    ensures r.Some? ==> r.value.id == id && r.value == s.entries[id]
  {
    ByIdSelectsAtMostTheKey(s, id);
    if id in s.entries then Some(s.entries[id]) else None
  }

  /** `transaction.deleteAll(deleteByIdQuery(id))`: every record the query selects. */
  function DeleteAll(s: Store, q: Query): (s': Store)
    ensures forall k :: k in s'.entries <==> k in s.entries && !Matches(q, s.entries[k])
    ensures forall k :: k in s'.entries ==> s'.entries[k] == s.entries[k]
    ensures s'.media.Keys == s.media.Keys
    ensures forall m :: m in s.media ==>
              var owner := s.media[m].linkedGeoEntry;
              s'.media[m] == if owner.Some? && owner.value in s.entries && Matches(q, s.entries[owner.value])
                             then s.media[m].(linkedGeoEntry := None) else s.media[m]
  {
    RemoveKeys(s, Selected(s, q))
  }

  // ---------------------------------------------------------------------------
  // Transactions
  // ---------------------------------------------------------------------------

  /** The draft a transaction body works on: the store as the body sees it and
      the first uniqueness conflict its inserts caused, if any. */
  datatype Draft = Draft(store: Store, conflict: Option<Uuid>)

  /** `transaction.create(Into<GeoEntry>())` followed by `mapper.map`: a new
      object carrying `rec`'s fields. A second object with an id already present
      conflicts with the unique constraint on `id`. */
  function Create(d: Draft, rec: GeoEntry): (d': Draft)
    ensures d'.conflict.Some? <==> d.conflict.Some? || rec.id in d.store.entries
    ensures d.conflict.Some? ==> d' == d
    ensures d'.conflict.Some? ==> d'.store == d.store && d'.conflict == Some(d.conflict.GetOr(rec.id))
    ensures d'.conflict.None? ==>
              && d'.store.entries.Keys == d.store.entries.Keys + {rec.id}
              && d'.store.entries[rec.id] == rec
              && (forall k :: k in d.store.entries ==>
                    d'.store.entries[k] == d.store.entries[k].(media := d.store.entries[k].media - rec.media))
  {
    if d.conflict.Some? then d
    else if rec.id in d.store.entries then d.(conflict := Some(rec.id))
    else d.(store := Write(d.store, rec))
  }

  /** Ends a `perform`: the body's value and the draft are committed, or the
      base store is kept and the failure is reported. */
  function Commit<T>(base: Store, d: Draft, value: T, fault: Option<PersistenceFault>)
    : (out: (Store, Result<T, CoreStoreError>))
    ensures out.1.Success? <==> d.conflict.None? && fault.None?
    ensures out.1.Success? ==> out == (d.store, Success(value))
    ensures out.1.Failure? ==> out.0 == base && out.1.error.InternalError?
  {
    if d.conflict.Some? then (base, Failure(InternalError(ConstraintViolation(d.conflict.value))))
    else if fault.Some? then (base, Failure(InternalError(fault.value)))
    else (d.store, Success(value))
  }

  /** A transaction body that creates each of `recs` in turn. */
  function CreateAll(d: Draft, recs: seq<GeoEntry>): Draft
    decreases |recs|
  {
    if |recs| == 0 then d else CreateAll(Create(d, recs[0]), recs[1..])
  }

  /** Once a conflict is recorded, later creates keep it. */
  lemma {:induction false} CreateAllKeepsConflict(d: Draft, recs: seq<GeoEntry>)
    requires d.conflict.Some?
    ensures CreateAll(d, recs).conflict == d.conflict
    decreases |recs|
  {
    if |recs| > 0 {
      CreateAllKeepsConflict(Create(d, recs[0]), recs[1..]);
    }
  }

  /** Creates keep every id already in the draft. */
  lemma {:induction false} CreateAllKeepsKeys(d: Draft, recs: seq<GeoEntry>)
    ensures CreateAll(d, recs).conflict.None? ==> d.store.entries.Keys <= CreateAll(d, recs).store.entries.Keys
    decreases |recs|
  {
    if |recs| > 0 {
      CreateAllKeepsKeys(Create(d, recs[0]), recs[1..]);
    }
  }

  /** The media that the records of `recs` claim, together. */
  function ClaimedBy(recs: seq<GeoEntry>): (ms: set<MediaId>)
    ensures forall i :: 0 <= i < |recs| ==> recs[i].media <= ms
    ensures forall m :: m in ms ==> exists i :: 0 <= i < |recs| && m in recs[i].media
    decreases |recs|
  {
    if |recs| == 0 then {} else recs[0].media + ClaimedBy(recs[1..])
  }

  /** Without a conflict, a record already in the draft keeps every field and
      loses only the media that the later creates claim. */
  lemma {:induction false} CreateAllStripsClaims(d: Draft, recs: seq<GeoEntry>, k: Uuid)
    requires CreateAll(d, recs).conflict.None? && k in d.store.entries
    ensures k in CreateAll(d, recs).store.entries
    ensures CreateAll(d, recs).store.entries[k] ==
              d.store.entries[k].(media := d.store.entries[k].media - ClaimedBy(recs))
    decreases |recs|
  {
    if |recs| > 0 {
      var d1 := Create(d, recs[0]);
      if d1.conflict.Some? {
        CreateAllKeepsConflict(d1, recs[1..]);
        assert false;
      }
      CreateAllStripsClaims(d1, recs[1..], k);
    }
  }

  /** Without a conflict, every created record ends up in the draft under its
      id, with all its fields, except the media that later creates claim. */
  lemma CreateAllInsertsIds(d: Draft, recs: seq<GeoEntry>)
    ensures CreateAll(d, recs).conflict.None? ==>
              forall i :: 0 <= i < |recs| ==> recs[i].id in CreateAll(d, recs).store.entries
    ensures CreateAll(d, recs).conflict.None? ==>
              forall i :: 0 <= i < |recs| ==>
                CreateAll(d, recs).store.entries[recs[i].id] == recs[i].(media := recs[i].media - ClaimedBy(recs[i + 1..]))
  {
    if CreateAll(d, recs).conflict.None? {
      forall i | 0 <= i < |recs|
        ensures recs[i].id in CreateAll(d, recs).store.entries
        ensures CreateAll(d, recs).store.entries[recs[i].id] == recs[i].(media := recs[i].media - ClaimedBy(recs[i + 1..]))
      {
        CreateAllInsertsAt(d, recs, i);
      }
    }
  }

  /** The `i`-th create of a conflict-free body, as `CreateAllInsertsIds` states it. */
  lemma {:induction false} CreateAllInsertsAt(d: Draft, recs: seq<GeoEntry>, i: nat)
    requires i < |recs| && CreateAll(d, recs).conflict.None?
    ensures recs[i].id in CreateAll(d, recs).store.entries
    ensures CreateAll(d, recs).store.entries[recs[i].id] == recs[i].(media := recs[i].media - ClaimedBy(recs[i + 1..]))
    decreases |recs|
  {
    var d1 := Create(d, recs[0]);
    if d1.conflict.Some? {
      CreateAllKeepsConflict(d1, recs[1..]);
      assert false;
    }
    if i == 0 {
      CreateAllStripsClaims(d1, recs[1..], recs[0].id);
    } else {
      CreateAllInsertsAt(d1, recs[1..], i - 1);
      assert recs[1..][i - 1] == recs[i];
      assert recs[1..][i..] == recs[i + 1..];
    }
  }

  /** Two creates with the same id in one transaction conflict. */
  lemma {:induction false} CreateAllDuplicateConflicts(d: Draft, recs: seq<GeoEntry>, i: nat, j: nat)
    requires i < j < |recs| && recs[i].id == recs[j].id
    ensures CreateAll(d, recs).conflict.Some?
    decreases |recs|
  {
    var d1 := Create(d, recs[0]);
    if d1.conflict.Some? {
      CreateAllKeepsConflict(d1, recs[1..]);
    } else if i == 0 {
      assert recs[1..] == recs[1..j] + recs[j..];
      CreateAllSplit(d1, recs[1..j], recs[j..]);
      var mid := CreateAll(d1, recs[1..j]);
      if mid.conflict.Some? {
        CreateAllKeepsConflict(mid, recs[j..]);
      } else {
        CreateAllKeepsKeys(d1, recs[1..j]);
        assert Create(mid, recs[j]).conflict.Some?;
        assert recs[j..][1..] == recs[j + 1..];
        CreateAllKeepsConflict(Create(mid, recs[j]), recs[j + 1..]);
      }
    } else {
      CreateAllDuplicateConflicts(d1, recs[1..], i - 1, j - 1);
    }
  }

  /** A body that runs two lists of creates runs them one after the other. */
  lemma {:induction false} CreateAllSplit(d: Draft, xs: seq<GeoEntry>, ys: seq<GeoEntry>)
    ensures CreateAll(d, xs + ys) == CreateAll(CreateAll(d, xs), ys)
    decreases |xs|
  {
    if |xs| == 0 {
      assert xs + ys == ys;
    } else {
      assert (xs + ys)[0] == xs[0];
      assert (xs + ys)[1..] == xs[1..] + ys;
      CreateAllSplit(Create(d, xs[0]), xs[1..], ys);
    }
  }

  /** `dataStack.perform` with a body that creates each of `recs`. */
  function PerformCreates(s: Store, recs: seq<GeoEntry>, fault: Option<PersistenceFault>)
    : (out: (Store, Result<seq<GeoEntry>, CoreStoreError>))
    ensures out.1.Failure? ==> out.0 == s
    ensures out.1.Success? ==> out.1.value == recs
                               && forall i :: 0 <= i < |recs| ==> recs[i].id in out.0.entries
    ensures out.1.Success? ==>
              forall i :: 0 <= i < |recs| ==>
                out.0.entries[recs[i].id] == recs[i].(media := recs[i].media - ClaimedBy(recs[i + 1..]))
    ensures out.1.Success? <==> fault.None? && CreateAll(Draft(s, None), recs).conflict.None?
  {
    CreateAllInsertsIds(Draft(s, None), recs);
    Commit(s, CreateAll(Draft(s, None), recs), recs, fault)
  }

  /** The duplicate test of the test suite: under the unique constraint on `id`,
      a transaction that creates two records with the same id fails with a
      constraint violation and commits nothing. */
  lemma DuplicateIdsAbortTransaction(s: Store, recs: seq<GeoEntry>, fault: Option<PersistenceFault>, i: nat, j: nat)
    requires i < j < |recs| && recs[i].id == recs[j].id
    ensures PerformCreates(s, recs, fault).0 == s
    ensures PerformCreates(s, recs, fault).1.Failure?
    ensures PerformCreates(s, recs, fault).1.error.InternalError?
    ensures PerformCreates(s, recs, fault).1.error.fault.ConstraintViolation?
  {
    CreateAllDuplicateConflicts(Draft(s, None), recs, i, j);
  }

  /** Fresh entries, one per draw of a non-repeating random source, all commit
      in one transaction when none of the draws is stored yet. */
  lemma FreshEntriesCommit(s: Store, draws: seq<Uuid>)
    requires DistinctDraws(draws)
    requires forall i :: 0 <= i < |draws| ==> draws[i] !in s.entries
    ensures PerformCreates(s, NewGeoEntries(draws), None).1.Success?
  {
    NewGeoEntriesHaveDistinctIds(draws);
    FreshCreatesDoNotConflict(Draft(s, None), NewGeoEntries(draws));
  }

  /** Creates of pairwise distinct ids that are all absent from the draft do
      not conflict. */
  lemma {:induction false} FreshCreatesDoNotConflict(d: Draft, recs: seq<GeoEntry>)
    requires d.conflict.None?
    requires forall i :: 0 <= i < |recs| ==> recs[i].id !in d.store.entries
    requires forall i, j :: 0 <= i < j < |recs| ==> recs[i].id != recs[j].id
    ensures CreateAll(d, recs).conflict.None?
    decreases |recs|
  {
    if |recs| > 0 {
      var d1 := Create(d, recs[0]);
      assert d1.store.entries.Keys == d.store.entries.Keys + {recs[0].id};
      forall i | 0 <= i < |recs[1..]|
        ensures recs[1..][i].id !in d1.store.entries
      {
        assert recs[1..][i] == recs[i + 1];
      }
      FreshCreatesDoNotConflict(d1, recs[1..]);
    }
  }

  // ---------------------------------------------------------------------------
  // StorageService
  // ---------------------------------------------------------------------------

  /** What a `StorageService` call leaves behind: the store after its
      transaction, and the promise of its `Future` (what subscribers receive). */
  datatype Outcome<T> = Outcome(store: Store, published: Promise<Result<T, StorageServiceError>>)

  /** The promise state after the validation step: a failed validation calls the
      promise with `invalidInput` but does not return. */
  function AfterValidation<T>(entry: GeoEntry): (p: Promise<Result<T, StorageServiceError>>)
    ensures p.Fulfilled? <==> Validate(entry).Failure?
    ensures p.Fulfilled? ==> p.outcome == Failure(Validate(entry).error)
  {
    match Validate(entry)
    case Failure(err) => Pending.Fulfil(Failure(err))
    case Success(_) => Pending
  }

  /** `StorageService.addGeoEntry`, as written: validation failure is published,
      yet the insert transaction still runs and may commit. */
  function AddGeoEntry(s: Store, entry: GeoEntry, fault: Option<PersistenceFault>): (out: Outcome<GeoEntry>)
    ensures out.published.Fulfilled?
    ensures Validate(entry).Failure? ==> out.published.outcome == Failure(Validate(entry).error)
    ensures entry.id !in s.entries && fault.None? ==> out.store == Write(s, entry)
    ensures entry.id in s.entries || fault.Some? ==> out.store == s
    ensures Validate(entry).Success? && entry.id !in s.entries && fault.None? ==>
                out.published.outcome == Success(entry)
    ensures Validate(entry).Success? && entry.id in s.entries ==>
                out.published.outcome == Failure(CoreStoreError(InternalError(ConstraintViolation(entry.id))))
    ensures Validate(entry).Success? && entry.id !in s.entries && fault.Some? ==>
                out.published.outcome == Failure(CoreStoreError(InternalError(fault.value)))
  {
    var p := AfterValidation(entry);
    var d := Create(Draft(s, None), MapOnto(entry, NewGeoEntry(entry.id)));
    var (s', r) := Commit(s, d, d.store.entries[entry.id], fault);
    match r
    case Success(created) => Outcome(s', p.Fulfil(Success(created)))
    case Failure(e) => Outcome(s', p.Fulfil(Failure(CoreStoreError(e))))
  }

  /** `StorageService.updateGeoEntry`, as written: validation failure is
      published, yet the update transaction still runs. A missing id makes the
      body throw `notFound`, which comes back wrapped as a `userError`. */
  function UpdateGeoEntry(s: Store, entry: GeoEntry, fault: Option<PersistenceFault>): (out: Outcome<GeoEntry>)
    requires Consistent(s)
    ensures out.published.Fulfilled?
    ensures Validate(entry).Failure? ==> out.published.outcome == Failure(Validate(entry).error)
    ensures entry.id !in s.entries || fault.Some? ==> out.store == s
    ensures Validate(entry).Success? && entry.id !in s.entries ==>
                out.published.outcome == Failure(CoreStoreError(UserError(NotFound)))
    ensures entry.id in s.entries && fault.None? ==> out.store == Write(s, entry)
    ensures Validate(entry).Success? && entry.id in s.entries && fault.None? ==>
                out.published.outcome == Success(entry)
    ensures Validate(entry).Success? && entry.id in s.entries && fault.Some? ==>
                out.published.outcome == Failure(CoreStoreError(InternalError(fault.value)))
  {
    var p := AfterValidation(entry);
    match FetchOne(s, entry.id)
    case None =>
      Outcome(s, p.Fulfil(Failure(CoreStoreError(UserError(NotFound)))))
    case Some(existing) =>
      var updated := MapOnto(entry, existing);
      var (s', r) := Commit(s, Draft(Write(s, updated), None), updated, fault);
      match r
      case Success(v) => Outcome(s', p.Fulfil(Success(v)))
      case Failure(e) => Outcome(s', p.Fulfil(Failure(CoreStoreError(e))))
  }

  /** `StorageService.deleteGeoEntry`: deletes every record with the entry's id;
      an absent id is a successful no-op. */
  function DeleteGeoEntry(s: Store, entry: GeoEntry, fault: Option<PersistenceFault>): (out: Outcome<()>)
    requires Consistent(s)
    ensures out.published.Fulfilled?
    ensures fault.Some? ==>
              out.store == s && out.published.outcome == Failure(CoreStoreError(InternalError(fault.value)))
    ensures fault.None? ==> out.published.outcome == Success(())
    ensures fault.None? ==> out.store.entries.Keys == s.entries.Keys - {entry.id}
    ensures forall k :: k in out.store.entries ==> out.store.entries[k] == s.entries[k]
    ensures entry.id !in s.entries ==> out.store == s
    ensures out.store.media.Keys == s.media.Keys
    ensures forall m :: m in s.media ==>
              out.store.media[m] == (if fault.None? && s.media[m].linkedGeoEntry == Some(entry.id)
                                     then s.media[m].(linkedGeoEntry := None) else s.media[m])
    ensures Consistent(out.store)
  {
    ByIdSelectsAtMostTheKey(s, entry.id);
    RemoveKeysPreservesConsistency(s, Selected(s, ById(entry.id)));
    var d := Draft(DeleteAll(s, ById(entry.id)), None);
    var (s', r) := Commit(s, d, (), fault);
    match r
    case Success(v) => Outcome(s', Pending.Fulfil(Success(v)))
    case Failure(e) => Outcome(s', Pending.Fulfil(Failure(CoreStoreError(e))))
  }

  /** `StorageService.getGeoEntries`: every stored record exactly once, in the
      store's iteration order (left unspecified here). */
  method GetGeoEntries(s: Store, fault: Option<PersistenceFault>)
    returns (r: Result<seq<GeoEntry>, StorageServiceError>)
    requires Consistent(s)
    ensures fault.Some? ==> r == Failure(CoreStoreError(InternalError(fault.value)))
    ensures fault.None? ==> r.Success?
    ensures r.Success? ==> |r.value| == |s.entries|
    ensures r.Success? ==> forall k :: k in s.entries ==> s.entries[k] in r.value
    ensures r.Success? ==> forall i :: 0 <= i < |r.value| ==>
              r.value[i].id in s.entries && s.entries[r.value[i].id] == r.value[i]
    ensures r.Success? ==> forall i, j :: 0 <= i < j < |r.value| ==> r.value[i].id != r.value[j].id
    ensures r.Success? ==> (set i | 0 <= i < |r.value| :: r.value[i].id) == Selected(s, FetchAll)
  {
    if fault.Some? {
      return Failure(CoreStoreError(InternalError(fault.value)));
    }
    var listed: seq<GeoEntry> := [];
    var rest := s.entries.Keys;
    while rest != {}
      invariant rest <= s.entries.Keys
      invariant |listed| + |rest| == |s.entries|
      invariant forall k :: k in s.entries ==> k in rest || s.entries[k] in listed
      invariant forall i :: 0 <= i < |listed| ==>
                  listed[i].id in s.entries && listed[i].id !in rest && s.entries[listed[i].id] == listed[i]
      invariant forall i, j :: 0 <= i < j < |listed| ==> listed[i].id != listed[j].id
      decreases rest
    {
      var k :| k in rest;
      listed := listed + [s.entries[k]];
      rest := rest - {k};
    }
    IdsOfListing(s, listed);
    return Success(listed);
  }

  /** A listing of every stored record has exactly the keys the fetch-all
      query selects as its ids. */
  lemma IdsOfListing(s: Store, listed: seq<GeoEntry>)
    requires Consistent(s)
    requires forall k :: k in s.entries ==> s.entries[k] in listed
    requires forall i :: 0 <= i < |listed| ==> listed[i].id in s.entries
    ensures (set i | 0 <= i < |listed| :: listed[i].id) == Selected(s, FetchAll)
  {
    var ids := set i | 0 <= i < |listed| :: listed[i].id;
    forall k | k in s.entries
      ensures k in ids
    {
      var i :| 0 <= i < |listed| && listed[i] == s.entries[k];
      assert listed[i].id == k;
    }
  }

  /** Adding or updating an entry whose media are all stored keeps the two
      sides of the media relationship in agreement. */
  lemma ServiceWritesPreserveConsistency(s: Store, entry: GeoEntry, fault: Option<PersistenceFault>)
    requires Consistent(s) && entry.media <= s.media.Keys
    ensures Consistent(AddGeoEntry(s, entry, fault).store)
    ensures Consistent(UpdateGeoEntry(s, entry, fault).store)
  {
    WritePreservesConsistency(s, entry);
  }

  // ---------------------------------------------------------------------------
  // The missing `return` after a failed validation
  // ---------------------------------------------------------------------------

  /** As written, an entry rejected for its blank title is still inserted:
      subscribers see `invalidInput` while the store gains the record. */
  lemma RejectedEntryIsStillAdded(s: Store, entry: GeoEntry)
    requires AllWhitespace(entry.title) && entry.id !in s.entries
    ensures AddGeoEntry(s, entry, None).published == Fulfilled(Failure(InvalidInput(TitleEmptyMessage)))
    ensures entry.id in AddGeoEntry(s, entry, None).store.entries
    ensures AddGeoEntry(s, entry, None).store.entries[entry.id] == entry
  {
  }

  /** As written, an update rejected for an out-of-range latitude still
      overwrites the stored record. */
  lemma RejectedUpdateIsStillWritten(s: Store, entry: GeoEntry)
    requires Consistent(s) && entry.id in s.entries
    requires !AllWhitespace(entry.title) && !LatitudeInRange(entry.latitude)
    ensures UpdateGeoEntry(s, entry, None).published == Fulfilled(Failure(InvalidInput(LatitudeMessage)))
    ensures UpdateGeoEntry(s, entry, None).store.entries[entry.id] == entry
  {
  }

  /** `addGeoEntry` with the evidently intended `return` after a failed
      validation: a rejected entry never reaches the store. */
  function AddGeoEntryChecked(s: Store, entry: GeoEntry, fault: Option<PersistenceFault>): (out: Outcome<GeoEntry>)
    ensures Validate(entry).Failure? ==>
              out == Outcome(s, Fulfilled(Failure(Validate(entry).error)))
    ensures out.store != s ==> Validate(entry).Success? && entry.id in out.store.entries && out.store.entries[entry.id] == entry
    ensures Validate(entry).Success? ==> out == AddGeoEntry(s, entry, fault)
  {
    match Validate(entry)
    case Failure(err) => Outcome(s, Pending.Fulfil(Failure(err)))
    case Success(_) => AddGeoEntry(s, entry, fault)
  }

  /** `updateGeoEntry` with the evidently intended `return` after a failed
      validation: a rejected entry never reaches the store. */
  function UpdateGeoEntryChecked(s: Store, entry: GeoEntry, fault: Option<PersistenceFault>): (out: Outcome<GeoEntry>)
    requires Consistent(s)
    ensures Validate(entry).Failure? ==>
              out == Outcome(s, Fulfilled(Failure(Validate(entry).error)))
    ensures out.store != s ==> Validate(entry).Success? && entry.id in out.store.entries && out.store.entries[entry.id] == entry
    ensures Validate(entry).Success? ==> out == UpdateGeoEntry(s, entry, fault)
  {
    match Validate(entry)
    case Failure(err) => Outcome(s, Pending.Fulfil(Failure(err)))
    case Success(_) => UpdateGeoEntry(s, entry, fault)
  }

  /** With the checked operations, every record the store gains or changes
      passed validation: a store of valid records stays valid. */
  lemma CheckedWritesKeepRecordsValid(s: Store, entry: GeoEntry, fault: Option<PersistenceFault>)
    requires Consistent(s)
    requires forall k :: k in s.entries ==> Validate(s.entries[k]).Success?
    ensures var s' := AddGeoEntryChecked(s, entry, fault).store;
            forall k :: k in s'.entries ==> Validate(s'.entries[k]).Success?
    ensures var s' := UpdateGeoEntryChecked(s, entry, fault).store;
            forall k :: k in s'.entries ==> Validate(s'.entries[k]).Success?
  {
  }
}
