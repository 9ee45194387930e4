/** `delta_sync`: reconcile a client manifest, the server's manifest and a batch of uploads. */
module SyncHandler {
  import opened Records
  import opened Configuration
  import opened Environment
  import opened Codec
  import opened KeyNames
  import opened Manifest
  import opened Batch
  import opened Database
  import opened SyncTriage
  import opened SyncSpec
  import opened SyncResults
  import opened SyncPromises

  method SelectDownloads(cfg: Config, client: map<string, Held>, manifest: seq<ManifestEntry>) returns (keys: seq<string>)
    ensures keys == Selected(cfg, client, manifest)
  {
    keys := [];
    for i := 0 to |manifest|
      invariant keys == Selected(cfg, client, manifest[..i])
    {
      assert manifest[..i + 1][..i] == manifest[..i];
      if Wanted(cfg, client, manifest[i]) {
        keys := keys + [manifest[i].key];
      }
    }
    assert manifest[..|manifest|] == manifest;
  }

  /** The upload loop. */
  method TriageUploads(cfg: Config, h: Hashing, server: map<string, ManifestEntry>, client: map<string, Held>,
                       start: int, uploads: seq<Upload>)
    returns (accepted: seq<Entry>, errors: seq<SyncError>, runningSize: int)
    ensures var t := TriageAll(cfg, h, server, client, start, uploads);
      accepted == t.accepted && errors == t.errors && runningSize == t.running
  {
    accepted, errors := [], [];
    var seen: set<nat> := {};
    runningSize := start;
    for i := 0 to |uploads|
      invariant Triage(seen, accepted, errors, runningSize) == TriageAll(cfg, h, server, client, start, uploads[..i])
    {
      assert uploads[..i + 1][..i] == uploads[..i];
      var u := uploads[i];
      var keyHash := h.keyHash(u.key);
      if keyHash in seen {
        assert seen + {keyHash} == seen;
        errors := errors + [SyncError(u.key, DuplicateInBatch)];
        continue;
      }
      seen := seen + {keyHash};
      match ValidateKey(u.key) {
        case Err(e) =>
          errors := errors + [SyncError(u.key, BadKey(e))];
          continue;
        case Ok(_) =>
      }
      if Blocked(cfg, u.key) {
        errors := errors + [SyncError(u.key, DatastoreDisabled)];
        continue;
      }
      if |u.value| > MaxSizeForKey(cfg, u.key) {
        errors := errors + [SyncError(u.key, TooLarge)];
        continue;
      }
      var checksum := h.checksum(u.value);
      if u.checksum.Some? && checksum != u.checksum.value {
        errors := errors + [SyncError(u.key, ChecksumMismatch)];
        continue;
      }
      if Dominated(server, client, u.key) {
        errors := errors + [SyncError(u.key, ServerIsNewer)];
        continue;
      }
      var newRunning := runningSize - ServerSize(server, u.key) + |u.value|;
      if newRunning > cfg.maxBackupSize {
        errors := errors + [SyncError(u.key, StorageLimit)];
        continue;
      }
      runningSize := newRunning;
      accepted := accepted + [Entry(u.key, u.value, checksum)];
    }
    assert uploads[..|uploads|] == uploads;
  }

  method FailAll(keys: seq<string>, reason: Reason) returns (errors: seq<SyncError>)
    ensures AllFailed(keys, reason, errors)
  {
    errors := [];
    for i := 0 to |keys|
      invariant AllFailed(keys[..i], reason, errors)
    {
      errors := errors + [SyncError(keys[i], reason)];
    }
  }

  /** Read the wanted rows; an error for each of them when that fails. */
  method FetchDownloads(db: DatabaseService, w: Setting, z: Zstd, keys: seq<string>)
    returns (downloads: seq<Download>, errors: seq<SyncError>)
    requires db.Valid() && DistinctStrings(keys)
    modifies db
    ensures db.Valid() && LanesKept(old(db.state), db.state, 0, QUERY_CONCURRENCY)
    ensures db.base == old(db.base) && old(db.trace) <= db.trace
    ensures !w.shared ==> db.state == old(db.state)
    ensures forall i :: 0 <= i < |errors| ==> errors[i].reason.DownloadFailed?
    ensures errors != [] ==> downloads == [] && AllFailed(keys, DownloadFailed, errors)
    ensures errors != [] ==> w.faulty || AnyInvalid(keys)
    ensures AnyInvalid(keys) ==> errors != []
    ensures errors == [] ==>
      exists entries ::
        && FetchedSince(z, db.base, db.state.history, |old(db.state).history|, KeySet(keys), entries)
        && SameDownloads(entries, downloads)
    ensures !w.shared && errors == [] ==>
      exists entries :: Fetched(z, db.state.rows, keys, entries) && SameDownloads(entries, downloads)
  {
    downloads, errors := [], [];
    if keys == [] {
      assert Fetched(z, db.state.rows, keys, []) && SameDownloads([], downloads);
      assert FetchedSince(z, db.base, db.state.history, |db.state.history|, KeySet(keys), []);
      return;
    }
    var fetched := db.GetDataKeys(w, z, keys);
    match fetched {
      case Some(entries) =>
        for i := 0 to |entries|
          invariant SameDownloads(entries[..i], downloads)
        {
          downloads := downloads + [Download(entries[i].key, entries[i].value, entries[i].version, entries[i].checksum)];
        }
        assert entries[..|entries|] == entries;
      case None =>
        errors := FailAll(keys, DownloadFailed);
    }
  }

  /** One upload result and one manifest entry for each saved entry. */
  method CollectResults(saved: seq<SavedEntry>)
    returns (uploaded: seq<UploadResult>, updates: map<string, ManifestEntry>)
    ensures |uploaded| == |saved| && forall j :: 0 <= j < |saved| ==> uploaded[j] == ResultOf(saved[j])
    ensures updates == Updates(saved) && KeyedByKey(updates)
  {
    uploaded, updates := [], map[];
    for i := 0 to |saved|
      invariant |uploaded| == i && forall j :: 0 <= j < i ==> uploaded[j] == ResultOf(saved[j])
      invariant updates == Updates(saved[..i])
    {
      assert saved[..i + 1][..i] == saved[..i];
      uploaded := uploaded + [ResultOf(saved[i])];
      updates := updates[saved[i].key := UpdateOf(saved[i])];
    }
    assert saved[..|saved|] == saved;
    UpdatesKeyed(saved);
  }

  /** Save what was accepted; an error for each of it when that fails. */
  method SaveUploads(db: DatabaseService, w: Setting, cfg: Config, z: Zstd, accepted: seq<Entry>)
    returns (uploaded: seq<UploadResult>, updates: map<string, ManifestEntry>, errors: seq<SyncError>)
    requires db.Valid() && LanesFree(db.state.slots)
    requires DistinctEntries(accepted)
    modifies db
    ensures db.Valid() && LanesFree(db.state.slots)
    ensures db.base == old(db.base) && old(db.trace) <= db.trace
    ensures old(db.state.history) <= db.state.history
    ensures ResultsTrue(cfg, z, db.base, db.state.history, accepted, uploaded)
    ensures KeyedByKey(updates)
    ensures forall i :: 0 <= i < |errors| ==> errors[i].reason.SaveFailed?
    ensures AnsweredOnce(accepted, uploaded, errors) <==> errors != [] || AllKept(cfg, accepted)
    ensures !w.shared && !w.lossy && AllKept(cfg, accepted) ==>
      SavedAlone(cfg, z, old(db.state.rows), db.state.rows, accepted, uploaded, updates, errors)
    ensures errors != [] && !w.shared && !w.lossy ==> w.faulty
  {
    if accepted == [] {
      NothingToSave(cfg, z, db.state.rows);
      return [], map[], [];
    }
    PreparedAreDistinct(cfg, z, accepted);
    ghost var rows := db.state.rows;
    var result, order := db.SaveDataKeysBatch(w, cfg, z, accepted);
    db.HistoryExtends(old(db.trace), old(db.state.history));
    match result {
      case Some(saved) =>
        uploaded, updates := CollectResults(saved);
        errors := [];
        AnsweredIfKept(cfg, z, accepted, order, saved, uploaded);
        RecordedAreTrue(cfg, z, db.base, db.state.history, accepted, order, saved, uploaded);
        if !w.shared && !w.lossy && AllKept(cfg, accepted) {
          BatchSavesAlone(cfg, z, rows, db.state.rows, accepted, order, saved, uploaded);
        }
      case None =>
        uploaded, updates := [], map[];
        errors := FailAll(EntryKeys(accepted), SaveFailed);
        AllFailedAnswers(accepted, errors);
    }
  }

  /** Select the rows that the client misses and read them. */
  method SendDown(db: DatabaseService, w: Setting, cfg: Config, z: Zstd, request: SyncRequest,
                  manifest: seq<ManifestEntry>, ghost rows: Table)
    returns (downloads: seq<Download>, errors: seq<SyncError>)
    requires db.Valid() && LanesFree(db.state.slots)
    requires Enumerates(manifest, rows)
    modifies db
    ensures db.Valid() && LanesFree(db.state.slots)
    ensures db.base == old(db.base) && old(db.trace) <= db.trace
    ensures !w.shared ==> db.state == old(db.state)
    ensures forall i :: 0 <= i < |errors| ==> errors[i].reason.DownloadFailed?
    ensures !w.shared && rows == old(db.state.rows) ==> FetchedAlone(cfg, z, request, rows, downloads, errors)
    ensures if errors == [] then
              DownloadsTrue(cfg, z, request, rows, db.base, db.state.history, |old(db.state).history|, downloads)
            else downloads == [] && FailuresExact(cfg, request, rows, errors)
    ensures errors != [] ==> w.faulty || !ValidKeys(rows)
  {
    var keys := SelectDownloads(cfg, ClientView(request), manifest);
    SelectedAreMissing(cfg, request, rows, manifest);
    downloads, errors := FetchDownloads(db, w, z, keys);
    assert forall i :: 0 <= i < |keys| ==> keys[i] in keys && Missing(cfg, request, rows, keys[i]);
    if errors != [] {
      FailedAreMissing(cfg, request, rows, manifest, errors);
    } else {
      ghost var read :| FetchedSince(z, db.base, db.state.history, |old(db.state).history|, KeySet(keys), read)
        && SameDownloads(read, downloads);
      FetchedIsTrue(cfg, z, request, rows, db.base, db.state.history, |old(db.state).history|, manifest, read, downloads);
      if !w.shared && rows == db.state.rows {
        ghost var entries :| Fetched(z, db.state.rows, keys, entries) && SameDownloads(entries, downloads);
        FetchedIsExact(cfg, z, request, rows, manifest, entries, downloads);
      }
    }
  }

  /** `delta_sync`. */
  method DeltaSync(db: DatabaseService, w: Setting, cfg: Config, z: Zstd, h: Hashing, request: SyncRequest)
    returns (response: SyncResponse)
    requires db.Valid() && LanesFree(db.state.slots)
    modifies db
    ensures db.Valid() && LanesFree(db.state.slots)
    ensures db.base == old(db.base) && old(db.trace) <= db.trace
    ensures response.TooManyUploads? <==> |request.uploads| > cfg.maxSyncUploads
    ensures response.ManifestTooLarge? <==>
      |request.uploads| <= cfg.maxSyncUploads && |request.clientManifest| > cfg.maxSyncManifestEntries
    ensures response.ServerError? ==> w.faulty
    ensures !response.Synced? ==> db.state == old(db.state)
    ensures response.Synced? ==>
      (Conserved(request, response) <==>
         SaveErrored(response.errors) || AllKept(cfg, TriageOf(cfg, h, old(db.state.rows), request).accepted))
    ensures response.Synced? ==>
      ResultsTrue(cfg, z, db.base, db.state.history, TriageOf(cfg, h, old(db.state.rows), request).accepted,
                  response.uploaded)
    ensures response.Synced? ==>
      DownloadsReported(cfg, z, request, old(db.state.rows), db.base, db.state.history,
                        |old(db.state).history|, response.downloads, response.errors)
    ensures response.Synced? ==>
      UploadsJudged(cfg, h, old(db.state.rows), request, response.uploaded, response.errors)
    ensures response.Synced? && Sound(z) && z.ready ==>
      ResultsServed(z, h, db.base, db.state.history, request, response.uploaded)
    ensures response.Synced? && !w.shared && !w.lossy && SaneLimits(cfg) ==>
      SyncedAlone(cfg, z, h, old(db.state.rows), request, response, db.state.rows)
    ensures response.Synced? && w == UNDISTURBED && SaneLimits(cfg) ==>
      BatchSaved(cfg, z, h, old(db.state.rows), request, response, db.state.rows)
    ensures response.Synced? && w == UNDISTURBED && ValidKeys(old(db.state.rows)) ==> FetchOk(response.errors)
  {
    if |request.uploads| > cfg.maxSyncUploads {
      return TooManyUploads;
    }
    if |request.clientManifest| > cfg.maxSyncManifestEntries {
      return ManifestTooLarge;
    }
    var read := db.GetDataManifest(w);
    if read.None? {
      return ServerError;
    }
    response := SyncWith(db, w, cfg, z, h, request, read.value);
    JudgedAnswer(cfg, z, h, old(db.state.rows), request, db.base, db.state.history, response.uploaded, response.errors);
    if Sound(z) && z.ready {
      TrueAreServed(cfg, z, h, old(db.state.rows), request, db.base, db.state.history, response.uploaded);
    }
  }

  /** The rest of the handler, with the manifest read. */
  method SyncWith(db: DatabaseService, w: Setting, cfg: Config, z: Zstd, h: Hashing, request: SyncRequest,
                  manifest: seq<ManifestEntry>)
    returns (response: SyncResponse)
    requires db.Valid() && LanesFree(db.state.slots)
    requires Enumerates(manifest, db.state.rows)
    modifies db
    ensures db.Valid() && LanesFree(db.state.slots)
    ensures db.base == old(db.base) && old(db.trace) <= db.trace
    ensures response.Synced?
    ensures ResultsTrue(cfg, z, db.base, db.state.history, TriageOf(cfg, h, old(db.state.rows), request).accepted,
                        response.uploaded)
    ensures DownloadsReported(cfg, z, request, old(db.state.rows), db.base, db.state.history,
                              |old(db.state).history|, response.downloads, response.errors)
    ensures Conserved(request, response) <==>
      SaveErrored(response.errors) || AllKept(cfg, TriageOf(cfg, h, old(db.state.rows), request).accepted)
    ensures Explained(TriageOf(cfg, h, old(db.state.rows), request), response.errors)
    ensures !w.shared && !w.lossy && SaneLimits(cfg) ==>
      SyncedAlone(cfg, z, h, old(db.state.rows), request, response, db.state.rows)
    ensures w == UNDISTURBED && SaneLimits(cfg) ==>
      BatchSaved(cfg, z, h, old(db.state.rows), request, response, db.state.rows)
    ensures w == UNDISTURBED && ValidKeys(old(db.state.rows)) ==> FetchOk(response.errors)
  {
    ghost var rows := db.state.rows;
    var server, client := ByKey(manifest), ClientView(request);
    var downloads, failed := SendDown(db, w, cfg, z, request, manifest, rows);
    var start := SizeSum(manifest);
    ManifestTotal(manifest, rows);
    var accepted, rejected, _ := TriageUploads(cfg, h, server, client, start, request.uploads);
    TriageFacts(cfg, h, rows, request);
    ghost var read := db.state.history;
    var uploaded, updates, unsaved := SaveUploads(db, w, cfg, z, accepted);
    var final := PatchManifest(cfg, manifest, updates);
    response := Synced(final, downloads, uploaded, failed + rejected + unsaved);
    ErrorsTogether(cfg, h, rows, request, uploaded, failed, unsaved);
    StillReported(cfg, z, request, rows, db.base, read, db.state.history, |old(db.state).history|, downloads, failed,
                  rejected, unsaved);
    if !w.shared && !w.lossy && SaneLimits(cfg) {
      AnswerIsExact(cfg, z, h, rows, db.state.rows, request, response, failed, unsaved, updates);
    }
  }
}
