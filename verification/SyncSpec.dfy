/** What one sync request promises, as a relation between the request, the tables before and after, and the answer. */
module SyncSpec {
  import opened Records
  import opened Configuration
  import opened Codec
  import opened KeyNames
  import opened Manifest
  import opened Batch
  import opened SyncTriage

  datatype Download = Download(key: string, value: Bytes, version: nat, checksum: string)

  datatype UploadResult = UploadResult(key: string, version: nat, checksum: string)

  datatype SyncResponse =
    | TooManyUploads
    | ManifestTooLarge
    | ServerError
    | Synced(manifest: seq<ManifestEntry>, downloads: seq<Download>, uploaded: seq<UploadResult>, errors: seq<SyncError>)

  /** The triage of a request against a table. */
  ghost function TriageOf(cfg: Config, h: Hashing, rows: Table, request: SyncRequest): Triage {
    TriageAll(cfg, h, ManifestOf(rows), ClientView(request), Total(rows), request.uploads)
  }

  function UploadedKeys(uploaded: seq<UploadResult>): seq<string> {
    seq(|uploaded|, i requires 0 <= i < |uploaded| => uploaded[i].key)
  }

  /** The errors that concern uploads. */
  function UploadErrors(errors: seq<SyncError>): seq<SyncError> {
    if errors == [] then []
    else
      var e := errors[|errors| - 1];
      UploadErrors(errors[..|errors| - 1]) + if e.reason.DownloadFailed? then [] else [e]
  }

  /** Every upload of the request is answered once: uploaded, or in error. */
  ghost predicate Conserved(request: SyncRequest, response: SyncResponse)
    requires response.Synced?
  {
    AllAnswered(request, response.uploaded, UploadErrors(response.errors))
  }

  ghost predicate AllAnswered(request: SyncRequest, uploaded: seq<UploadResult>, errors: seq<SyncError>) {
    forall key :: Occurrences(UploadedKeys(uploaded), key) + Occurrences(ErrorKeys(errors), key)
      == Occurrences(UploadKeys(request.uploads), key)
  }

  /** The last entry of the client manifest for the key has the row's checksum, at its version or a later one. */
  predicate InHand(entries: seq<ClientEntry>, row: Row, key: string) {
    exists i :: 0 <= i < |entries| && LastEntry(entries, i, key)
      && entries[i].version >= row.version && entries[i].checksum == row.checksum
  }

  /** The row is for the client to see and not in its hands; a request without uploads counts as empty hands. */
  predicate Missing(cfg: Config, request: SyncRequest, rows: Table, key: string) {
    && key in rows
    && ("dataStore/" <= key ==> cfg.datastoreEnabled)
    && (request.uploads == [] || !InHand(request.clientManifest, rows[key], key))
  }

  /** That is what the handler's test on the two maps finds out. */
  lemma MissingExactly(cfg: Config, request: SyncRequest, rows: Table, key: string)
    requires key in rows
    ensures Wanted(cfg, ClientView(request), EntryOf(key, rows[key])) <==> Missing(cfg, request, rows, key)
  {
    ClientMapExactly(request.clientManifest, key);
  }

  /** The downloads are exactly the rows that the client misses, decoded. */
  predicate DownloadsExact(cfg: Config, z: Zstd, request: SyncRequest, rows: Table, downloads: seq<Download>) {
    && (forall i, j :: 0 <= i < j < |downloads| ==> downloads[i].key != downloads[j].key)
    && (forall i :: 0 <= i < |downloads| ==> var d := downloads[i];
        && Missing(cfg, request, rows, d.key)
        && d.value == Decoded(z, rows[d.key].value)
        && d.version == rows[d.key].version && d.checksum == rows[d.key].checksum)
    && (forall k :: k in rows && Missing(cfg, request, rows, k) ==> exists i :: 0 <= i < |downloads| && downloads[i].key == k)
  }

  predicate FetchOk(errors: seq<SyncError>) {
    forall i :: 0 <= i < |errors| ==> !errors[i].reason.DownloadFailed?
  }

  /** After a failed fetch the errors name exactly the rows that the client misses. */
  ghost predicate FailuresExact(cfg: Config, request: SyncRequest, rows: Table, errors: seq<SyncError>) {
    forall k :: SyncError(k, DownloadFailed) in errors <==> Missing(cfg, request, rows, k)
  }

  /** The errors about uploads are those of the triage, in order, and failures to save behind them. */
  predicate Explained(t: Triage, errors: seq<SyncError>) {
    && t.errors <= UploadErrors(errors)
    && forall i :: |t.errors| <= i < |UploadErrors(errors)| ==> UploadErrors(errors)[i].reason.SaveFailed?
  }

  /** An upload is in the table: encoded, at the next version, created when the row that it replaces was. */
  predicate Entered(cfg: Config, z: Zstd, rows: Table, rows': Table, e: Entry) {
    && e.key in rows'
    && var now := rows'[e.key].updatedAt;
      rows'[e.key] == Row(Compress(z, cfg.compressionEnabled, e.value), VersionOf(rows, e.key) + 1, e.checksum, |e.value|,
                          if e.key in rows then rows[e.key].createdAt else now, now)
  }

  /** The table overlaid with the accepted uploads, one write for each. */
  predicate Applied(cfg: Config, z: Zstd, rows: Table, rows': Table, accepted: seq<Entry>) {
    && (forall i :: 0 <= i < |accepted| ==> Entered(cfg, z, rows, rows', accepted[i]))
    && (forall k :: k in rows && !Mentions(accepted, k) ==> k in rows' && rows'[k] == rows[k])
    && (forall k :: k in rows' && !Mentions(accepted, k) ==> k in rows)
  }

  predicate Reported(uploaded: seq<UploadResult>, key: string) {
    exists j :: 0 <= j < |uploaded| && uploaded[j].key == key
  }

  /** The upload results are the rows that were written. */
  predicate UploadedExact(rows': Table, accepted: seq<Entry>, uploaded: seq<UploadResult>) {
    && |uploaded| == |accepted|
    && (forall i, j :: 0 <= i < j < |uploaded| ==> uploaded[i].key != uploaded[j].key)
    && (forall i :: 0 <= i < |uploaded| ==> var u := uploaded[i];
        && Mentions(accepted, u.key) && u.key in rows'
        && u.version == rows'[u.key].version && u.checksum == rows'[u.key].checksum)
    && (forall i :: 0 <= i < |accepted| ==> Reported(uploaded, accepted[i].key))
  }

  /** The batch was saved: the answer agrees with the table afterwards, without reading it again. */
  ghost predicate BatchSaved(cfg: Config, z: Zstd, h: Hashing, rows: Table, request: SyncRequest, response: SyncResponse,
                             rows': Table)
    requires response.Synced?
  {
    var accepted := TriageOf(cfg, h, rows, request).accepted;
    && Applied(cfg, z, rows, rows', accepted)
    && UploadedExact(rows', accepted, response.uploaded)
    && Enumerates(response.manifest, Visible(cfg, rows'))
  }

  /** The batch failed: some of it may be in the table; the answer shows the table of before. */
  ghost predicate BatchFailed(cfg: Config, z: Zstd, h: Hashing, rows: Table, request: SyncRequest, response: SyncResponse,
                              rows': Table)
    requires response.Synced?
  {
    var accepted := TriageOf(cfg, h, rows, request).accepted;
    && PartlyOverlaid(rows, rows', Prepare(cfg, z, accepted))
    && response.uploaded == []
    && Enumerates(response.manifest, Visible(cfg, rows))
  }

  /** A whole sync that no other writer disturbs. */
  ghost predicate SyncedAlone(cfg: Config, z: Zstd, h: Hashing, rows: Table, request: SyncRequest, response: SyncResponse,
                              rows': Table)
    requires response.Synced?
  {
    && (if FetchOk(response.errors) then DownloadsExact(cfg, z, request, rows, response.downloads)
        else response.downloads == [] && FailuresExact(cfg, request, rows, response.errors))
    && (BatchSaved(cfg, z, h, rows, request, response, rows') || BatchFailed(cfg, z, h, rows, request, response, rows'))
  }

  /** Limits under which the batch filter has nothing to drop. */
  predicate SaneLimits(cfg: Config) {
    cfg.maxKeySize <= 0x7FFF_FFFF && cfg.maxDatastoreKeySize <= 0x7FFF_FFFF
  }

  /** None of these entries is dropped by the filter of the batch. */
  predicate AllKept(cfg: Config, entries: seq<Entry>) {
    forall i :: 0 <= i < |entries| ==> Keepable(cfg, entries[i])
  }

  predicate SaveErrored(errors: seq<SyncError>) {
    exists i :: 0 <= i < |errors| && errors[i].reason.SaveFailed?
  }

  /** A request with one upload that meets every check but the one for newer versions. */
  ghost predicate SoleUpload(cfg: Config, h: Hashing, rows: Table, request: SyncRequest) {
    && |request.uploads| == 1
    && var u := request.uploads[0];
      && ValidateKey(u.key).Ok?
      && ("dataStore/" <= u.key ==> cfg.datastoreEnabled)
      && |u.value| <= (if "dataStore/" <= u.key then cfg.maxDatastoreKeySize else cfg.maxKeySize)
      && (u.checksum.None? || u.checksum.value == h.checksum(u.value))
      && Total(rows) - SizeOf(rows, u.key) + |u.value| <= cfg.maxBackupSize
  }

  /** It is accepted when the server does not hold a newer version. */
  lemma SoleUploadAccepted(cfg: Config, h: Hashing, rows: Table, request: SyncRequest)
    requires SoleUpload(cfg, h, rows, request)
    requires !Dominated(ManifestOf(rows), ClientMap(request.clientManifest), request.uploads[0].key)
    ensures var u := request.uploads[0];
      TriageOf(cfg, h, rows, request).accepted == [Entry(u.key, u.value, h.checksum(u.value))]
  {
    var u := request.uploads[0];
    assert request.uploads == [u];
    assert TriageAll(cfg, h, ManifestOf(rows), ClientView(request), Total(rows), request.uploads[..0])
        == Triage({}, [], [], Total(rows));
  }

  lemma {:induction false} UploadErrorsConcat(a: seq<SyncError>, b: seq<SyncError>)
    ensures UploadErrors(a + b) == UploadErrors(a) + UploadErrors(b)
  {
    if b == [] {
      assert a + b == a;
    } else {
      var n := |b| - 1;
      UploadErrorsConcat(a, b[..n]);
      assert (a + b)[..|a + b| - 1] == a + b[..n];
    }
  }

  lemma {:induction false} NoDownloadErrors(errors: seq<SyncError>)
    requires FetchOk(errors)
    ensures UploadErrors(errors) == errors
  {
    if errors != [] {
      var n := |errors| - 1;
      NoDownloadErrors(errors[..n]);
      assert errors == errors[..n] + [errors[n]];
    }
  }

  lemma {:induction false} OnlyDownloadErrors(errors: seq<SyncError>)
    requires forall i :: 0 <= i < |errors| ==> errors[i].reason.DownloadFailed?
    ensures UploadErrors(errors) == []
  {
    if errors != [] {
      OnlyDownloadErrors(errors[..|errors| - 1]);
    }
  }

  /** Results in any order answer the entries of the batch. */
  lemma {:induction false} PermutedOccurrences(keys: seq<string>, order: seq<nat>, permuted: seq<string>, key: string)
    requires Permutes(order, |keys|) && |permuted| == |order|
    requires forall j :: 0 <= j < |order| ==> permuted[j] == keys[order[j]]
    ensures Occurrences(permuted, key) == Occurrences(keys, key)
    decreases |keys|
  {
    if order == [] {
      assert |keys| > 0 ==> 0 in order;
    } else {
      assert order[0] < |keys|;
      var n := |keys| - 1;
      assert n in order;
      var p :| 0 <= p < |order| && order[p] == n;
      WithoutOne(order, n, p);
      var order', permuted' := order[..p] + order[p + 1..], permuted[..p] + permuted[p + 1..];
      assert forall j :: 0 <= j < |order'| ==> order'[j] < n && permuted'[j] == keys[..n][order'[j]];
      PermutedOccurrences(keys[..n], order', permuted', key);
      OneTakenOut(permuted, p, key);
    }
  }

  lemma OneTakenOut(keys: seq<string>, p: nat, key: string)
    requires p < |keys|
    ensures Occurrences(keys, key) == Occurrences(keys[..p] + keys[p + 1..], key) + if keys[p] == key then 1 else 0
  {
    OccurrencesConcat(keys[..p], keys[p + 1..], key);
    assert keys == (keys[..p] + [keys[p]]) + keys[p + 1..];
    OccurrencesConcat(keys[..p] + [keys[p]], keys[p + 1..], key);
    OccurrencesSnoc(keys[..p], keys[p], key);
  }

  lemma WithoutOne(order: seq<nat>, n: nat, p: nat)
    requires Permutes(order, n + 1) && p < |order| && order[p] == n
    ensures Permutes(order[..p] + order[p + 1..], n)
  {
    var rest := order[..p] + order[p + 1..];
    forall i: nat | i < n
      ensures i in rest
    {
      assert i in order;
      var j :| 0 <= j < |order| && order[j] == i;
      if j < p {
        assert rest[j] == i;
      } else {
        assert rest[j - 1] == i;
      }
    }
  }
}
