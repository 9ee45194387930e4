/** From a saved batch and a fetched list to the answer of a sync: the steps that show the answer exact. */
module SyncResults {
  import opened Wrappers
  import opened Records
  import opened Configuration
  import opened Codec
  import opened KeyNames
  import opened Manifest
  import opened StoreProtocol
  import opened Batch
  import opened Database
  import opened SyncTriage
  import opened SyncSpec

  /** The keys to send down, in manifest order. */
  function Selected(cfg: Config, client: map<string, Held>, manifest: seq<ManifestEntry>): seq<string> {
    if manifest == [] then []
    else
      var e := manifest[|manifest| - 1];
      Selected(cfg, client, manifest[..|manifest| - 1]) + if Wanted(cfg, client, e) then [e.key] else []
  }

  lemma {:induction false} SelectedKeys(cfg: Config, client: map<string, Held>, manifest: seq<ManifestEntry>)
    requires UniqueKeys(manifest)
    ensures var keys := Selected(cfg, client, manifest);
      && DistinctStrings(keys)
      && forall k :: k in keys <==> k in ByKey(manifest) && Wanted(cfg, client, ByKey(manifest)[k])
  {
    if manifest != [] {
      var n := |manifest| - 1;
      SelectedKeys(cfg, client, manifest[..n]);
      UniquePrefix(manifest, n);
      assert manifest == manifest[..n] + [manifest[n]];
      ByKeySnoc(manifest[..n], manifest[n]);
    }
  }

  predicate SameDownloads(entries: seq<DataEntry>, downloads: seq<Download>) {
    && |downloads| == |entries|
    && forall i :: 0 <= i < |entries| ==>
      downloads[i] == Download(entries[i].key, entries[i].value, entries[i].version, entries[i].checksum)
  }

  /** Every key failed, each with the same reason. */
  predicate AllFailed(keys: seq<string>, reason: Reason, errors: seq<SyncError>) {
    |errors| == |keys| && forall i :: 0 <= i < |keys| ==> errors[i] == SyncError(keys[i], reason)
  }

  function ResultOf(e: SavedEntry): UploadResult {
    UploadResult(e.key, e.version, e.checksum)
  }

  function UpdateOf(e: SavedEntry): ManifestEntry {
    ManifestEntry(e.key, e.version, e.checksum, e.size, e.updatedAt)
  }

  function Updates(saved: seq<SavedEntry>): map<string, ManifestEntry> {
    if saved == [] then map[]
    else Updates(saved[..|saved| - 1])[saved[|saved| - 1].key := UpdateOf(saved[|saved| - 1])]
  }

  predicate HasResult(saved: seq<SavedEntry>, key: string) {
    exists i :: 0 <= i < |saved| && saved[i].key == key
  }

  lemma {:induction false} UpdatesEntries(saved: seq<SavedEntry>)
    requires forall i, j :: 0 <= i < j < |saved| ==> saved[i].key != saved[j].key
    ensures KeyedByKey(Updates(saved))
    ensures forall i :: 0 <= i < |saved| ==>
      saved[i].key in Updates(saved) && Updates(saved)[saved[i].key] == UpdateOf(saved[i])
    ensures forall k :: k in Updates(saved) ==> HasResult(saved, k)
  {
    if saved != [] {
      var n := |saved| - 1;
      UpdatesEntries(saved[..n]);
      forall k | k in Updates(saved)
        ensures HasResult(saved, k)
      {
        if k == saved[n].key {
        } else {
          var i :| 0 <= i < n && saved[..n][i].key == k;
          assert saved[i].key == k;
        }
      }
    }
  }

  /** The batch of a sync: what was accepted, prepared; nothing is dropped. */
  lemma BatchOfAccepted(cfg: Config, z: Zstd, accepted: seq<Entry>)
    requires DistinctEntries(accepted)
    requires AllKept(cfg, accepted)
    ensures var batch := Prepare(cfg, z, accepted);
      && |batch| == |accepted| && DistinctKeys(batch)
      && forall i :: 0 <= i < |accepted| ==> batch[i] == PreparedEntry(cfg, z, accepted[i])
  {
    PrepareKeepsAll(cfg, z, accepted);
  }

  /** Position of the result for entry `i`. */
  lemma ResultFor(order: seq<nat>, n: nat, i: nat) returns (j: nat)
    requires Permutes(order, n) && i < n
    ensures j < |order| && order[j] == i
  {
    assert i in order;
    j :| 0 <= j < |order| && order[j] == i;
  }

  lemma SavedAreDistinct(batch: seq<Prepared>, order: seq<nat>, saved: seq<SavedEntry>)
    requires DistinctKeys(batch) && Permutes(order, |batch|) && |saved| == |order|
    requires forall j :: 0 <= j < |order| ==> Matches(batch[order[j]], saved[j])
    ensures forall i, j :: 0 <= i < j < |saved| ==> saved[i].key != saved[j].key
  {
    forall i, j | 0 <= i < j < |saved|
      ensures saved[i].key != saved[j].key
    {
      assert Matches(batch[order[i]], saved[i]) && Matches(batch[order[j]], saved[j]);
      assert order[i] != order[j];
    }
  }

  /** The overlay of a whole batch, said of the accepted uploads. */
  lemma OverlaidIsApplied(cfg: Config, z: Zstd, rows: Table, rows': Table, accepted: seq<Entry>, order: seq<nat>,
                          saved: seq<SavedEntry>)
    requires DistinctEntries(accepted)
    requires AllKept(cfg, accepted)
    requires Overlaid(rows, rows', Prepare(cfg, z, accepted), order, saved)
    ensures Applied(cfg, z, rows, rows', accepted)
  {
    BatchOfAccepted(cfg, z, accepted);
    var batch := Prepare(cfg, z, accepted);
    forall i | 0 <= i < |accepted|
      ensures Entered(cfg, z, rows, rows', accepted[i])
    {
      var j := ResultFor(order, |batch|, i);
      assert Landed(rows, rows', batch[order[j]], saved[j]);
    }
    forall k | !Mentions(accepted, k)
      ensures Lookup(rows', k) == Lookup(rows, k)
    {
      forall i | 0 <= i < |batch|
        ensures batch[i].key != k
      {
        assert accepted[i].key != k;
      }
    }
    assert forall k :: k in rows' && !Mentions(accepted, k) ==> Lookup(rows', k) == Lookup(rows, k);
    assert forall k :: k in rows && !Mentions(accepted, k) ==> Lookup(rows', k) == Lookup(rows, k);
  }

  /** The facts of a saved batch, result by result. */
  predicate SavedRows(rows': Table, accepted: seq<Entry>, saved: seq<SavedEntry>) {
    && |saved| == |accepted|
    && (forall i, j :: 0 <= i < j < |saved| ==> saved[i].key != saved[j].key)
    && (forall j :: 0 <= j < |saved| ==> SavedRow(rows', accepted, saved[j]))
    && (forall i :: 0 <= i < |accepted| ==> HasResult(saved, accepted[i].key))
  }

  predicate SavedRow(rows': Table, accepted: seq<Entry>, e: SavedEntry) {
    Mentions(accepted, e.key) && e.key in rows' && EntryOf(e.key, rows'[e.key]) == UpdateOf(e)
  }

  lemma BatchSavedRows(cfg: Config, z: Zstd, rows: Table, rows': Table, accepted: seq<Entry>, order: seq<nat>,
                       saved: seq<SavedEntry>)
    requires DistinctEntries(accepted)
    requires AllKept(cfg, accepted)
    requires Overlaid(rows, rows', Prepare(cfg, z, accepted), order, saved)
    requires var batch := Prepare(cfg, z, accepted); forall j :: 0 <= j < |order| ==> Matches(batch[order[j]], saved[j])
    ensures SavedRows(rows', accepted, saved)
  {
    BatchOfAccepted(cfg, z, accepted);
    var batch := Prepare(cfg, z, accepted);
    SavedAreDistinct(batch, order, saved);
    PermutationLength(order, |batch|);
    forall j | 0 <= j < |saved|
      ensures SavedRow(rows', accepted, saved[j])
    {
      var i := order[j];
      assert Matches(batch[i], saved[j]) && Landed(rows, rows', batch[i], saved[j]);
      assert accepted[i].key == saved[j].key;
    }
    forall i | 0 <= i < |accepted|
      ensures HasResult(saved, accepted[i].key)
    {
      var j := ResultFor(order, |batch|, i);
      assert Matches(batch[order[j]], saved[j]);
    }
  }

  /** The results of a batch are the rows it wrote. */
  lemma SavedAreUploaded(rows': Table, accepted: seq<Entry>, saved: seq<SavedEntry>, uploaded: seq<UploadResult>)
    requires SavedRows(rows', accepted, saved)
    requires |uploaded| == |saved| && forall j :: 0 <= j < |saved| ==> uploaded[j] == ResultOf(saved[j])
    ensures UploadedExact(rows', accepted, uploaded)
  {
    forall j | 0 <= j < |uploaded|
      ensures Mentions(accepted, uploaded[j].key) && uploaded[j].key in rows'
      ensures var row := rows'[uploaded[j].key]; uploaded[j].version == row.version && uploaded[j].checksum == row.checksum
    {
      assert SavedRow(rows', accepted, saved[j]);
    }
    forall i | 0 <= i < |accepted|
      ensures Reported(uploaded, accepted[i].key)
    {
      var j :| 0 <= j < |saved| && saved[j].key == accepted[i].key;
      assert uploaded[j].key == accepted[i].key;
    }
  }

  /** The manifest delta is the part of the new table that was written. */
  lemma SavedAreUpdates(rows': Table, accepted: seq<Entry>, saved: seq<SavedEntry>)
    requires SavedRows(rows', accepted, saved)
    ensures KeyedByKey(Updates(saved))
    ensures Updates(saved) == map k | k in rows' && Mentions(accepted, k) :: EntryOf(k, rows'[k])
  {
    UpdatesEntries(saved);
    forall k | k in Updates(saved)
      ensures k in rows' && Mentions(accepted, k) && Updates(saved)[k] == EntryOf(k, rows'[k])
    {
      var i :| 0 <= i < |saved| && saved[i].key == k;
      assert SavedRow(rows', accepted, saved[i]);
    }
    forall k | k in rows' && Mentions(accepted, k)
      ensures k in Updates(saved)
    {
      var i :| 0 <= i < |accepted| && accepted[i].key == k;
      var j :| 0 <= j < |saved| && saved[j].key == accepted[i].key;
    }
  }

  lemma {:induction false} PermutationLength(order: seq<nat>, n: nat)
    requires Permutes(order, n)
    ensures |order| == n
    decreases n
  {
    if order == [] {
      assert n > 0 ==> 0 in order;
    } else {
      assert order[0] < n;
      assert n - 1 in order;
      var p :| 0 <= p < |order| && order[p] == n - 1;
      WithoutOne(order, n - 1, p);
      PermutationLength(order[..p] + order[p + 1..], n - 1);
    }
  }

  /** What is selected from a manifest of the table is what the client misses. */
  lemma SelectedAreMissing(cfg: Config, request: SyncRequest, rows: Table, manifest: seq<ManifestEntry>)
    requires Enumerates(manifest, rows)
    ensures var keys := Selected(cfg, ClientView(request), manifest);
      DistinctStrings(keys) && forall k :: k in keys <==> Missing(cfg, request, rows, k)
  {
    SelectedKeys(cfg, ClientView(request), manifest);
    forall k | k in rows
      ensures Wanted(cfg, ClientView(request), EntryOf(k, rows[k])) <==> Missing(cfg, request, rows, k)
    {
      MissingExactly(cfg, request, rows, k);
    }
  }

  lemma FailedAreMissing(cfg: Config, request: SyncRequest, rows: Table, manifest: seq<ManifestEntry>,
                         errors: seq<SyncError>)
    requires Enumerates(manifest, rows)
    requires AllFailed(Selected(cfg, ClientView(request), manifest), DownloadFailed, errors)
    ensures FailuresExact(cfg, request, rows, errors)
  {
    SelectedAreMissing(cfg, request, rows, manifest);
    var keys := Selected(cfg, ClientView(request), manifest);
    forall k
      ensures SyncError(k, DownloadFailed) in errors <==> Missing(cfg, request, rows, k)
    {
      if k in keys {
        var i :| 0 <= i < |keys| && keys[i] == k;
        assert errors[i] == SyncError(k, DownloadFailed);
      }
    }
  }

  lemma {:induction false} UpdatesKeyed(saved: seq<SavedEntry>)
    ensures KeyedByKey(Updates(saved))
  {
    if saved != [] {
      UpdatesKeyed(saved[..|saved| - 1]);
    }
  }

  /** Each accepted upload has one answer. */
  ghost predicate AnsweredOnce(accepted: seq<Entry>, uploaded: seq<UploadResult>, errors: seq<SyncError>) {
    forall key :: Occurrences(UploadedKeys(uploaded), key) + Occurrences(ErrorKeys(errors), key)
      == Occurrences(EntryKeys(accepted), key)
  }

  lemma AllFailedAnswers(accepted: seq<Entry>, errors: seq<SyncError>)
    requires AllFailed(EntryKeys(accepted), SaveFailed, errors)
    ensures AnsweredOnce(accepted, [], errors)
  {
    assert ErrorKeys(errors) == EntryKeys(accepted);
    assert UploadedKeys([]) == [];
  }

  lemma ResultsAnswer(cfg: Config, z: Zstd, accepted: seq<Entry>, order: seq<nat>, saved: seq<SavedEntry>,
                      uploaded: seq<UploadResult>)
    requires AllKept(cfg, accepted)
    requires var batch := Prepare(cfg, z, accepted);
      && Permutes(order, |batch|) && |saved| == |order|
      && forall j :: 0 <= j < |order| ==> Matches(batch[order[j]], saved[j])
    requires |uploaded| == |saved| && forall j :: 0 <= j < |saved| ==> uploaded[j] == ResultOf(saved[j])
    ensures AnsweredOnce(accepted, uploaded, [])
  {
    PrepareKeepsAll(cfg, z, accepted);
    var batch := Prepare(cfg, z, accepted);
    var keys, permuted := EntryKeys(accepted), UploadedKeys(uploaded);
    forall j | 0 <= j < |order|
      ensures permuted[j] == keys[order[j]]
    {
      assert Matches(batch[order[j]], saved[j]);
    }
    forall key
      ensures Occurrences(permuted, key) + Occurrences(ErrorKeys([]), key) == Occurrences(keys, key)
    {
      PermutedOccurrences(keys, order, permuted, key);
    }
  }

  lemma {:induction false} OccursOrNot(keys: seq<string>, key: string)
    ensures Occurrences(keys, key) > 0 <==> key in keys
  {
    if keys != [] {
      var n := |keys| - 1;
      OccursOrNot(keys[..n], key);
      assert keys == keys[..n] + [keys[n]];
    }
  }

  lemma {:induction false} PreparedAreDistinct(cfg: Config, z: Zstd, entries: seq<Entry>)
    requires DistinctEntries(entries)
    ensures DistinctKeys(Prepare(cfg, z, entries))
  {
    if entries != [] {
      var n := |entries| - 1;
      PreparedAreDistinct(cfg, z, entries[..n]);
      var prior := Prepare(cfg, z, entries[..n]);
      forall j | 0 <= j < |prior|
        ensures prior[j].key != entries[n].key
      {
        PreparedExactly(cfg, z, entries[..n], prior[j]);
      }
    }
  }

  /** A dropped entry is not among the results. */
  lemma DroppedIsUnanswered(cfg: Config, z: Zstd, accepted: seq<Entry>, order: seq<nat>, saved: seq<SavedEntry>, i: nat)
    requires DistinctEntries(accepted) && i < |accepted| && !Keepable(cfg, accepted[i])
    requires var batch := Prepare(cfg, z, accepted);
      && Permutes(order, |batch|) && |saved| == |order|
      && forall j :: 0 <= j < |order| ==> Matches(batch[order[j]], saved[j])
    ensures forall j :: 0 <= j < |saved| ==> saved[j].key != accepted[i].key
  {
    forall j | 0 <= j < |saved|
      ensures saved[j].key != accepted[i].key
    {
      var p := Prepare(cfg, z, accepted)[order[j]];
      assert Matches(p, saved[j]);
      PreparedExactly(cfg, z, accepted, p);
    }
  }

  /** A saved batch answers every accepted upload just when its filter dropped none. */
  lemma AnsweredIfKept(cfg: Config, z: Zstd, accepted: seq<Entry>, order: seq<nat>, saved: seq<SavedEntry>,
                       uploaded: seq<UploadResult>)
    requires DistinctEntries(accepted)
    requires var batch := Prepare(cfg, z, accepted);
      && Permutes(order, |batch|) && |saved| == |order|
      && forall j :: 0 <= j < |order| ==> Matches(batch[order[j]], saved[j])
    requires |uploaded| == |saved| && forall j :: 0 <= j < |saved| ==> uploaded[j] == ResultOf(saved[j])
    ensures AnsweredOnce(accepted, uploaded, []) <==> AllKept(cfg, accepted)
  {
    if AllKept(cfg, accepted) {
      ResultsAnswer(cfg, z, accepted, order, saved, uploaded);
    } else {
      var i :| 0 <= i < |accepted| && !Keepable(cfg, accepted[i]);
      var key, keys := accepted[i].key, UploadedKeys(uploaded);
      DroppedIsUnanswered(cfg, z, accepted, order, saved, i);
      assert key !in keys;
      OccursOrNot(keys, key);
      OccursOrNot(EntryKeys(accepted), key);
      assert EntryKeys(accepted)[i] == key;
      assert Occurrences(keys, key) + Occurrences(ErrorKeys([]), key) != Occurrences(EntryKeys(accepted), key);
    }
  }

  /** The result of an accepted upload: at its version the table held the upload's bytes, checksum and size. */
  predicate TrueResult(cfg: Config, z: Zstd, base: Table, h: seq<Event>, e: Entry, u: UploadResult) {
    && u.key == e.key && u.checksum == e.checksum
    && exists at: nat :: at < |h| && HeldAt(cfg, z, base, h, e, u.version, at)
  }

  predicate HeldAt(cfg: Config, z: Zstd, base: Table, h: seq<Event>, e: Entry, version: nat, at: nat)
    requires at < |h|
  {
    var rows := Replay(base, h[..at + 1]);
    && e.key in rows
    && var row := rows[e.key];
      && row.version == version && row.checksum == e.checksum && row.size == |e.value|
      && row.value == Compress(z, cfg.compressionEnabled, e.value)
  }

  lemma RecordedIsHeld(cfg: Config, z: Zstd, base: Table, h: seq<Event>, e: Entry, result: Outcome)
    requires result.Saved? && OnRecord(base, h, e.key, PreparedEntry(cfg, z, e).payload, result)
    ensures HeldAt(cfg, z, base, h, e, result.version, result.at)
  {
  }

  predicate OfAccepted(cfg: Config, z: Zstd, base: Table, h: seq<Event>, accepted: seq<Entry>, u: UploadResult) {
    exists i :: 0 <= i < |accepted| && TrueResult(cfg, z, base, h, accepted[i], u)
  }

  predicate ResultsTrue(cfg: Config, z: Zstd, base: Table, h: seq<Event>, accepted: seq<Entry>,
                        uploaded: seq<UploadResult>) {
    forall j :: 0 <= j < |uploaded| ==> OfAccepted(cfg, z, base, h, accepted, uploaded[j])
  }

  lemma RecordedAreTrue(cfg: Config, z: Zstd, base: Table, h: seq<Event>, accepted: seq<Entry>, order: seq<nat>,
                        saved: seq<SavedEntry>, uploaded: seq<UploadResult>)
    requires var batch := Prepare(cfg, z, accepted);
      && AllOnRecord(base, h, batch, order, saved)
      && forall j :: 0 <= j < |order| ==> order[j] < |batch| && Matches(batch[order[j]], saved[j])
    requires |uploaded| == |saved| && forall j :: 0 <= j < |saved| ==> uploaded[j] == ResultOf(saved[j])
    ensures ResultsTrue(cfg, z, base, h, accepted, uploaded)
  {
    forall j | 0 <= j < |uploaded|
      ensures OfAccepted(cfg, z, base, h, accepted, uploaded[j])
    {
      var p, e := Prepare(cfg, z, accepted)[order[j]], saved[j];
      assert Matches(p, e) && EntryOnRecord(base, h, p, e);
      PreparedExactly(cfg, z, accepted, p);
      var i :| 0 <= i < |accepted| && p == PreparedEntry(cfg, z, accepted[i]);
      var at: nat :| at < |h| && OnRecord(base, h, p.key, p.payload, Saved(e.version, e.updatedAt, at, 0));
      RecordedIsHeld(cfg, z, base, h, accepted[i], Saved(e.version, e.updatedAt, at, 0));
      assert TrueResult(cfg, z, base, h, accepted[i], uploaded[j]);
    }
  }

  /** The row that came down was in the table at some point since `lo`. */
  predicate RowSince(z: Zstd, base: Table, h: seq<Event>, lo: nat, d: Download) {
    exists n :: lo <= n <= |h| && Lookup(Replay(base, h[..n]), d.key).Some?
      && d == DownloadOf(z, d.key, Replay(base, h[..n])[d.key])
  }

  function DownloadOf(z: Zstd, key: string, row: Row): Download {
    Download(key, Decoded(z, row.value), row.version, row.checksum)
  }

  predicate CameDownFor(downloads: seq<Download>, key: string) {
    exists i :: 0 <= i < |downloads| && downloads[i].key == key
  }

  /** Each row that the client misses was read once since `lo`: it came down, or it was gone. */
  predicate DownloadsTrue(cfg: Config, z: Zstd, request: SyncRequest, rows: Table, base: Table, h: seq<Event>, lo: nat,
                          downloads: seq<Download>) {
    && (forall i, j :: 0 <= i < j < |downloads| ==> downloads[i].key != downloads[j].key)
    && (forall i :: 0 <= i < |downloads| ==>
          Missing(cfg, request, rows, downloads[i].key) && RowSince(z, base, h, lo, downloads[i]))
    && (forall k :: k in rows && Missing(cfg, request, rows, k) ==>
          CameDownFor(downloads, k) || WasAbsent(base, h, lo, k))
  }

  lemma FetchedIsTrue(cfg: Config, z: Zstd, request: SyncRequest, rows: Table, base: Table, h: seq<Event>, lo: nat,
                      manifest: seq<ManifestEntry>, entries: seq<DataEntry>, downloads: seq<Download>)
    requires Enumerates(manifest, rows)
    requires FetchedSince(z, base, h, lo, KeySet(Selected(cfg, ClientView(request), manifest)), entries)
    requires SameDownloads(entries, downloads)
    ensures DownloadsTrue(cfg, z, request, rows, base, h, lo, downloads)
  {
    SelectedAreMissing(cfg, request, rows, manifest);
    forall i | 0 <= i < |downloads|
      ensures Missing(cfg, request, rows, downloads[i].key) && RowSince(z, base, h, lo, downloads[i])
    {
      var e := entries[i];
      var n :| lo <= n <= |h| && Lookup(Replay(base, h[..n]), e.key).Some?
        && e == DataOf(z, e.key, Replay(base, h[..n])[e.key]);
      assert downloads[i] == DownloadOf(z, e.key, Replay(base, h[..n])[e.key]);
    }
    forall k | k in rows && Missing(cfg, request, rows, k)
      ensures CameDownFor(downloads, k) || WasAbsent(base, h, lo, k)
    {
      assert k in KeySet(Selected(cfg, ClientView(request), manifest));
      if HasEntry(entries, k) {
        var i :| 0 <= i < |entries| && entries[i].key == k;
        assert downloads[i].key == k;
      }
    }
  }

  lemma TrueStays(cfg: Config, z: Zstd, request: SyncRequest, rows: Table, base: Table, h: seq<Event>, h': seq<Event>,
                  lo: nat, downloads: seq<Download>)
    requires h <= h' && DownloadsTrue(cfg, z, request, rows, base, h, lo, downloads)
    ensures DownloadsTrue(cfg, z, request, rows, base, h', lo, downloads)
  {
    forall i | 0 <= i < |downloads|
      ensures RowSince(z, base, h', lo, downloads[i])
    {
      var d := downloads[i];
      assert RowSince(z, base, h, lo, d);
      var n :| lo <= n <= |h| && Lookup(Replay(base, h[..n]), d.key).Some?
        && d == DownloadOf(z, d.key, Replay(base, h[..n])[d.key]);
      assert h'[..n] == h[..n];
    }
    forall k | WasAbsent(base, h, lo, k)
      ensures WasAbsent(base, h', lo, k)
    {
      AbsenceStays(base, h, h', lo, k);
    }
  }

  /** In any setting: the downloads are true, or they all failed and the errors name them. */
  ghost predicate DownloadsReported(cfg: Config, z: Zstd, request: SyncRequest, rows: Table, base: Table, h: seq<Event>,
                                    lo: nat, downloads: seq<Download>, errors: seq<SyncError>) {
    if FetchOk(errors) then DownloadsTrue(cfg, z, request, rows, base, h, lo, downloads)
    else downloads == [] && FailuresExact(cfg, request, rows, errors)
  }

  lemma StillReported(cfg: Config, z: Zstd, request: SyncRequest, rows: Table, base: Table, h: seq<Event>,
                      h': seq<Event>, lo: nat, downloads: seq<Download>, failed: seq<SyncError>, rejected: seq<SyncError>,
                      unsaved: seq<SyncError>)
    requires h <= h' && RejectionsOnly(rejected)
    requires forall i :: 0 <= i < |failed| ==> failed[i].reason.DownloadFailed?
    requires forall i :: 0 <= i < |unsaved| ==> unsaved[i].reason.SaveFailed?
    requires if failed == [] then DownloadsTrue(cfg, z, request, rows, base, h, lo, downloads)
             else downloads == [] && FailuresExact(cfg, request, rows, failed)
    ensures DownloadsReported(cfg, z, request, rows, base, h', lo, downloads, failed + rejected + unsaved)
  {
    var errors := failed + rejected + unsaved;
    if failed == [] {
      TrueStays(cfg, z, request, rows, base, h, h', lo, downloads);
    } else {
      assert errors[0] == failed[0];
      assert forall k :: SyncError(k, DownloadFailed) in errors <==> SyncError(k, DownloadFailed) in failed;
    }
  }

  predicate LanesFree(slots: seq<Slot>) {
    |slots| >= QUERY_CONCURRENCY && forall l: nat :: l < QUERY_CONCURRENCY ==> slots[l].Idle?
  }

  /** What saving the accepted uploads comes to when nobody else writes. */
  ghost predicate SavedAlone(cfg: Config, z: Zstd, rows: Table, rows': Table, accepted: seq<Entry>,
                             uploaded: seq<UploadResult>, updates: map<string, ManifestEntry>, errors: seq<SyncError>) {
    if errors == [] then
      && Applied(cfg, z, rows, rows', accepted)
      && UploadedExact(rows', accepted, uploaded)
      && updates == map k | k in rows' && Mentions(accepted, k) :: EntryOf(k, rows'[k])
    else PartlyOverlaid(rows, rows', Prepare(cfg, z, accepted)) && uploaded == [] && updates == map[]
  }

  lemma BatchSavesAlone(cfg: Config, z: Zstd, rows: Table, rows': Table, accepted: seq<Entry>, order: seq<nat>,
                        saved: seq<SavedEntry>, uploaded: seq<UploadResult>)
    requires DistinctEntries(accepted)
    requires AllKept(cfg, accepted)
    requires Overlaid(rows, rows', Prepare(cfg, z, accepted), order, saved)
    requires var batch := Prepare(cfg, z, accepted); forall j :: 0 <= j < |order| ==> Matches(batch[order[j]], saved[j])
    requires |uploaded| == |saved| && forall j :: 0 <= j < |saved| ==> uploaded[j] == ResultOf(saved[j])
    ensures SavedAlone(cfg, z, rows, rows', accepted, uploaded, Updates(saved), [])
  {
    OverlaidIsApplied(cfg, z, rows, rows', accepted, order, saved);
    BatchSavedRows(cfg, z, rows, rows', accepted, order, saved);
    SavedAreUploaded(rows', accepted, saved, uploaded);
    SavedAreUpdates(rows', accepted, saved);
  }

  lemma NothingToSave(cfg: Config, z: Zstd, rows: Table)
    ensures AnsweredOnce([], [], [])
    ensures SavedAlone(cfg, z, rows, rows, [], [], map[], [])
  {
    assert UploadedKeys([]) == EntryKeys([]) == ErrorKeys([]) == [];
  }

  /** The patched manifest is the manifest of the new table. */
  lemma PatchedIsCurrent(cfg: Config, z: Zstd, rows: Table, rows': Table, accepted: seq<Entry>,
                         updates: map<string, ManifestEntry>)
    requires Applied(cfg, z, rows, rows', accepted)
    requires updates == map k | k in rows' && Mentions(accepted, k) :: EntryOf(k, rows'[k])
    ensures Unblocked(cfg, ManifestOf(rows) + updates) == ManifestOf(Visible(cfg, rows'))
  {
    assert ManifestOf(rows) + updates == ManifestOf(rows') by {
      forall k | Mentions(accepted, k)
        ensures k in rows'
      {
        var i :| 0 <= i < |accepted| && accepted[i].key == k;
      }
    }
  }

  lemma UnpatchedIsBefore(cfg: Config, rows: Table)
    ensures Unblocked(cfg, ManifestOf(rows) + map[]) == ManifestOf(Visible(cfg, rows))
  {
    assert ManifestOf(rows) + map[] == ManifestOf(rows);
  }

  lemma UploadErrorsOf(failed: seq<SyncError>, rejected: seq<SyncError>, unsaved: seq<SyncError>)
    requires forall i :: 0 <= i < |failed| ==> failed[i].reason.DownloadFailed?
    requires RejectionsOnly(rejected)
    requires forall i :: 0 <= i < |unsaved| ==> unsaved[i].reason.SaveFailed?
    ensures UploadErrors(failed + rejected + unsaved) == rejected + unsaved
  {
    assert UploadErrors(failed + rejected) == rejected by {
      UploadErrorsConcat(failed, rejected);
      OnlyDownloadErrors(failed);
      NoDownloadErrors(rejected);
      assert [] + rejected == rejected;
    }
    assert UploadErrors(failed + rejected + unsaved) == UploadErrors(failed + rejected) + UploadErrors(unsaved) by {
      UploadErrorsConcat(failed + rejected, unsaved);
    }
    NoDownloadErrors(unsaved);
  }

  /** All errors together answer each upload just when each accepted one has its answer. */
  lemma ErrorsConserve(cfg: Config, h: Hashing, server: map<string, ManifestEntry>, start: int, request: SyncRequest,
                       uploaded: seq<UploadResult>, unsaved: seq<SyncError>)
    ensures var t := TriageAll(cfg, h, server, ClientView(request), start, request.uploads);
      AllAnswered(request, uploaded, t.errors + unsaved) <==> AnsweredOnce(t.accepted, uploaded, unsaved)
  {
    var t := TriageAll(cfg, h, server, ClientView(request), start, request.uploads);
    assert ErrorKeys(t.errors + unsaved) == ErrorKeys(t.errors) + ErrorKeys(unsaved);
    forall key
      ensures Occurrences(UploadedKeys(uploaded), key) + Occurrences(ErrorKeys(t.errors + unsaved), key)
                == Occurrences(UploadKeys(request.uploads), key)
         <==> Occurrences(UploadedKeys(uploaded), key) + Occurrences(ErrorKeys(unsaved), key)
                == Occurrences(EntryKeys(t.accepted), key)
    {
      OccurrencesConcat(ErrorKeys(t.errors), ErrorKeys(unsaved), key);
      NothingIsLost(cfg, h, server, ClientView(request), start, request.uploads, key);
    }
  }

  /** What the handler relies on in the triage. */
  lemma TriageFacts(cfg: Config, h: Hashing, rows: Table, request: SyncRequest)
    ensures var t := TriageOf(cfg, h, rows, request);
      && DistinctEntries(t.accepted) && RejectionsOnly(t.errors)
      && (SaneLimits(cfg) ==> AllKept(cfg, t.accepted))
  {
    var server, client := ManifestOf(rows), ClientView(request);
    AcceptedAreDistinct(cfg, h, server, client, Total(rows), request.uploads);
    RejectionsAreRejections(cfg, h, server, client, Total(rows), request.uploads);
    if SaneLimits(cfg) {
      AcceptedAreAcceptable(cfg, h, server, client, Total(rows), request.uploads);
      AcceptableIsKeepable(cfg, h, server, client, TriageOf(cfg, h, rows, request).accepted);
    }
  }

  /** All errors of an answer, put together. */
  lemma ErrorsTogether(cfg: Config, h: Hashing, rows: Table, request: SyncRequest, uploaded: seq<UploadResult>,
                       failed: seq<SyncError>, unsaved: seq<SyncError>)
    requires forall i :: 0 <= i < |failed| ==> failed[i].reason.DownloadFailed?
    requires forall i :: 0 <= i < |unsaved| ==> unsaved[i].reason.SaveFailed?
    ensures var t := TriageOf(cfg, h, rows, request);
      var errors := failed + t.errors + unsaved;
      && Explained(t, errors)
      && (SaveErrored(errors) <==> unsaved != [])
      && (AllAnswered(request, uploaded, UploadErrors(errors)) <==> AnsweredOnce(t.accepted, uploaded, unsaved))
  {
    var t := TriageOf(cfg, h, rows, request);
    RejectionsAreRejections(cfg, h, ManifestOf(rows), ClientView(request), Total(rows), request.uploads);
    ErrorsConserve(cfg, h, ManifestOf(rows), Total(rows), request, uploaded, unsaved);
    UploadErrorsOf(failed, t.errors, unsaved);
    WhenSaveErrored(failed, t.errors, unsaved);
  }

  /** What was fetched are the missing rows. */
  lemma FetchedIsExact(cfg: Config, z: Zstd, request: SyncRequest, rows: Table, manifest: seq<ManifestEntry>,
                       entries: seq<DataEntry>, downloads: seq<Download>)
    requires Enumerates(manifest, rows)
    requires Fetched(z, rows, Selected(cfg, ClientView(request), manifest), entries) && SameDownloads(entries, downloads)
    ensures DownloadsExact(cfg, z, request, rows, downloads)
  {
    SelectedAreMissing(cfg, request, rows, manifest);
    var keys := Selected(cfg, ClientView(request), manifest);
    forall k | k in rows && Missing(cfg, request, rows, k)
      ensures exists i :: 0 <= i < |downloads| && downloads[i].key == k
    {
      assert k in keys;
      var i :| 0 <= i < |entries| && entries[i].key == k;
      assert downloads[i].key == k;
    }
  }

  predicate ValidKeys(rows: Table) {
    forall k :: k in rows ==> ValidateKey(k).Ok?
  }

  /** What came down, once the fetch is over. */
  ghost predicate FetchedAlone(cfg: Config, z: Zstd, request: SyncRequest, rows: Table, downloads: seq<Download>,
                         failed: seq<SyncError>) {
    if failed == [] then DownloadsExact(cfg, z, request, rows, downloads)
    else downloads == [] && FailuresExact(cfg, request, rows, failed)
  }

  /** The answer to a sync that no other writer disturbed. */
  lemma AnswerIsExact(cfg: Config, z: Zstd, h: Hashing, rows: Table, rows': Table, request: SyncRequest,
                      response: SyncResponse, failed: seq<SyncError>, unsaved: seq<SyncError>,
                      updates: map<string, ManifestEntry>)
    requires response.Synced?
    requires forall i :: 0 <= i < |failed| ==> failed[i].reason.DownloadFailed?
    requires forall i :: 0 <= i < |unsaved| ==> unsaved[i].reason.SaveFailed?
    requires RejectionsOnly(TriageOf(cfg, h, rows, request).errors)
    requires response.errors == failed + TriageOf(cfg, h, rows, request).errors + unsaved
    requires FetchedAlone(cfg, z, request, rows, response.downloads, failed)
    requires SavedAlone(cfg, z, rows, rows', TriageOf(cfg, h, rows, request).accepted, response.uploaded, updates, unsaved)
    requires UniqueKeys(response.manifest)
    requires ByKey(response.manifest) == Unblocked(cfg, ManifestOf(rows) + updates)
    ensures SyncedAlone(cfg, z, h, rows, request, response, rows')
    ensures unsaved == [] ==> BatchSaved(cfg, z, h, rows, request, response, rows')
    ensures failed == [] <==> FetchOk(response.errors)
  {
    var accepted := TriageOf(cfg, h, rows, request).accepted;
    if failed != [] {
      assert response.errors[0] == failed[0];
    }
    if unsaved == [] {
      PatchedIsCurrent(cfg, z, rows, rows', accepted, updates);
    } else {
      UnpatchedIsBefore(cfg, rows);
    }
  }

  lemma AcceptableIsKeepable(cfg: Config, h: Hashing, server: map<string, ManifestEntry>, client: map<string, Held>,
                             accepted: seq<Entry>)
    requires SaneLimits(cfg) && AllAcceptable(cfg, h, server, client, accepted)
    ensures AllKept(cfg, accepted)
  {
    forall i | 0 <= i < |accepted|
      ensures Keepable(cfg, accepted[i])
    {
      assert Acceptable(cfg, h, server, client, accepted[i]);
    }
  }

  lemma {:induction false} PreparedLength(cfg: Config, z: Zstd, entries: seq<Entry>)
    ensures |Prepare(cfg, z, entries)| <= |entries|
    ensures |Prepare(cfg, z, entries)| == |entries| <==> AllKept(cfg, entries)
  {
    if entries != [] {
      var n := |entries| - 1;
      PreparedLength(cfg, z, entries[..n]);
      assert entries == entries[..n] + [entries[n]];
      assert AllKept(cfg, entries) <==> AllKept(cfg, entries[..n]) && Keepable(cfg, entries[n]);
    }
  }

  /** The filter of the batch drops nothing that the loop accepted, just when all accepted values have a 32-bit length. */
  lemma FilterDropsNothing(cfg: Config, z: Zstd, h: Hashing, rows: Table, request: SyncRequest)
    ensures var accepted := TriageOf(cfg, h, rows, request).accepted;
      |Prepare(cfg, z, accepted)| == |accepted| <==> forall i :: 0 <= i < |accepted| ==> |accepted[i].value| <= 0x7FFF_FFFF
  {
    var accepted := TriageOf(cfg, h, rows, request).accepted;
    AcceptedAreAcceptable(cfg, h, ManifestOf(rows), ClientView(request), Total(rows), request.uploads);
    PreparedLength(cfg, z, accepted);
    forall i | 0 <= i < |accepted|
      ensures Keepable(cfg, accepted[i]) <==> |accepted[i].value| <= I32_MAX
    {
      assert Acceptable(cfg, h, ManifestOf(rows), ClientView(request), accepted[i]);
    }
  }

  /** Under limits above `i32::MAX` the loop accepts an upload that the filter drops, so it is answered by nothing. */
  lemma LongUploadIsDropped(z: Zstd, h: Hashing) returns (cfg: Config, request: SyncRequest)
    ensures var accepted := TriageOf(cfg, h, map[], request).accepted;
      && |accepted| == |request.uploads| == 1 && accepted[0].key == request.uploads[0].key
      && !AllKept(cfg, accepted) && Prepare(cfg, z, accepted) == []
  {
    var size := I32_MAX + 1;
    cfg := Config(size, size, size, true, false, 1, 1);
    var u := Upload("a", seq(size, _ => 0), None);
    request := SyncRequest([], [u]);
    ShortNames();
    assert Sizes(map[]) == map[];
    SoleUploadAccepted(cfg, h, map[], request);
    var accepted := TriageOf(cfg, h, map[], request).accepted;
    assert !Keepable(cfg, accepted[0]);
    PreparedLength(cfg, z, accepted);
  }

  lemma WhenSaveErrored(failed: seq<SyncError>, rejected: seq<SyncError>, unsaved: seq<SyncError>)
    requires forall i :: 0 <= i < |failed| ==> failed[i].reason.DownloadFailed?
    requires RejectionsOnly(rejected)
    requires forall i :: 0 <= i < |unsaved| ==> unsaved[i].reason.SaveFailed?
    ensures SaveErrored(failed + rejected + unsaved) <==> unsaved != []
  {
    var all := failed + rejected + unsaved;
    if unsaved != [] {
      assert all[|failed| + |rejected|] == unsaved[0];
    }
  }
}
