/**
 Sync after sync: clients catch up with the server, and in serial runs no client overwrites a row it has not seen.
 */
module SyncRuns {
  import opened Wrappers
  import opened Records
  import opened Configuration
  import opened Codec
  import opened Manifest
  import opened Batch
  import opened SyncTriage
  import opened SyncSpec

  type Client = map<string, Held>

  /** The client stores what came down, the last entry for a key if there were several. */
  function AfterDownloads(client: Client, downloads: seq<Download>): Client {
    if downloads == [] then client
    else
      var d := downloads[|downloads| - 1];
      AfterDownloads(client, downloads[..|downloads| - 1])[d.key := Held(d.version, d.checksum)]
  }

  /** Then it stores what the server says of its uploads. */
  function AfterUploads(client: Client, uploaded: seq<UploadResult>): Client {
    if uploaded == [] then client
    else
      var u := uploaded[|uploaded| - 1];
      AfterUploads(client, uploaded[..|uploaded| - 1])[u.key := Held(u.version, u.checksum)]
  }

  predicate Downloaded(downloads: seq<Download>, key: string) {
    exists i :: 0 <= i < |downloads| && downloads[i].key == key
  }

  predicate CameDown(downloads: seq<Download>, key: string, x: Held) {
    exists i :: 0 <= i < |downloads| && downloads[i].key == key && Held(downloads[i].version, downloads[i].checksum) == x
  }

  predicate ReportedAs(uploaded: seq<UploadResult>, key: string, x: Held) {
    exists i :: 0 <= i < |uploaded| && uploaded[i].key == key && Held(uploaded[i].version, uploaded[i].checksum) == x
  }

  lemma {:induction false} DownloadsStored(client: Client, downloads: seq<Download>, key: string)
    ensures var after := AfterDownloads(client, downloads);
      if Downloaded(downloads, key) then key in after && CameDown(downloads, key, after[key])
      else Lookup(after, key) == Lookup(client, key)
  {
    if downloads != [] {
      var n := |downloads| - 1;
      DownloadsStored(client, downloads[..n], key);
      if downloads[n].key != key && Downloaded(downloads, key) {
        var i :| 0 <= i < |downloads| && downloads[i].key == key;
        assert downloads[..n][i].key == key;
        var x := AfterDownloads(client, downloads)[key];
        var j :| 0 <= j < n && downloads[..n][j].key == key
          && Held(downloads[..n][j].version, downloads[..n][j].checksum) == x;
        assert downloads[j].key == key;
      }
    }
  }

  lemma {:induction false} UploadsStored(client: Client, uploaded: seq<UploadResult>, key: string)
    ensures var after := AfterUploads(client, uploaded);
      if Reported(uploaded, key) then key in after && ReportedAs(uploaded, key, after[key])
      else Lookup(after, key) == Lookup(client, key)
  {
    if uploaded != [] {
      var n := |uploaded| - 1;
      UploadsStored(client, uploaded[..n], key);
      if uploaded[n].key != key && Reported(uploaded, key) {
        var i :| 0 <= i < |uploaded| && uploaded[i].key == key;
        assert uploaded[..n][i].key == key;
        var x := AfterUploads(client, uploaded)[key];
        var j :| 0 <= j < n && uploaded[..n][j].key == key
          && Held(uploaded[..n][j].version, uploaded[..n][j].checksum) == x;
        assert uploaded[j].key == key;
      }
    }
  }

  /** The client holds the server's checksum at the server's version or a later one. */
  predicate InStep(client: Client, rows: Table, key: string) {
    key in rows ==>
      key in client && client[key].version >= rows[key].version && client[key].checksum == rows[key].checksum
  }

  /** The client is in step on every key that it may see. */
  predicate CaughtUp(cfg: Config, client: Client, rows: Table) {
    forall k :: k in Visible(cfg, rows) ==> InStep(client, rows, k)
  }

  /** After a sync whose fetch succeeded, storing the downloads brings the client up to the table that it synced with. */
  lemma DownloadsCatchUp(cfg: Config, z: Zstd, rows: Table, request: SyncRequest, downloads: seq<Download>)
    requires DownloadsExact(cfg, z, request, rows, downloads)
    ensures CaughtUp(cfg, AfterDownloads(ClientMap(request.clientManifest), downloads), rows)
  {
    var client := ClientMap(request.clientManifest);
    forall k | k in Visible(cfg, rows)
      ensures InStep(AfterDownloads(client, downloads), rows, k)
    {
      ClientMapExactly(request.clientManifest, k);
      DownloadsStored(client, downloads, k);
      if !Downloaded(downloads, k) {
        assert !Missing(cfg, request, rows, k);
      }
    }
  }

  /** After a successful batch, storing the results too brings the client up to the new table. */
  lemma SyncCatchesUp(cfg: Config, z: Zstd, h: Hashing, rows: Table, rows': Table, request: SyncRequest,
                      response: SyncResponse)
    requires response.Synced? && SyncedAlone(cfg, z, h, rows, request, response, rows')
    requires FetchOk(response.errors) && BatchSaved(cfg, z, h, rows, request, response, rows')
    ensures CaughtUp(cfg, AfterSync(ClientMap(request.clientManifest), response), rows')
  {
    var client := AfterDownloads(ClientMap(request.clientManifest), response.downloads);
    var accepted := TriageOf(cfg, h, rows, request).accepted;
    DownloadsCatchUp(cfg, z, rows, request, response.downloads);
    forall k | k in Visible(cfg, rows')
      ensures InStep(AfterUploads(client, response.uploaded), rows', k)
    {
      UploadsStored(client, response.uploaded, k);
      if !Reported(response.uploaded, k) {
        assert forall i :: 0 <= i < |accepted| ==> Reported(response.uploaded, accepted[i].key);
        assert !Mentions(accepted, k);
        assert InStep(client, rows, k);
      }
    }
  }

  function AfterSync(client: Client, response: SyncResponse): Client
    requires response.Synced?
  {
    AfterUploads(AfterDownloads(client, response.downloads), response.uploaded)
  }

  predicate SomeServerIsNewer(errors: seq<SyncError>) {
    exists i :: 0 <= i < |errors| && errors[i].reason.ServerIsNewer?
  }

  lemma {:induction false} NothingDominated(cfg: Config, h: Hashing, rows: Table, client: Client, start: int,
                                            uploads: seq<Upload>)
    requires CaughtUp(cfg, client, rows)
    ensures !SomeServerIsNewer(TriageAll(cfg, h, ManifestOf(rows), client, start, uploads).errors)
  {
    if uploads != [] {
      var n := |uploads| - 1;
      NothingDominated(cfg, h, rows, client, start, uploads[..n]);
      var t := TriageAll(cfg, h, ManifestOf(rows), client, start, uploads[..n]);
      var u := uploads[n];
      assert Dominated(ManifestOf(rows), client, u.key) && !Blocked(cfg, u.key) ==> !InStep(client, rows, u.key);
      assert !(Judge(cfg, h, ManifestOf(rows), client, t, u) == Err(ServerIsNewer));
    }
  }

  /** A client that has caught up gets nothing down at its next sync with an upload, and no upload is too old. */
  lemma NextSyncIsQuiet(cfg: Config, z: Zstd, h: Hashing, rows: Table, rows': Table, request: SyncRequest,
                        response: SyncResponse)
    requires CaughtUp(cfg, ClientMap(request.clientManifest), rows) && request.uploads != []
    requires response.Synced? && SyncedAlone(cfg, z, h, rows, request, response, rows')
    ensures response.downloads == []
    ensures !SomeServerIsNewer(TriageOf(cfg, h, rows, request).errors)
  {
    NothingDominated(cfg, h, rows, ClientView(request), Total(rows), request.uploads);
    forall k | k in rows
      ensures !Missing(cfg, request, rows, k)
    {
      assert k in Visible(cfg, rows) ==> InStep(ClientView(request), rows, k);
      ClientMapExactly(request.clientManifest, k);
    }
    var downloads := response.downloads;
    assert downloads != [] && DownloadsExact(cfg, z, request, rows, downloads) ==>
      Missing(cfg, request, rows, downloads[0].key);
  }

  /** Without uploads the client's manifest is not looked at: everything visible comes down, whatever the client holds. */
  lemma PullBringsEverything(cfg: Config, z: Zstd, rows: Table, request: SyncRequest, downloads: seq<Download>, key: string)
    requires request.uploads == []
    requires DownloadsExact(cfg, z, request, rows, downloads)
    ensures Downloaded(downloads, key) <==> key in Visible(cfg, rows)
  {
    if key in Visible(cfg, rows) {
      assert Missing(cfg, request, rows, key);
    }
    if i :| 0 <= i < |downloads| && downloads[i].key == key {
      assert Missing(cfg, request, rows, downloads[i].key);
    }
  }

  // The running size

  lemma {:induction false} OverlayNew(sizes: map<string, nat>, accepted: seq<Entry>, i: nat)
    requires DistinctEntries(accepted) && i < |accepted|
    ensures Lookup(OverlaySizes(sizes, accepted), accepted[i].key) == Some(|accepted[i].value|)
    decreases |accepted|
  {
    var n := |accepted| - 1;
    if i < n {
      OverlayNew(sizes, accepted[..n], i);
    }
  }

  lemma SizesAfter(cfg: Config, z: Zstd, rows: Table, rows': Table, accepted: seq<Entry>)
    requires DistinctEntries(accepted) && Applied(cfg, z, rows, rows', accepted)
    ensures Sizes(rows') == OverlaySizes(Sizes(rows), accepted)
  {
    var overlaid := OverlaySizes(Sizes(rows), accepted);
    forall k
      ensures Lookup(overlaid, k) == Lookup(Sizes(rows'), k)
    {
      if i :| 0 <= i < |accepted| && accepted[i].key == k {
        OverlayNew(Sizes(rows), accepted, i);
      } else {
        OverlayOld(Sizes(rows), accepted, k);
      }
    }
    SameLookups(overlaid, Sizes(rows'));
  }

  /** After a successful batch the running size is the stored total, within the limit when anything was accepted. */
  lemma RunningIsStored(cfg: Config, z: Zstd, h: Hashing, rows: Table, rows': Table, request: SyncRequest)
    requires var t := TriageOf(cfg, h, rows, request); Applied(cfg, z, rows, rows', t.accepted)
    ensures var t := TriageOf(cfg, h, rows, request);
      t.running == Total(rows') && (t.accepted != [] ==> Total(rows') <= cfg.maxBackupSize)
  {
    var t := TriageOf(cfg, h, rows, request);
    var client := ClientView(request);
    assert EntrySizes(ManifestOf(rows)) == Sizes(rows);
    RunningIsExact(cfg, h, ManifestOf(rows), client, request.uploads);
    AcceptedAreDistinct(cfg, h, ManifestOf(rows), client, Total(rows), request.uploads);
    SizesAfter(cfg, z, rows, rows', t.accepted);
  }

  lemma SameLookups(a: map<string, nat>, b: map<string, nat>)
    requires forall k :: Lookup(a, k) == Lookup(b, k)
    ensures a == b
  {
    assert forall k :: k in a <==> Lookup(a, k).Some?;
    assert forall k :: k in b <==> Lookup(b, k).Some?;
    forall k | k in a
      ensures a[k] == b[k]
    {
      assert Lookup(a, k) == Lookup(b, k);
    }
  }
}
