/**
 Many clients, one user: syncs and single saves one after the other, without deletes.

 A client records versions and checksums only as the server tells it, and may lose answers or forget entries.
 Then no sync overwrites a row that the uploading client had not seen.
 */
module SerialSyncs {
  import opened Wrappers
  import opened Records
  import opened Configuration
  import opened Codec
  import opened Manifest
  import opened Batch
  import opened SyncTriage
  import opened SyncSpec
  import opened SyncRuns

  datatype World = World(rows: Table, clients: seq<Client>)

  datatype Act =
    | Sync(who: nat, request: SyncRequest, response: SyncResponse)
    | Save(who: nat, key: string, payload: Payload, now: int)

  /** After an answer: what the client held, what the answer says, or nothing. */
  predicate Recorded(before: Client, after: Client, downloads: seq<Download>, uploaded: seq<UploadResult>) {
    forall k :: k in after ==>
      || (k in before && after[k] == before[k])
      || CameDown(downloads, k, after[k])
      || ReportedAs(uploaded, k, after[k])
  }

  /** The client sends entries that it holds. */
  predicate Sends(client: Client, request: SyncRequest) {
    forall k :: k in ClientMap(request.clientManifest) ==> k in client && client[k] == ClientMap(request.clientManifest)[k]
  }

  predicate OthersUntouched(w: World, w': World, who: nat) {
    |w'.clients| == |w.clients| && forall i :: 0 <= i < |w.clients| && i != who ==> w'.clients[i] == w.clients[i]
  }

  /** One sync, or one save that reports its version, by one client. */
  ghost predicate Stepped(cfg: Config, z: Zstd, h: Hashing, w: World, a: Act, w': World) {
    && a.who < |w.clients|
    && OthersUntouched(w, w', a.who)
    && match a
       case Sync(who, request, response) =>
         && response.Synced? && Sends(w.clients[who], request)
         && SyncedAlone(cfg, z, h, w.rows, request, response, w'.rows)
         && Recorded(w.clients[who], w'.clients[who], response.downloads, response.uploaded)
       case Save(who, key, payload, now) =>
         var row := Written(Lookup(w.rows, key), payload, now);
         && w'.rows == w.rows[key := row]
         && Recorded(w.clients[who], w'.clients[who], [], [UploadResult(key, row.version, row.checksum)])
  }

  ghost predicate SerialRun(cfg: Config, z: Zstd, h: Hashing, ws: seq<World>, acts: seq<Act>) {
    |ws| == |acts| + 1 && forall i :: 0 <= i < |acts| ==> Stepped(cfg, z, h, ws[i], acts[i], ws[i + 1])
  }

  /** The client is never ahead, and an equal version means the same content. */
  predicate KnowsPast(client: Client, rows: Table) {
    forall k :: k in client ==>
      && k in rows && client[k].version <= rows[k].version
      && (client[k].version == rows[k].version ==> client[k].checksum == rows[k].checksum)
  }

  predicate AllKnowPast(w: World) {
    forall i :: 0 <= i < |w.clients| ==> KnowsPast(w.clients[i], w.rows)
  }

  /** Rows stay, or get a higher version. */
  predicate Grows(rows: Table, rows': Table) {
    forall k :: k in rows ==> k in rows' && (rows'[k] == rows[k] || rows[k].version < rows'[k].version)
  }

  lemma GrowthKeepsPast(client: Client, rows: Table, rows': Table)
    requires KnowsPast(client, rows) && Grows(rows, rows')
    ensures KnowsPast(client, rows')
  {
  }

  lemma PreparedKeys(cfg: Config, z: Zstd, accepted: seq<Entry>)
    ensures forall i :: 0 <= i < |Prepare(cfg, z, accepted)| ==> Mentions(accepted, Prepare(cfg, z, accepted)[i].key)
  {
    forall i | 0 <= i < |Prepare(cfg, z, accepted)|
      ensures Mentions(accepted, Prepare(cfg, z, accepted)[i].key)
    {
      PreparedExactly(cfg, z, accepted, Prepare(cfg, z, accepted)[i]);
    }
  }

  /** Whether its batch succeeds or not, a sync changes accepted keys only, and to a higher version. */
  lemma SyncChangesAccepted(cfg: Config, z: Zstd, h: Hashing, rows: Table, request: SyncRequest, response: SyncResponse,
                            rows': Table)
    requires response.Synced? && SyncedAlone(cfg, z, h, rows, request, response, rows')
    ensures Grows(rows, rows')
    ensures forall k :: k in rows && rows'[k] != rows[k] ==> Mentions(TriageOf(cfg, h, rows, request).accepted, k)
  {
    var accepted := TriageOf(cfg, h, rows, request).accepted;
    if BatchSaved(cfg, z, h, rows, request, response, rows') {
      forall k | k in rows
        ensures k in rows' && (rows'[k] == rows[k] || (rows[k].version < rows'[k].version && Mentions(accepted, k)))
      {
        if i :| 0 <= i < |accepted| && accepted[i].key == k {
          assert Entered(cfg, z, rows, rows', accepted[i]);
        }
      }
    } else {
      PreparedKeys(cfg, z, accepted);
      var batch := Prepare(cfg, z, accepted);
      forall k | k in rows
        ensures k in rows' && (rows'[k] == rows[k] || (rows[k].version < rows'[k].version && Mentions(accepted, k)))
      {
        if Lookup(rows', k) != Lookup(rows, k) {
          assert HalfWay(rows, rows', batch, k);
          var i, now :| 0 <= i < |batch| && batch[i].key == k && Lookup(rows', k) == Some(RowFor(rows, batch[i], now));
        }
      }
    }
  }

  /** What an answer says is true of the table that it leaves. */
  lemma AnswersAreTrue(cfg: Config, z: Zstd, h: Hashing, w: World, a: Act, w': World)
    requires Stepped(cfg, z, h, w, a, w') && a.Sync? && KnowsPast(w.clients[a.who], w.rows)
    ensures KnowsPast(w'.clients[a.who], w'.rows)
  {
    var before, after := w.clients[a.who], w'.clients[a.who];
    var downloads, uploaded := a.response.downloads, a.response.uploaded;
    SyncChangesAccepted(cfg, z, h, w.rows, a.request, a.response, w'.rows);
    GrowthKeepsPast(before, w.rows, w'.rows);
    forall k | k in after
      ensures k in w'.rows && after[k].version <= w'.rows[k].version
      ensures after[k].version == w'.rows[k].version ==> after[k].checksum == w'.rows[k].checksum
    {
      if CameDown(downloads, k, after[k]) {
        var i :| 0 <= i < |downloads| && downloads[i].key == k
          && Held(downloads[i].version, downloads[i].checksum) == after[k];
        assert Missing(cfg, a.request, w.rows, k);
      } else if ReportedAs(uploaded, k, after[k]) {
        var i :| 0 <= i < |uploaded| && uploaded[i].key == k
          && Held(uploaded[i].version, uploaded[i].checksum) == after[k];
      } else {
        assert k in before && after[k] == before[k];
      }
    }
  }

  lemma StepKeepsPast(cfg: Config, z: Zstd, h: Hashing, w: World, a: Act, w': World)
    requires AllKnowPast(w) && Stepped(cfg, z, h, w, a, w')
    ensures AllKnowPast(w') && Grows(w.rows, w'.rows)
  {
    assert KnowsPast(w.clients[a.who], w.rows);
    if a.Sync? {
      SyncChangesAccepted(cfg, z, h, w.rows, a.request, a.response, w'.rows);
      AnswersAreTrue(cfg, z, h, w, a, w');
    }
    forall i | 0 <= i < |w'.clients|
      ensures KnowsPast(w'.clients[i], w'.rows)
    {
      if i != a.who {
        GrowthKeepsPast(w.clients[i], w.rows, w'.rows);
      }
    }
  }

  /** In a serial delete-free run client versions never exceed server versions; an equal one has the server's checksum. */
  lemma {:induction false} ClientsNeverAhead(cfg: Config, z: Zstd, h: Hashing, ws: seq<World>, acts: seq<Act>, n: nat)
    requires SerialRun(cfg, z, h, ws, acts) && AllKnowPast(ws[0]) && n < |ws|
    ensures AllKnowPast(ws[n])
  {
    if n > 0 {
      ClientsNeverAhead(cfg, z, h, ws, acts, n - 1);
      StepKeepsPast(cfg, z, h, ws[n - 1], acts[n - 1], ws[n]);
    }
  }

  /** A row that a sync overwrites is the very one that the uploading client last saw. */
  lemma NoUnseenOverwrite(cfg: Config, z: Zstd, h: Hashing, ws: seq<World>, acts: seq<Act>, n: nat, key: string)
    requires SerialRun(cfg, z, h, ws, acts) && AllKnowPast(ws[0])
    requires n < |acts| && acts[n].Sync? && key in ws[n].rows && Lookup(ws[n + 1].rows, key) != Some(ws[n].rows[key])
    ensures acts[n].who < |ws[n].clients|
    ensures var client, row := ws[n].clients[acts[n].who], ws[n].rows[key];
      key in client && client[key] == Held(row.version, row.checksum)
  {
    var w, a := ws[n], acts[n];
    assert Stepped(cfg, z, h, w, a, ws[n + 1]);
    ClientsNeverAhead(cfg, z, h, ws, acts, n);
    var client, view := w.clients[a.who], ClientView(a.request);
    var accepted := TriageOf(cfg, h, w.rows, a.request).accepted;
    SyncChangesAccepted(cfg, z, h, w.rows, a.request, a.response, ws[n + 1].rows);
    AcceptedAreAcceptable(cfg, h, ManifestOf(w.rows), view, Total(w.rows), a.request.uploads);
    var i :| 0 <= i < |accepted| && accepted[i].key == key;
    assert Acceptable(cfg, h, ManifestOf(w.rows), view, accepted[i]);
    assert !Dominated(ManifestOf(w.rows), view, key);
    assert KnowsPast(client, w.rows);
  }
}
