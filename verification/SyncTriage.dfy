/**
 The upload loop of a sync request: which uploads are accepted, and why the others are not.

 The server's manifest is a map here; the hash of keys and the checksum of values are parameters.
 */
module SyncTriage {
  import opened Wrappers
  import opened Records
  import opened Configuration
  import opened KeyNames
  import opened Manifest
  import opened Batch

  datatype Hashing = Hashing(keyHash: string -> nat, checksum: Bytes -> string)

  /** What a client holds for a key. */
  datatype Held = Held(version: int, checksum: string)

  datatype ClientEntry = ClientEntry(key: string, version: int, checksum: string)

  datatype Upload = Upload(key: string, value: Bytes, checksum: Option<string>)

  datatype SyncRequest = SyncRequest(clientManifest: seq<ClientEntry>, uploads: seq<Upload>)

  datatype Reason =
    | DuplicateInBatch
    | BadKey(error: KeyValidationError)
    | DatastoreDisabled
    | TooLarge
    | ChecksumMismatch
    | ServerIsNewer
    | StorageLimit
    | DownloadFailed
    | SaveFailed

  datatype SyncError = SyncError(key: string, reason: Reason)

  /** The client manifest collected into a map: of two entries for one key the last one wins. */
  function ClientMap(entries: seq<ClientEntry>): map<string, Held> {
    if entries == [] then map[]
    else
      var e := entries[|entries| - 1];
      ClientMap(entries[..|entries| - 1])[e.key := Held(e.version, e.checksum)]
  }

  /** The last entry of the list for the key. */
  predicate LastEntry(entries: seq<ClientEntry>, i: nat, key: string) {
    i < |entries| && entries[i].key == key && forall j :: i < j < |entries| ==> entries[j].key != key
  }

  lemma {:induction false} LastEntryCounts(entries: seq<ClientEntry>, i: nat, key: string)
    requires LastEntry(entries, i, key)
    ensures Lookup(ClientMap(entries), key) == Some(Held(entries[i].version, entries[i].checksum))
  {
    var n := |entries| - 1;
    if i < n {
      LastEntryCounts(entries[..n], i, key);
    }
  }

  predicate Lists(entries: seq<ClientEntry>, key: string) {
    exists i :: 0 <= i < |entries| && entries[i].key == key
  }

  lemma {:induction false} UnlistedIsAbsent(entries: seq<ClientEntry>, key: string)
    requires !Lists(entries, key)
    ensures key !in ClientMap(entries)
  {
    if entries != [] {
      var n := |entries| - 1;
      assert !Lists(entries[..n], key) by {
        assert forall i :: 0 <= i < n ==> entries[..n][i] == entries[i];
      }
      UnlistedIsAbsent(entries[..n], key);
    }
  }

  lemma LastListed(entries: seq<ClientEntry>, key: string) returns (last: nat)
    requires Lists(entries, key)
    ensures last < |entries| && LastEntry(entries, last, key)
  {
    var i :| 0 <= i < |entries| && entries[i].key == key;
    last := |entries| - 1;
    while entries[last].key != key
      invariant i <= last < |entries| && forall j :: last < j < |entries| ==> entries[j].key != key
      decreases last
    {
      last := last - 1;
    }
  }

  /** A key is in the map exactly when some entry has it, with what the last such entry says. */
  lemma ClientMapExactly(entries: seq<ClientEntry>, key: string)
    ensures key in ClientMap(entries) <==> exists i :: 0 <= i < |entries| && entries[i].key == key
    ensures key in ClientMap(entries) <==> exists i :: 0 <= i < |entries| && LastEntry(entries, i, key)
    ensures forall i :: 0 <= i < |entries| && LastEntry(entries, i, key) && key in ClientMap(entries) ==>
      ClientMap(entries)[key] == Held(entries[i].version, entries[i].checksum)
  {
    if Lists(entries, key) {
      var last := LastListed(entries, key);
    } else {
      UnlistedIsAbsent(entries, key);
    }
    forall i | 0 <= i < |entries| && LastEntry(entries, i, key)
      ensures Lookup(ClientMap(entries), key) == Some(Held(entries[i].version, entries[i].checksum))
    {
      LastEntryCounts(entries, i, key);
    }
  }

  /** Without uploads the map is not even built. */
  function ClientView(request: SyncRequest): map<string, Held> {
    if request.uploads == [] then map[] else ClientMap(request.clientManifest)
  }

  predicate UpToDate(client: map<string, Held>, e: ManifestEntry) {
    e.key in client && client[e.key].version >= e.version && client[e.key].checksum == e.checksum
  }

  predicate Wanted(cfg: Config, client: map<string, Held>, e: ManifestEntry) {
    !Blocked(cfg, e.key) && !UpToDate(client, e)
  }

  /** The server has the key, and the client does not know its version. */
  predicate Dominated(server: map<string, ManifestEntry>, client: map<string, Held>, key: string) {
    key in server && (key in client ==> client[key].version < server[key].version)
  }

  function ServerSize(server: map<string, ManifestEntry>, key: string): nat {
    if key in server then server[key].size else 0
  }

  /** The state of the loop. */
  datatype Triage = Triage(seen: set<nat>, accepted: seq<Entry>, errors: seq<SyncError>, running: int)

  /** What happens to one upload. */
  function Judge(cfg: Config, h: Hashing, server: map<string, ManifestEntry>, client: map<string, Held>, t: Triage,
                 u: Upload): Result<Entry, Reason> {
    if h.keyHash(u.key) in t.seen then Err(DuplicateInBatch)
    else
      match ValidateKey(u.key)
      case Err(e) => Err(BadKey(e))
      case Ok(_) =>
        if Blocked(cfg, u.key) then Err(DatastoreDisabled)
        else if |u.value| > MaxSizeForKey(cfg, u.key) then Err(TooLarge)
        else if u.checksum.Some? && u.checksum.value != h.checksum(u.value) then Err(ChecksumMismatch)
        else if Dominated(server, client, u.key) then Err(ServerIsNewer)
        else if t.running - ServerSize(server, u.key) + |u.value| > cfg.maxBackupSize then Err(StorageLimit)
        else Ok(Entry(u.key, u.value, h.checksum(u.value)))
  }

  function Advance(cfg: Config, h: Hashing, server: map<string, ManifestEntry>, client: map<string, Held>, t: Triage,
                   u: Upload): Triage {
    var seen := t.seen + {h.keyHash(u.key)};
    match Judge(cfg, h, server, client, t, u)
    case Ok(entry) => Triage(seen, t.accepted + [entry], t.errors, t.running - ServerSize(server, u.key) + |u.value|)
    case Err(reason) => t.(seen := seen, errors := t.errors + [SyncError(u.key, reason)])
  }

  function TriageAll(cfg: Config, h: Hashing, server: map<string, ManifestEntry>, client: map<string, Held>, start: int,
                     uploads: seq<Upload>): Triage {
    if uploads == [] then Triage({}, [], [], start)
    else
      var n := |uploads| - 1;
      Advance(cfg, h, server, client, TriageAll(cfg, h, server, client, start, uploads[..n]), uploads[n])
  }

  predicate Mentions(entries: seq<Entry>, key: string) {
    exists i :: 0 <= i < |entries| && entries[i].key == key
  }

  predicate DistinctEntries(entries: seq<Entry>) {
    forall i, j :: 0 <= i < j < |entries| ==> entries[i].key != entries[j].key
  }

  /** Accepted uploads have distinct keys, whatever the hash function: every accepted key's hash was seen. */
  lemma {:induction false} AcceptedAreDistinct(cfg: Config, h: Hashing, server: map<string, ManifestEntry>,
                                               client: map<string, Held>, start: int, uploads: seq<Upload>)
    ensures var t := TriageAll(cfg, h, server, client, start, uploads);
      && DistinctEntries(t.accepted)
      && forall i :: 0 <= i < |t.accepted| ==> h.keyHash(t.accepted[i].key) in t.seen
  {
    if uploads != [] {
      AcceptedAreDistinct(cfg, h, server, client, start, uploads[..|uploads| - 1]);
    }
  }

  /** What every accepted upload has passed. */
  predicate Acceptable(cfg: Config, h: Hashing, server: map<string, ManifestEntry>, client: map<string, Held>, e: Entry) {
    && ValidateKey(e.key).Ok?
    && ("dataStore/" <= e.key ==> cfg.datastoreEnabled)
    && |e.value| <= (if "dataStore/" <= e.key then cfg.maxDatastoreKeySize else cfg.maxKeySize)
    && e.checksum == h.checksum(e.value)
    && (e.key in server ==> e.key in client && client[e.key].version >= server[e.key].version)
  }

  lemma JudgedAcceptable(cfg: Config, h: Hashing, server: map<string, ManifestEntry>, client: map<string, Held>,
                         t: Triage, u: Upload)
    requires Judge(cfg, h, server, client, t, u).Ok?
    ensures Acceptable(cfg, h, server, client, Judge(cfg, h, server, client, t, u).value)
  {
  }

  predicate AllAcceptable(cfg: Config, h: Hashing, server: map<string, ManifestEntry>, client: map<string, Held>,
                          entries: seq<Entry>) {
    forall i :: 0 <= i < |entries| ==> Acceptable(cfg, h, server, client, entries[i])
  }

  lemma {:induction false} AcceptedAreAcceptable(cfg: Config, h: Hashing, server: map<string, ManifestEntry>,
                                                 client: map<string, Held>, start: int, uploads: seq<Upload>)
    ensures AllAcceptable(cfg, h, server, client, TriageAll(cfg, h, server, client, start, uploads).accepted)
  {
    if uploads != [] {
      var n := |uploads| - 1;
      AcceptedAreAcceptable(cfg, h, server, client, start, uploads[..n]);
      var t := TriageAll(cfg, h, server, client, start, uploads[..n]);
      var all := TriageAll(cfg, h, server, client, start, uploads).accepted;
      var verdict := Judge(cfg, h, server, client, t, uploads[n]);
      if verdict.Ok? {
        JudgedAcceptable(cfg, h, server, client, t, uploads[n]);
        assert all == t.accepted + [verdict.value];
      } else {
        assert all == t.accepted;
      }
    }
  }

  predicate HashSeen(h: Hashing, uploads: seq<Upload>, x: nat) {
    exists j :: 0 <= j < |uploads| && h.keyHash(uploads[j].key) == x
  }

  lemma {:induction false} SeenAreHashes(cfg: Config, h: Hashing, server: map<string, ManifestEntry>,
                                         client: map<string, Held>, start: int, uploads: seq<Upload>, x: nat)
    ensures x in TriageAll(cfg, h, server, client, start, uploads).seen <==> HashSeen(h, uploads, x)
  {
    if uploads != [] {
      var n := |uploads| - 1;
      SeenAreHashes(cfg, h, server, client, start, uploads[..n], x);
      if HashSeen(h, uploads[..n], x) {
        var j :| 0 <= j < n && h.keyHash(uploads[..n][j].key) == x;
        assert uploads[j] == uploads[..n][j];
      }
      if HashSeen(h, uploads, x) {
        var j :| 0 <= j < |uploads| && h.keyHash(uploads[j].key) == x;
        assert j < n ==> uploads[..n][j] == uploads[j];
      }
    }
  }

  /** The sizes of the manifest overlaid with the accepted uploads. */
  function OverlaySizes(sizes: map<string, nat>, accepted: seq<Entry>): map<string, nat> {
    if accepted == [] then sizes
    else
      var e := accepted[|accepted| - 1];
      OverlaySizes(sizes, accepted[..|accepted| - 1])[e.key := |e.value|]
  }

  lemma {:induction false} OverlayOld(sizes: map<string, nat>, accepted: seq<Entry>, key: string)
    requires !Mentions(accepted, key)
    ensures Lookup(OverlaySizes(sizes, accepted), key) == Lookup(sizes, key)
  {
    if accepted != [] {
      var n := |accepted| - 1;
      assert accepted[n].key != key;
      assert !Mentions(accepted[..n], key) by {
        assert forall i :: 0 <= i < n ==> accepted[..n][i] == accepted[i];
      }
      OverlayOld(sizes, accepted[..n], key);
    }
  }

  /** One more accepted upload, of a key that was not accepted before. */
  lemma OneMoreAccepted(sizes: map<string, nat>, accepted: seq<Entry>, e: Entry)
    requires !Mentions(accepted, e.key)
    ensures Sum(OverlaySizes(sizes, accepted + [e]))
         == Sum(OverlaySizes(sizes, accepted)) - (if e.key in sizes then sizes[e.key] else 0) + |e.value|
  {
    var prior := OverlaySizes(sizes, accepted);
    OverlayOld(sizes, accepted, e.key);
    assert (accepted + [e])[..|accepted|] == accepted;
    SumUpdate(prior, e.key, |e.value|);
    assert e.key in prior <==> Lookup(prior, e.key).Some?;
    assert e.key in sizes <==> Lookup(sizes, e.key).Some?;
  }

  ghost predicate ExactlySummed(cfg: Config, sizes: map<string, nat>, t: Triage) {
    t.running == Sum(OverlaySizes(sizes, t.accepted)) && (t.accepted != [] ==> t.running <= cfg.maxBackupSize)
  }

  lemma StaysExact(cfg: Config, h: Hashing, server: map<string, ManifestEntry>, client: map<string, Held>, t: Triage,
                   u: Upload)
    requires ExactlySummed(cfg, EntrySizes(server), t)
    requires forall i :: 0 <= i < |t.accepted| ==> h.keyHash(t.accepted[i].key) in t.seen
    ensures ExactlySummed(cfg, EntrySizes(server), Advance(cfg, h, server, client, t, u))
  {
    var verdict := Judge(cfg, h, server, client, t, u);
    if verdict.Ok? {
      OneMoreAccepted(EntrySizes(server), t.accepted, verdict.value);
    }
  }

  /** The running size is the exact total of the manifest overlaid with what was accepted, so never negative. */
  lemma {:induction false} RunningIsExact(cfg: Config, h: Hashing, server: map<string, ManifestEntry>,
                                          client: map<string, Held>, uploads: seq<Upload>)
    ensures ExactlySummed(cfg, EntrySizes(server), TriageAll(cfg, h, server, client, Sum(EntrySizes(server)), uploads))
  {
    if uploads != [] {
      var n := |uploads| - 1;
      var start := Sum(EntrySizes(server));
      RunningIsExact(cfg, h, server, client, uploads[..n]);
      AcceptedAreDistinct(cfg, h, server, client, start, uploads[..n]);
      StaysExact(cfg, h, server, client, TriageAll(cfg, h, server, client, start, uploads[..n]), uploads[n]);
    }
  }

  // Which key is answered how often

  function UploadKeys(uploads: seq<Upload>): seq<string> {
    seq(|uploads|, i requires 0 <= i < |uploads| => uploads[i].key)
  }

  function EntryKeys(entries: seq<Entry>): seq<string> {
    seq(|entries|, i requires 0 <= i < |entries| => entries[i].key)
  }

  function ErrorKeys(errors: seq<SyncError>): seq<string> {
    seq(|errors|, i requires 0 <= i < |errors| => errors[i].key)
  }

  /** How often a key occurs in a list. */
  function Occurrences(keys: seq<string>, key: string): nat {
    if keys == [] then 0
    else Occurrences(keys[..|keys| - 1], key) + if keys[|keys| - 1] == key then 1 else 0
  }

  lemma OccurrencesSnoc(keys: seq<string>, last: string, key: string)
    ensures Occurrences(keys + [last], key) == Occurrences(keys, key) + if last == key then 1 else 0
  {
    assert (keys + [last])[..|keys|] == keys;
  }

  lemma {:induction false} OccurrencesConcat(a: seq<string>, b: seq<string>, key: string)
    ensures Occurrences(a + b, key) == Occurrences(a, key) + Occurrences(b, key)
  {
    if b == [] {
      assert a + b == a;
    } else {
      var n := |b| - 1;
      OccurrencesConcat(a, b[..n], key);
      assert a + b == (a + b[..n]) + [b[n]];
      OccurrencesSnoc(a + b[..n], b[n], key);
    }
  }

  predicate RejectionsOnly(errors: seq<SyncError>) {
    forall i :: 0 <= i < |errors| ==> !errors[i].reason.DownloadFailed? && !errors[i].reason.SaveFailed?
  }

  lemma OneMoreJudged(cfg: Config, h: Hashing, server: map<string, ManifestEntry>, client: map<string, Held>,
                      t: Triage, u: Upload, key: string)
    ensures var t' := Advance(cfg, h, server, client, t, u);
      Occurrences(EntryKeys(t'.accepted), key) + Occurrences(ErrorKeys(t'.errors), key)
      == Occurrences(EntryKeys(t.accepted), key) + Occurrences(ErrorKeys(t.errors), key) + if u.key == key then 1 else 0
  {
    var verdict := Judge(cfg, h, server, client, t, u);
    var t' := Advance(cfg, h, server, client, t, u);
    if verdict.Ok? {
      assert verdict.value.key == u.key;
      assert EntryKeys(t'.accepted) == EntryKeys(t.accepted) + [u.key];
      OccurrencesSnoc(EntryKeys(t.accepted), u.key, key);
    } else {
      assert ErrorKeys(t'.errors) == ErrorKeys(t.errors) + [u.key];
      OccurrencesSnoc(ErrorKeys(t.errors), u.key, key);
    }
  }

  lemma {:induction false} RejectionsAreRejections(cfg: Config, h: Hashing, server: map<string, ManifestEntry>,
                                                   client: map<string, Held>, start: int, uploads: seq<Upload>)
    ensures RejectionsOnly(TriageAll(cfg, h, server, client, start, uploads).errors)
  {
    if uploads != [] {
      var n := |uploads| - 1;
      RejectionsAreRejections(cfg, h, server, client, start, uploads[..n]);
      var t := TriageAll(cfg, h, server, client, start, uploads[..n]);
      OneMoreRejection(cfg, h, server, client, t, uploads[n]);
    }
  }

  lemma OneMoreRejection(cfg: Config, h: Hashing, server: map<string, ManifestEntry>, client: map<string, Held>,
                         t: Triage, u: Upload)
    requires RejectionsOnly(t.errors)
    ensures RejectionsOnly(Advance(cfg, h, server, client, t, u).errors)
  {
  }

  /** Every upload is accepted or rejected, once: no key is answered more or less often than it was sent. */
  lemma {:induction false} NothingIsLost(cfg: Config, h: Hashing, server: map<string, ManifestEntry>,
                                         client: map<string, Held>, start: int, uploads: seq<Upload>, key: string)
    ensures var t := TriageAll(cfg, h, server, client, start, uploads);
      Occurrences(EntryKeys(t.accepted), key) + Occurrences(ErrorKeys(t.errors), key)
      == Occurrences(UploadKeys(uploads), key)
  {
    if uploads == [] {
      assert UploadKeys(uploads) == [];
    } else {
      var n := |uploads| - 1;
      NothingIsLost(cfg, h, server, client, start, uploads[..n], key);
      OneMoreJudged(cfg, h, server, client, TriageAll(cfg, h, server, client, start, uploads[..n]), uploads[n], key);
      OneMoreUpload(uploads, key);
    }
  }

  lemma OneMoreUpload(uploads: seq<Upload>, key: string)
    requires uploads != []
    ensures var n := |uploads| - 1;
      Occurrences(UploadKeys(uploads), key)
      == Occurrences(UploadKeys(uploads[..n]), key) + if uploads[n].key == key then 1 else 0
  {
    var n := |uploads| - 1;
    assert UploadKeys(uploads) == UploadKeys(uploads[..n]) + [uploads[n].key];
    OccurrencesSnoc(UploadKeys(uploads[..n]), uploads[n].key, key);
  }
}
