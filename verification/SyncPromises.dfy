/**
 What a client may expect of its uploads, said of the request, the table and the limits: which of them are refused
 and why, and what a later get finds of the others.
 */
module SyncPromises {
  import opened Wrappers
  import opened Records
  import opened Configuration
  import opened Codec
  import opened KeyNames
  import opened Manifest
  import opened StoreProtocol
  import opened Batch
  import opened SyncTriage
  import opened SyncSpec
  import opened SyncResults
  import opened UnseenOverwrites
  import opened DataRoutes

  /** What may be wrong with upload `i`, when the accepted ones before it have brought the stored total to `total`. */
  predicate Faulty(cfg: Config, h: Hashing, rows: Table, request: SyncRequest, i: nat, total: int, why: Reason)
    requires i < |request.uploads|
  {
    var u, held := request.uploads[i], request.clientManifest;
    match why
    case DuplicateInBatch => exists j :: 0 <= j < i && h.keyHash(request.uploads[j].key) == h.keyHash(u.key)
    case BadKey(e) => ValidateKey(u.key) == Err(e)
    case DatastoreDisabled => "dataStore/" <= u.key && !cfg.datastoreEnabled
    case TooLarge => |u.value| > if "dataStore/" <= u.key then cfg.maxDatastoreKeySize else cfg.maxKeySize
    case ChecksumMismatch => u.checksum.Some? && u.checksum.value != h.checksum(u.value)
    case ServerIsNewer =>
      && u.key in rows
      && forall m :: 0 <= m < |held| && LastEntry(held, m, u.key) ==> held[m].version < rows[u.key].version
    case StorageLimit => total - SizeOf(rows, u.key) + |u.value| > cfg.maxBackupSize
    case DownloadFailed => false
    case SaveFailed => false
  }

  /** The order in which the loop looks for faults. */
  function Order(why: Reason): nat {
    match why
    case DuplicateInBatch => 0
    case BadKey(_) => 1
    case DatastoreDisabled => 2
    case TooLarge => 3
    case ChecksumMismatch => 4
    case ServerIsNewer => 5
    case StorageLimit => 6
    case DownloadFailed => 7
    case SaveFailed => 8
  }

  ghost predicate Faultless(cfg: Config, h: Hashing, rows: Table, request: SyncRequest, i: nat, total: int)
    requires i < |request.uploads|
  {
    forall why: Reason :: !Faulty(cfg, h, rows, request, i, total, why)
  }

  ghost predicate FirstFault(cfg: Config, h: Hashing, rows: Table, request: SyncRequest, i: nat, total: int, why: Reason)
    requires i < |request.uploads|
  {
    && Faulty(cfg, h, rows, request, i, total, why)
    && forall other: Reason :: Faulty(cfg, h, rows, request, i, total, other) ==> Order(why) <= Order(other)
  }

  ghost predicate Verdict(cfg: Config, h: Hashing, rows: Table, request: SyncRequest, i: nat, total: int,
                          fault: Option<Reason>)
    requires i < |request.uploads|
  {
    if fault.None? then Faultless(cfg, h, rows, request, i, total)
    else FirstFault(cfg, h, rows, request, i, total, fault.value)
  }

  /** Verdicts on the first uploads, `None` for an accepted one, and the totals that they meet. */
  ghost predicate Verdicts(cfg: Config, h: Hashing, rows: Table, request: SyncRequest, faults: seq<Option<Reason>>,
                           totals: seq<int>) {
    && |faults| <= |request.uploads| && |totals| == |faults| + 1 && totals[0] == Total(rows)
    && forall i :: 0 <= i < |faults| ==>
      && Verdict(cfg, h, rows, request, i, totals[i], faults[i])
      && totals[i + 1] == totals[i] + Gain(rows, request.uploads[i], faults[i])
  }

  /** What an accepted upload adds to the stored total. */
  function Gain(rows: Table, u: Upload, fault: Option<Reason>): int {
    if fault.None? then |u.value| - SizeOf(rows, u.key) else 0
  }

  /** The refused uploads with their faults, in the order of the request. */
  function Refusals(uploads: seq<Upload>, faults: seq<Option<Reason>>): seq<SyncError>
    requires |faults| <= |uploads|
  {
    if faults == [] then []
    else
      var n := |faults| - 1;
      Refusals(uploads, faults[..n]) + if faults[n].Some? then [SyncError(uploads[n].key, faults[n].value)] else []
  }

  /** The other uploads, with the checksums of their values. */
  function Admitted(h: Hashing, uploads: seq<Upload>, faults: seq<Option<Reason>>): seq<Entry>
    requires |faults| <= |uploads|
  {
    if faults == [] then []
    else
      var n := |faults| - 1;
      var u := uploads[n];
      Admitted(h, uploads, faults[..n]) + if faults[n].None? then [Entry(u.key, u.value, h.checksum(u.value))] else []
  }

  lemma DominatedExactly(rows: Table, request: SyncRequest, i: nat)
    requires i < |request.uploads|
    ensures var u, held := request.uploads[i], request.clientManifest;
      Dominated(ManifestOf(rows), ClientView(request), u.key)
      <==> u.key in rows
           && forall m :: 0 <= m < |held| && LastEntry(held, m, u.key) ==> held[m].version < rows[u.key].version
  {
    ClientMapExactly(request.clientManifest, request.uploads[i].key);
  }

  ghost function VerdictOf(cfg: Config, h: Hashing, rows: Table, request: SyncRequest, i: nat): Result<Entry, Reason>
    requires i < |request.uploads|
  {
    var server, client := ManifestOf(rows), ClientView(request);
    Judge(cfg, h, server, client, TriageAll(cfg, h, server, client, Total(rows), request.uploads[..i]), request.uploads[i])
  }

  ghost function TotalMet(cfg: Config, h: Hashing, rows: Table, request: SyncRequest, i: nat): int
    requires i < |request.uploads|
  {
    TriageAll(cfg, h, ManifestOf(rows), ClientView(request), Total(rows), request.uploads[..i]).running
  }

  /** An upload is refused for the first fault that it has, and accepted just when it has none. */
  lemma JudgedExactly(cfg: Config, h: Hashing, rows: Table, request: SyncRequest, i: nat)
    requires i < |request.uploads|
    ensures var u, total := request.uploads[i], TotalMet(cfg, h, rows, request, i);
      match VerdictOf(cfg, h, rows, request, i)
      case Ok(e) => Faultless(cfg, h, rows, request, i, total) && e == Entry(u.key, u.value, h.checksum(u.value))
      case Err(why) => FirstFault(cfg, h, rows, request, i, total, why)
  {
    var u, total := request.uploads[i], TotalMet(cfg, h, rows, request, i);
    SeenAreHashes(cfg, h, ManifestOf(rows), ClientView(request), Total(rows), request.uploads[..i], h.keyHash(u.key));
    assert HashSeen(h, request.uploads[..i], h.keyHash(u.key)) <==>
      Faulty(cfg, h, rows, request, i, total, DuplicateInBatch);
    DominatedExactly(rows, request, i);
    var verdict := VerdictOf(cfg, h, rows, request, i);
    if verdict.Err? {
      assert Faulty(cfg, h, rows, request, i, total, verdict.error);
    }
    forall why: Reason | Faulty(cfg, h, rows, request, i, total, why)
      ensures verdict.Err? && Order(verdict.error) <= Order(why)
    {
      match why {
        case DuplicateInBatch =>
        case BadKey(_) =>
        case DatastoreDisabled =>
        case TooLarge =>
        case ChecksumMismatch =>
        case ServerIsNewer =>
        case StorageLimit =>
        case DownloadFailed =>
        case SaveFailed =>
      }
    }
  }

  /** So far the loop has done what the verdicts say. */
  ghost predicate Followed(cfg: Config, h: Hashing, rows: Table, request: SyncRequest, faults: seq<Option<Reason>>,
                           totals: seq<int>) {
    && Verdicts(cfg, h, rows, request, faults, totals)
    && var t := TriageAll(cfg, h, ManifestOf(rows), ClientView(request), Total(rows), request.uploads[..|faults|]);
      && t.errors == Refusals(request.uploads, faults)
      && t.accepted == Admitted(h, request.uploads, faults)
      && t.running == totals[|faults|]
  }

  lemma OneMoreVerdict(cfg: Config, h: Hashing, rows: Table, request: SyncRequest, faults: seq<Option<Reason>>,
                       totals: seq<int>, fault: Option<Reason>)
    requires |faults| < |request.uploads| && Verdicts(cfg, h, rows, request, faults, totals)
    requires Verdict(cfg, h, rows, request, |faults|, totals[|faults|], fault)
    ensures Verdicts(cfg, h, rows, request, faults + [fault],
                     totals + [totals[|faults|] + Gain(rows, request.uploads[|faults|], fault)])
  {
    var faults', totals' := faults + [fault], totals + [totals[|faults|] + Gain(rows, request.uploads[|faults|], fault)];
    forall i | 0 <= i < |faults'|
      ensures Verdict(cfg, h, rows, request, i, totals'[i], faults'[i])
      ensures totals'[i + 1] == totals'[i] + Gain(rows, request.uploads[i], faults'[i])
    {
      if i < |faults| {
        assert faults'[i] == faults[i] && totals'[i] == totals[i];
      }
    }
  }

  /** One round of the loop. */
  lemma RoundExactly(cfg: Config, h: Hashing, rows: Table, request: SyncRequest, i: nat) returns (fault: Option<Reason>)
    requires i < |request.uploads|
    ensures Verdict(cfg, h, rows, request, i, TotalMet(cfg, h, rows, request, i), fault)
    ensures var u, server, client := request.uploads[i], ManifestOf(rows), ClientView(request);
      var t := TriageAll(cfg, h, server, client, Total(rows), request.uploads[..i]);
      var t' := TriageAll(cfg, h, server, client, Total(rows), request.uploads[..i + 1]);
      && t'.errors == t.errors + (if fault.Some? then [SyncError(u.key, fault.value)] else [])
      && t'.accepted == t.accepted + (if fault.None? then [Entry(u.key, u.value, h.checksum(u.value))] else [])
      && t'.running == t.running + Gain(rows, u, fault)
  {
    JudgedExactly(cfg, h, rows, request, i);
    assert request.uploads[..i + 1][..i] == request.uploads[..i];
    var verdict := VerdictOf(cfg, h, rows, request, i);
    fault := if verdict.Err? then Some(verdict.error) else None;
  }

  lemma OneMoreListed(h: Hashing, uploads: seq<Upload>, faults: seq<Option<Reason>>, fault: Option<Reason>)
    requires |faults| < |uploads|
    ensures var u := uploads[|faults|];
      && Refusals(uploads, faults + [fault])
         == Refusals(uploads, faults) + (if fault.Some? then [SyncError(u.key, fault.value)] else [])
      && Admitted(h, uploads, faults + [fault])
         == Admitted(h, uploads, faults) + (if fault.None? then [Entry(u.key, u.value, h.checksum(u.value))] else [])
  {
    assert (faults + [fault])[..|faults|] == faults;
  }

  lemma FollowOn(cfg: Config, h: Hashing, rows: Table, request: SyncRequest, faults: seq<Option<Reason>>,
                 totals: seq<int>)
    returns (faults': seq<Option<Reason>>, totals': seq<int>)
    requires |faults| < |request.uploads| && Followed(cfg, h, rows, request, faults, totals)
    ensures |faults'| == |faults| + 1 && Followed(cfg, h, rows, request, faults', totals')
  {
    var i := |faults|;
    var fault := RoundExactly(cfg, h, rows, request, i);
    OneMoreVerdict(cfg, h, rows, request, faults, totals, fault);
    OneMoreListed(h, request.uploads, faults, fault);
    faults', totals' := faults + [fault], totals + [totals[i] + Gain(rows, request.uploads[i], fault)];
  }

  /** The loop accepts and refuses by these verdicts, and its running size is the total that they lead to. */
  lemma TriageExactly(cfg: Config, h: Hashing, rows: Table, request: SyncRequest)
    returns (faults: seq<Option<Reason>>, totals: seq<int>)
    ensures Verdicts(cfg, h, rows, request, faults, totals) && |faults| == |request.uploads|
    ensures var t := TriageOf(cfg, h, rows, request);
      && t.errors == Refusals(request.uploads, faults)
      && t.accepted == Admitted(h, request.uploads, faults)
      && t.running == totals[|faults|]
  {
    faults, totals := [], [Total(rows)];
    while |faults| < |request.uploads|
      invariant Followed(cfg, h, rows, request, faults, totals)
      decreases |request.uploads| - |faults|
    {
      faults, totals := FollowOn(cfg, h, rows, request, faults, totals);
    }
    assert request.uploads[..|faults|] == request.uploads;
  }

  /** Upload `i` is without fault, and this is its entry. */
  predicate AdmittedAs(h: Hashing, uploads: seq<Upload>, faults: seq<Option<Reason>>, i: nat, e: Entry)
    requires i < |faults| <= |uploads|
  {
    faults[i].None? && e == Entry(uploads[i].key, uploads[i].value, h.checksum(uploads[i].value))
  }

  lemma {:induction false} AdmittedExactly(h: Hashing, uploads: seq<Upload>, faults: seq<Option<Reason>>, e: Entry)
    requires |faults| <= |uploads|
    ensures e in Admitted(h, uploads, faults) <==> exists i :: 0 <= i < |faults| && AdmittedAs(h, uploads, faults, i, e)
  {
    if faults != [] {
      var n := |faults| - 1;
      AdmittedExactly(h, uploads, faults[..n], e);
      assert forall i :: 0 <= i < n ==>
        (AdmittedAs(h, uploads, faults[..n], i, e) <==> AdmittedAs(h, uploads, faults, i, e));
      assert AdmittedAs(h, uploads, faults, n, e) <==>
        faults[n].None? && e == Entry(uploads[n].key, uploads[n].value, h.checksum(uploads[n].value));
    }
  }

  predicate RefusedThen(refusals: seq<SyncError>, errors: seq<SyncError>) {
    refusals <= errors && forall i :: |refusals| <= i < |errors| ==> errors[i].reason.SaveFailed?
  }

  predicate SomeAdmitted(uploads: seq<Upload>, faults: seq<Option<Reason>>, key: string)
    requires |faults| <= |uploads|
  {
    exists i :: 0 <= i < |faults| && faults[i].None? && uploads[i].key == key
  }

  /**
   There is one verdict on every upload. The errors about uploads are the refusals that the verdicts call for, and
   failures to save behind them; the results are of uploads without fault.
   */
  ghost predicate UploadsJudged(cfg: Config, h: Hashing, rows: Table, request: SyncRequest, uploaded: seq<UploadResult>,
                                errors: seq<SyncError>) {
    exists faults, totals ::
      && Verdicts(cfg, h, rows, request, faults, totals) && |faults| == |request.uploads|
      && RefusedThen(Refusals(request.uploads, faults), UploadErrors(errors))
      && forall j :: 0 <= j < |uploaded| ==> SomeAdmitted(request.uploads, faults, uploaded[j].key)
  }

  lemma JudgedAnswer(cfg: Config, z: Zstd, h: Hashing, rows: Table, request: SyncRequest, base: Table, log: seq<Event>,
                     uploaded: seq<UploadResult>, errors: seq<SyncError>)
    requires Explained(TriageOf(cfg, h, rows, request), errors)
    requires ResultsTrue(cfg, z, base, log, TriageOf(cfg, h, rows, request).accepted, uploaded)
    ensures UploadsJudged(cfg, h, rows, request, uploaded, errors)
  {
    var faults, totals := TriageExactly(cfg, h, rows, request);
    var accepted := TriageOf(cfg, h, rows, request).accepted;
    forall j | 0 <= j < |uploaded|
      ensures SomeAdmitted(request.uploads, faults, uploaded[j].key)
    {
      assert OfAccepted(cfg, z, base, log, accepted, uploaded[j]);
      var i :| 0 <= i < |accepted| && TrueResult(cfg, z, base, log, accepted[i], uploaded[j]);
      AdmittedExactly(h, request.uploads, faults, accepted[i]);
    }
    assert RefusedThen(Refusals(request.uploads, faults), UploadErrors(errors));
  }

  // What a later get finds

  /** Whoever gets the key finds the value, or keeps its copy when it names the checksum. */
  ghost predicate Serves(z: Zstd, rows: Table, key: string, value: Bytes, checksum: string, version: nat) {
    && key in rows && Decoded(z, rows[key].value) == value
    && rows[key].version == version && rows[key].checksum == checksum && rows[key].size == |value|
    && forall header: Header :: Answer(z, rows, key, header)
         == if header == Text(checksum) then NotModified(checksum, version) else Found(value, checksum, version)
  }

  lemma HeldServes(cfg: Config, z: Zstd, base: Table, h: seq<Event>, e: Entry, version: nat, at: nat)
    requires Sound(z) && z.ready
    requires at < |h| && HeldAt(cfg, z, base, h, e, version, at)
    ensures var rows := Replay(base, h[..at + 1]);
      && (|e.value| <= 10_485_760 && !StoredLookalike(z, e.value) ==>
           Serves(z, rows, e.key, e.value, e.checksum, version))
      && (Monotone(z) ==>
           (Serves(z, rows, e.key, e.value, e.checksum, version)
            <==> !Ambiguous(z, e.value) && !Overlong(z, cfg.compressionEnabled, e.value)))
  {
    RoundTrip(z, cfg.compressionEnabled, e.value);
  }

  /** Until the key is touched again, whatever else happens. */
  lemma ServesOn(z: Zstd, base: Table, h: seq<Event>, at: nat, n: nat, key: string, value: Bytes, checksum: string,
                 version: nat)
    requires at <= n <= |h| && Unchanged(h, key, at, n)
    requires Serves(z, Replay(base, h[..at]), key, value, checksum, version)
    ensures Serves(z, Replay(base, h[..n]), key, value, checksum, version)
  {
    Untouched(base, h, key, at, n);
    var before, after := Replay(base, h[..at]), Replay(base, h[..n]);
    assert Lookup(after, key) == Lookup(before, key);
    forall header: Header
      ensures Answer(z, after, key, header) == Answer(z, before, key, header)
    {
    }
  }

  /**
   An accepted upload reads back: from the write that its result reports, and for as long as nothing touches the key,
   a get finds the uploaded bytes at the reported version.
   */
  lemma UploadReadsBack(cfg: Config, z: Zstd, base: Table, h: seq<Event>, later: seq<Event>, e: Entry, u: UploadResult)
    returns (at: nat)
    requires Sound(z) && z.ready && |e.value| <= 10_485_760 && !StoredLookalike(z, e.value)
    requires TrueResult(cfg, z, base, h, e, u) && h <= later
    ensures u.key == e.key && at < |h|
    ensures forall n :: at < n <= |later| && Unchanged(later, e.key, at + 1, n) ==>
      Serves(z, Replay(base, later[..n]), e.key, e.value, e.checksum, u.version)
  {
    at :| at < |h| && HeldAt(cfg, z, base, h, e, u.version, at);
    HeldServes(cfg, z, base, h, e, u.version, at);
    assert later[..at + 1] == h[..at + 1];
    forall n | at < n <= |later| && Unchanged(later, e.key, at + 1, n)
      ensures Serves(z, Replay(base, later[..n]), e.key, e.value, e.checksum, u.version)
    {
      ServesOn(z, base, later, at + 1, n, e.key, e.value, e.checksum, u.version);
    }
  }

  /** At point `at` the table had this upload under the reported version, for every get to find. */
  ghost predicate WasServed(z: Zstd, h: Hashing, base: Table, log: seq<Event>, up: Upload, u: UploadResult, at: nat)
    requires at < |log|
  {
    && u.key == up.key && u.checksum == h.checksum(up.value)
    && (|up.value| <= 10_485_760 && !StoredLookalike(z, up.value) ==>
          Serves(z, Replay(base, log[..at + 1]), up.key, up.value, u.checksum, u.version))
  }

  ghost predicate ResultServed(z: Zstd, h: Hashing, base: Table, log: seq<Event>, request: SyncRequest, u: UploadResult) {
    exists i, at :: 0 <= i < |request.uploads| && 0 <= at < |log|
      && WasServed(z, h, base, log, request.uploads[i], u, at)
  }

  /** Every result is of an upload that the table had, and `ServesOn` tells for how long. */
  ghost predicate ResultsServed(z: Zstd, h: Hashing, base: Table, log: seq<Event>, request: SyncRequest,
                                uploaded: seq<UploadResult>) {
    forall j :: 0 <= j < |uploaded| ==> ResultServed(z, h, base, log, request, uploaded[j])
  }

  lemma TrueAreServed(cfg: Config, z: Zstd, h: Hashing, rows: Table, request: SyncRequest, base: Table, log: seq<Event>,
                      uploaded: seq<UploadResult>)
    requires Sound(z) && z.ready
    requires ResultsTrue(cfg, z, base, log, TriageOf(cfg, h, rows, request).accepted, uploaded)
    ensures ResultsServed(z, h, base, log, request, uploaded)
  {
    var faults, totals := TriageExactly(cfg, h, rows, request);
    var accepted := TriageOf(cfg, h, rows, request).accepted;
    forall j | 0 <= j < |uploaded|
      ensures ResultServed(z, h, base, log, request, uploaded[j])
    {
      var u := uploaded[j];
      assert OfAccepted(cfg, z, base, log, accepted, u);
      var k :| 0 <= k < |accepted| && TrueResult(cfg, z, base, log, accepted[k], u);
      AdmittedExactly(h, request.uploads, faults, accepted[k]);
      var i :| 0 <= i < |faults| && AdmittedAs(h, request.uploads, faults, i, accepted[k]);
      var at: nat :| at < |log| && HeldAt(cfg, z, base, log, accepted[k], u.version, at);
      HeldServes(cfg, z, base, log, accepted[k], u.version, at);
      assert WasServed(z, h, base, log, request.uploads[i], u, at);
    }
  }
}
