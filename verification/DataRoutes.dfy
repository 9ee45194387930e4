/** The routes for single keys: put, get and delete over the store and the codec. */
module DataRoutes {
  import opened Wrappers
  import opened Records
  import opened Configuration
  import opened Environment
  import opened Codec
  import opened KeyNames
  import opened StoreProtocol
  import opened Database
  import opened SyncTriage

  /** The `X-Checksum` header; its bytes may not be text. */
  datatype Header = Absent | Text(text: string) | NotText

  datatype PutRequest = PutRequest(key: string, octetStream: bool, body: Bytes, checksum: Header)

  datatype Refusal =
    | InvalidKey(error: KeyValidationError)
    | DatastoreOff
    | NotOctetStream
    | BodyTooLarge
    | WrongChecksum
    | MalformedChecksum

  datatype PutResponse =
    | PutRefused(why: Refusal)
    | Stored(version: nat, checksum: string, updatedAt: int)
    | OverQuota
    | PutFailed

  datatype GetResponse =
    | GetRefused(why: Refusal)
    | NotModified(checksum: string, version: nat)
    | NotFound
    | Found(value: Bytes, checksum: string, version: nat)
    | GetFailed

  datatype DeleteResponse = DeleteRefused(why: Refusal) | Deleted | DeleteFailed

  /** What a body becomes in the store. */
  function PayloadFor(cfg: Config, z: Zstd, body: Bytes, checksum: string): Payload {
    Payload(Compress(z, cfg.compressionEnabled, body), checksum, |body|)
  }

  /** What is wrong with a request. */
  predicate Wrong(cfg: Config, h: Hashing, r: PutRequest, why: Refusal) {
    match why
    case InvalidKey(e) => ValidateKey(r.key) == Err(e)
    case DatastoreOff => "dataStore/" <= r.key && !cfg.datastoreEnabled
    case NotOctetStream => !r.octetStream
    case BodyTooLarge => |r.body| > if "dataStore/" <= r.key then cfg.maxDatastoreKeySize else cfg.maxKeySize
    case WrongChecksum => r.checksum.Text? && r.checksum.text != h.checksum(r.body)
    case MalformedChecksum => r.checksum.NotText?
  }

  /** The order of the checks; a header has one of the last two faults at most. */
  function Rank(why: Refusal): nat {
    match why
    case InvalidKey(_) => 0
    case DatastoreOff => 1
    case NotOctetStream => 2
    case BodyTooLarge => 3
    case WrongChecksum => 4
    case MalformedChecksum => 4
  }

  ghost predicate Admissible(cfg: Config, h: Hashing, r: PutRequest) {
    forall why: Refusal :: !Wrong(cfg, h, r, why)
  }

  /** The refusal names the first thing that is wrong. */
  ghost predicate FirstWrong(cfg: Config, h: Hashing, r: PutRequest, why: Refusal) {
    Wrong(cfg, h, r, why) && forall other: Refusal :: Wrong(cfg, h, r, other) ==> Rank(why) <= Rank(other)
  }

  /** `save_data_key_with_quota_check`: its own checks, then the quota-checked loop. */
  method SaveDataKeyWithQuotaCheck(db: DatabaseService, w: Setting, cfg: Config, z: Zstd, lane: nat, key: string,
                                   value: Bytes, checksum: string, maxTotal: int)
    returns (result: Option<Outcome>)
    requires db.Valid() && lane < |db.state.slots| && db.state.slots[lane].Idle?
    modifies db
    ensures db.Valid() && db.base == old(db.base) && old(db.trace) <= db.trace
    ensures result.None? <==>
      || ValidateKey(key).Err? || |value| > 0x7FFF_FFFF
      || |value| > if "dataStore/" <= key then cfg.maxDatastoreKeySize else cfg.maxKeySize
    ensures result.None? ==> db.state == old(db.state)
    ensures result.Some? && result.value.DbError? ==> w.faulty
    ensures result.Some? && result.value.Saved? ==>
      OnRecord(db.base, db.state.history, key, PayloadFor(cfg, z, value, checksum), result.value)
    ensures result.Some? && w == UNDISTURBED ==>
      if Total(old(db.state.rows)) - SizeOf(old(db.state.rows), key) + |value| <= maxTotal
      then WroteOnce(old(db.state.rows), db.state.rows, key, PayloadFor(cfg, z, value, checksum), result.value)
      else result.value == OverLimit && db.state.rows == old(db.state.rows)
  {
    if ValidateKey(key).Err? || |value| > MaxSizeForKey(cfg, key) || |value| > I32_MAX {
      return None;
    }
    var outcome := db.SaveWithQuota(w, lane, key, PayloadFor(cfg, z, value, checksum), maxTotal);
    return Some(outcome);
  }

  /** `put_data`. */
  method PutData(db: DatabaseService, w: Setting, cfg: Config, z: Zstd, h: Hashing, lane: nat, r: PutRequest)
    returns (response: PutResponse)
    requires db.Valid() && lane < |db.state.slots| && db.state.slots[lane].Idle?
    modifies db
    ensures db.Valid() && db.base == old(db.base) && old(db.trace) <= db.trace
    ensures response.PutRefused? <==> !Admissible(cfg, h, r)
    ensures response.PutRefused? ==> FirstWrong(cfg, h, r, response.why) && db.state == old(db.state)
    ensures response.Stored? ==>
      && response.checksum == h.checksum(r.body)
      && exists at: nat, retries: nat :: OnRecord(db.base, db.state.history, r.key,
        PayloadFor(cfg, z, r.body, response.checksum), Saved(response.version, response.updatedAt, at, retries))
    ensures w == UNDISTURBED && Admissible(cfg, h, r) && |r.body| <= 0x7FFF_FFFF ==>
      if Total(old(db.state.rows)) - SizeOf(old(db.state.rows), r.key) + |r.body| <= cfg.maxBackupSize then
        && response.Stored? && response.version == VersionOf(old(db.state.rows), r.key) + 1
        && db.state.rows == old(db.state.rows)[r.key := Written(Lookup(old(db.state.rows), r.key),
                                                 PayloadFor(cfg, z, r.body, response.checksum), response.updatedAt)]
      else response.OverQuota? && db.state.rows == old(db.state.rows)
  {
    match ValidateKey(r.key) {
      case Err(e) =>
        assert Wrong(cfg, h, r, InvalidKey(e));
        return PutRefused(InvalidKey(e));
      case Ok(_) =>
    }
    if Blocked(cfg, r.key) {
      assert Wrong(cfg, h, r, DatastoreOff);
      return PutRefused(DatastoreOff);
    }
    if !r.octetStream {
      assert Wrong(cfg, h, r, NotOctetStream);
      return PutRefused(NotOctetStream);
    }
    if |r.body| > MaxSizeForKey(cfg, r.key) {
      assert Wrong(cfg, h, r, BodyTooLarge);
      return PutRefused(BodyTooLarge);
    }
    var computed := h.checksum(r.body);
    match r.checksum {
      case Absent =>
      case NotText =>
        assert Wrong(cfg, h, r, MalformedChecksum);
        return PutRefused(MalformedChecksum);
      case Text(provided) =>
        if provided != computed {
          assert Wrong(cfg, h, r, WrongChecksum);
          return PutRefused(WrongChecksum);
        }
    }
    var result := SaveDataKeyWithQuotaCheck(db, w, cfg, z, lane, r.key, r.body, computed, cfg.maxBackupSize);
    match result {
      case None => return PutFailed;
      case Some(outcome) =>
        if outcome.Saved? {
          return Stored(outcome.version, computed, outcome.updatedAt);
        }
        return if outcome.OverLimit? then OverQuota else PutFailed;
    }
  }

  /** What a reader is owed, given a table. */
  function Answer(z: Zstd, rows: Table, key: string, ifNoneMatch: Header): GetResponse {
    if key !in rows then NotFound
    else if ifNoneMatch == Text(rows[key].checksum) then NotModified(rows[key].checksum, rows[key].version)
    else Found(Decoded(z, rows[key].value), rows[key].checksum, rows[key].version)
  }

  /** Only the stored checksum saves a client the value: under any other condition it gets the bytes. */
  lemma AnswerExactly(z: Zstd, rows: Table, key: string, ifNoneMatch: Header)
    ensures key !in rows ==> Answer(z, rows, key, ifNoneMatch) == NotFound
    ensures key in rows ==> var row := rows[key];
      Answer(z, rows, key, ifNoneMatch)
      == if ifNoneMatch.Text? && ifNoneMatch.text == row.checksum then NotModified(row.checksum, row.version)
         else Found(Decoded(z, row.value), row.checksum, row.version)
  {
  }

  /** `get_data`: a conditional request is answered from the metadata alone when the checksum still matches. */
  method GetData(db: DatabaseService, w: Setting, cfg: Config, z: Zstd, key: string, ifNoneMatch: Header)
    returns (response: GetResponse)
    requires db.Valid()
    modifies db
    ensures db.Valid() && db.base == old(db.base) && old(db.trace) <= db.trace
    ensures !w.shared ==> db.state == old(db.state)
    ensures response.GetRefused? <==> ValidateKey(key).Err? || ("dataStore/" <= key && !cfg.datastoreEnabled)
    ensures response.GetFailed? ==> w.faulty
    ensures !response.GetRefused? && !response.GetFailed? ==>
      || response == Answer(z, db.state.rows, key, ifNoneMatch)
      || (w.shared && response == Answer(z, db.state.rows, key, Absent))
  {
    match ValidateKey(key) {
      case Err(e) => return GetRefused(InvalidKey(e));
      case Ok(_) =>
    }
    if Blocked(cfg, key) {
      return GetRefused(DatastoreOff);
    }
    var down: bool := *;
    if down && w.faulty {
      return GetFailed;
    }
    if !ifNoneMatch.Absent? {
      if key !in db.state.rows {
        return NotFound;
      }
      var row := db.state.rows[key];
      if ifNoneMatch == Text(row.checksum) {
        return NotModified(row.checksum, row.version);
      }
      db.Others(w, 0, 0);
      down := *;
      if down && w.faulty {
        return GetFailed;
      }
    }
    var found := db.GetDataKey(z, key);
    match found {
      case None => return NotFound;
      case Some(entry) => return Found(entry.value, entry.checksum, entry.version);
    }
  }

  /** `delete_data`. */
  method DeleteData(db: DatabaseService, w: Setting, cfg: Config, key: string) returns (response: DeleteResponse)
    requires db.Valid()
    modifies db
    ensures db.Valid() && db.base == old(db.base) && old(db.trace) <= db.trace
    ensures response.DeleteRefused? <==> ValidateKey(key).Err? || ("dataStore/" <= key && !cfg.datastoreEnabled)
    ensures response.DeleteFailed? ==> w.faulty
    ensures response.DeleteRefused? ==> db.state.rows == old(db.state.rows)
    ensures response.Deleted? ==> db.state.rows == old(db.state.rows) - {key}
    ensures response.DeleteFailed? ==> db.state.rows == old(db.state.rows) || db.state.rows == old(db.state.rows) - {key}
  {
    match ValidateKey(key) {
      case Err(e) => return DeleteRefused(InvalidKey(e));
      case Ok(_) =>
    }
    if Blocked(cfg, key) {
      return DeleteRefused(DatastoreOff);
    }
    var down: bool := *;
    var reached: bool := *;
    if reached || !w.faulty {
      db.Atomic(RemoveKey(key));
    }
    return if w.faulty && (down || !reached) then DeleteFailed else Deleted;
  }

  // What a put promises to later gets

  /**
   A saved body reads back: as long as nothing touches the key after the write, whatever else runs, a reader
   finds the caller's bytes and checksum at the returned version. The exceptions are the codec's: the ambiguous case,
   which only a stored lookalike of a frame can be, and an encoded body beyond the decompression cap.
   */
  lemma PutReadsBack(base: Table, h: seq<Event>, cfg: Config, z: Zstd, key: string, body: Bytes, checksum: string,
                     result: Outcome, n: nat)
    requires Sound(z) && z.ready
    requires result.Saved? && OnRecord(base, h, key, PayloadFor(cfg, z, body, checksum), result)
    requires result.at < n <= |h| && forall i :: result.at + 1 <= i < n ==> !Touches(h[i], key)
    ensures var rows := Replay(base, h[..n]);
      && Answer(z, rows, key, Text(checksum)) == NotModified(checksum, result.version)
      && forall other: Header :: other != Text(checksum) ==>
        && (|body| <= 10_485_760 && !StoredLookalike(z, body) ==>
             Answer(z, rows, key, other) == Found(body, checksum, result.version))
        && (Monotone(z) ==>
             (Answer(z, rows, key, other) == Found(body, checksum, result.version)
              <==> !Ambiguous(z, body) && !Overlong(z, cfg.compressionEnabled, body)))
  {
    Untouched(base, h, key, result.at + 1, n);
    RoundTrip(z, cfg.compressionEnabled, body);
  }

  /** After a delete nothing is found until the next put, and that put starts again at version 1. */
  lemma DeleteStartsOver(base: Table, h: seq<Event>, z: Zstd, key: string, ifNoneMatch: Header, d: nat, n: nat)
    requires d < n <= |h| && Deletes(h[d], key) && forall i :: d + 1 <= i < n ==> !Touches(h[i], key)
    ensures Answer(z, Replay(base, h[..n]), key, ifNoneMatch) == NotFound
    ensures forall p: Payload, now: int :: Written(Lookup(Replay(base, h[..n]), key), p, now).version == 1
  {
    Untouched(base, h, key, d + 1, n);
    assert h[..d + 1][..d] == h[..d];
  }
}
