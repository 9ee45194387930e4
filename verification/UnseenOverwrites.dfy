/**
 What the check of a sync is worth in any run: other syncs and saves in between, deletes, lost replies.

 A client recorded a row as the table had it at one point of the history. Later an upload is checked against the
 table, and still later it is written. The check finds every change before it except behind a delete, and no
 change after it.
 */
module UnseenOverwrites {
  import opened Wrappers
  import opened Records
  import opened Configuration
  import opened Codec
  import opened Manifest
  import opened StoreProtocol
  import opened StoreHistory
  import opened StoreTheorems
  import opened Batch
  import opened SyncTriage
  import opened SyncSpec

  /** Nothing happens to the key between these points of the history. */
  predicate Unchanged(h: seq<Event>, key: string, lo: nat, hi: nat) {
    hi <= |h| && forall q :: lo <= q < hi ==> !Touches(h[q], key)
  }

  lemma {:induction false} CountTellsChanges(h: seq<Event>, key: string, lo: nat, hi: nat)
    requires lo <= hi && OneEpoch(h, key, lo, hi)
    ensures CountWrites(h, key, lo, hi) == 0 <==> Unchanged(h, key, lo, hi)
    decreases hi
  {
    if lo < hi {
      CountTellsChanges(h, key, lo, hi - 1);
    }
  }

  /**
   Within an epoch a write gets the next version after the one that its upload was checked against exactly when
   nothing happened to the key between check and write.
   */
  lemma VersionTellsChanges(base: Table, lanes: nat, acts: seq<Action>, key: string, a: nat, p: nat)
    requires var h := Run(Start(base, lanes), acts).history;
      a <= p < |h| && OneEpoch(h, key, a, p) && h[p].Wrote? && h[p].key == key
    ensures var h := Run(Start(base, lanes), acts).history;
      && (h[p].row.version == VersionOf(Replay(base, h[..a]), key) + 1 <==> Unchanged(h, key, a, p))
      && (Unchanged(h, key, a, p) ==> Lookup(Replay(base, h[..p]), key) == Lookup(Replay(base, h[..a]), key))
  {
    var h := Run(Start(base, lanes), acts).history;
    VersionsAreConsecutive(base, lanes, acts, key, a, p);
    CountTellsChanges(h, key, a, p);
    if Unchanged(h, key, a, p) {
      Untouched(base, h, key, a, p);
    }
  }

  /** From an empty start, any touch in an epoch leaves a row. */
  lemma {:induction false} TouchLeavesRow(base: Table, h: seq<Event>, key: string, lo: nat, n: nat)
    requires lo <= n && OneEpoch(h, key, lo, n) && key !in Replay(base, h[..lo])
    ensures key !in Replay(base, h[..n]) <==> Unchanged(h, key, lo, n)
    decreases n
  {
    if lo < n {
      TouchLeavesRow(base, h, key, lo, n - 1);
      assert h[..n][..n - 1] == h[..n - 1];
    }
  }

  /** A version tells, in an epoch, whether anything happened since it was read. */
  lemma ReadStillHolds(base: Table, h: seq<Event>, calls: seq<Call>, key: string, at: nat)
    requires HistoryOk(base, h, calls) && at <= |h| && OneEpoch(h, key, at, |h|)
    ensures CasApplies(Replay(base, h), key, View(Replay(base, h[..at]), key)) <==> Unchanged(h, key, at, |h|)
  {
    assert h[..|h|] == h;
    if key in Replay(base, h[..at]) {
      VersionCountsWrites(base, h, calls, key, at, |h|);
      CountTellsChanges(h, key, at, |h|);
      StaysInEpoch(base, h, key, at, |h|);
    } else {
      TouchLeavesRow(base, h, key, at, |h|);
    }
  }

  /** What a slot has read is what the table had then. */
  lemma SlotReads(base: Table, s: State, i: nat)
    requires Inv(base, s) && MayWrite(s, i)
    ensures s.rows == Replay(base, s.history) && HistoryOk(base, s.history, s.calls)
    ensures var reading := s.slots[i].seen.value;
      && reading.at <= |s.history|
      && reading.view == View(Replay(base, s.history[..reading.at]), s.slots[i].call.key)
  {
    assert SlotOk(base, s.history, s.calls, s.slots[i]);
  }

  /** The write takes effect, with the payload at the next version and the creation time of the row that it replaces. */
  predicate TakesEffect(s: State, t: State, call: Call, now: int) {
    var p, prior := call.payload, Lookup(s.rows, call.key);
    var row := Row(p.value, VersionOf(s.rows, call.key) + 1, p.checksum, p.size,
                   if prior.Some? then prior.value.createdAt else now, now);
    t.rows == s.rows[call.key := row] && t.history == s.history + [Wrote(call.id, call.key, row)]
  }

  lemma CasOnBoth(s: State, i: nat, now: int, reply: Reply)
    requires MayWrite(s, i)
    ensures var call, t := s.slots[i].call, Step(s, Cas(i, now, reply));
      if CasApplies(s.rows, call.key, s.slots[i].seen.value.view) then TakesEffect(s, t, call, now)
      else t.rows == s.rows && t.history == s.history
  {
  }

  /**
   No lost updates: while the key is not deleted, a conditional write takes effect exactly when nothing happened to
   the key since its version was read, and otherwise leaves the table alone.
   */
  lemma CasAppliesExactly(base: Table, lanes: nat, acts: seq<Action>, i: nat, now: int, reply: Reply)
    requires MayWrite(Run(Start(base, lanes), acts), i)
    requires var s := Run(Start(base, lanes), acts);
      OneEpoch(s.history, s.slots[i].call.key, s.slots[i].seen.value.at, |s.history|)
    ensures var s := Run(Start(base, lanes), acts);
      var slot, t := s.slots[i], Step(s, Cas(i, now, reply));
      if Unchanged(s.history, slot.call.key, slot.seen.value.at, |s.history|) then TakesEffect(s, t, slot.call, now)
      else t.rows == s.rows && t.history == s.history
  {
    var s := Run(Start(base, lanes), acts);
    InvRun(base, lanes, acts);
    SlotReads(base, s, i);
    CasOnBoth(s, i, now, reply);
    ReadStillHolds(base, s.history, s.calls, s.slots[i].call.key, s.slots[i].seen.value.at);
  }

  /** The client holds what the table had for the key at point `b`. */
  predicate HoldsFrom(client: map<string, Held>, base: Table, h: seq<Event>, key: string, b: nat) {
    && b <= |h| && key in client && key in Replay(base, h[..b])
    && client[key] == Held(Replay(base, h[..b])[key].version, Replay(base, h[..b])[key].checksum)
  }

  /** Within an epoch no client is ever ahead, and an equal version means the same row. */
  lemma NeverAhead(base: Table, lanes: nat, acts: seq<Action>, client: map<string, Held>, key: string, b: nat, n: nat)
    requires var h := Run(Start(base, lanes), acts).history;
      b <= n && OneEpoch(h, key, b, n) && HoldsFrom(client, base, h, key, b)
    ensures var h := Run(Start(base, lanes), acts).history;
      var rows := Replay(base, h[..n]);
      && key in rows && client[key].version <= rows[key].version
      && (client[key].version == rows[key].version <==> Unchanged(h, key, b, n))
      && (Unchanged(h, key, b, n) ==> rows[key] == Replay(base, h[..b])[key])
  {
    var s := Run(Start(base, lanes), acts);
    InvRun(base, lanes, acts);
    VersionCountsWrites(base, s.history, s.calls, key, b, n);
    CountTellsChanges(s.history, key, b, n);
    StaysInEpoch(base, s.history, key, b, n);
    if Unchanged(s.history, key, b, n) {
      Untouched(base, s.history, key, b, n);
    }
  }

  lemma {:induction false} StaysInEpoch(base: Table, h: seq<Event>, key: string, b: nat, n: nat)
    requires b <= n && OneEpoch(h, key, b, n) && key in Replay(base, h[..b])
    ensures key in Replay(base, h[..n])
    decreases n
  {
    if b < n {
      StaysInEpoch(base, h, key, b, n - 1);
      assert h[..n][..n - 1] == h[..n - 1];
    }
  }

  /** The check sees every change since the client's record, unless the key was deleted in between. */
  lemma CheckSeesChanges(base: Table, lanes: nat, acts: seq<Action>, client: map<string, Held>, key: string, b: nat, a: nat)
    requires var h := Run(Start(base, lanes), acts).history;
      && b <= a <= |h| && HoldsFrom(client, base, h, key, b)
      && !Dominated(ManifestOf(Replay(base, h[..a])), client, key)
    ensures var h := Run(Start(base, lanes), acts).history;
      Unchanged(h, key, b, a) <==> OneEpoch(h, key, b, a)
  {
    if OneEpoch(Run(Start(base, lanes), acts).history, key, b, a) {
      NeverAhead(base, lanes, acts, client, key, b, a);
    }
  }

  /**
   An upload that passed the check at point `a` and is written at point `p` overwrites exactly the row that its
   client holds from point `b`, if and only if the key was not deleted between record and check and not changed
   between check and write. In an epoch the returned version tells: it is the held one plus one.
   */
  lemma OverwritesSeenExactly(base: Table, lanes: nat, acts: seq<Action>, client: map<string, Held>, key: string,
                              b: nat, a: nat, p: nat)
    requires var h := Run(Start(base, lanes), acts).history;
      && b <= a <= p < |h| && h[p].Wrote? && h[p].key == key
      && HoldsFrom(client, base, h, key, b)
      && !Dominated(ManifestOf(Replay(base, h[..a])), client, key)
    ensures var h := Run(Start(base, lanes), acts).history;
      && (Unchanged(h, key, b, p) <==> OneEpoch(h, key, b, a) && Unchanged(h, key, a, p))
      && (Unchanged(h, key, b, p) ==> Lookup(Replay(base, h[..p]), key) == Lookup(Replay(base, h[..b]), key))
      && (OneEpoch(h, key, b, p) ==>
           && (h[p].row.version == client[key].version + 1 <==> Unchanged(h, key, b, p))
           && (HoldsFrom(client, base, h, key, p) <==> Unchanged(h, key, b, p)))
  {
    var h := Run(Start(base, lanes), acts).history;
    CheckSeesChanges(base, lanes, acts, client, key, b, a);
    if OneEpoch(h, key, b, p) {
      NeverAhead(base, lanes, acts, client, key, b, p);
      VersionTellsChanges(base, lanes, acts, key, b, p);
    }
    if Unchanged(h, key, b, p) {
      Untouched(base, h, key, b, p);
    }
  }

  // Both conditions are needed

  /** What an accepted upload asks the store to write. */
  function SaveFor(cfg: Config, z: Zstd, h: Hashing, id: nat, u: Upload): Call {
    Call(id, u.key, Payload(Compress(z, cfg.compressionEnabled, u.value), h.checksum(u.value), |u.value|), None)
  }

  predicate Holds(request: SyncRequest, key: string, row: Row) {
    ClientMap(request.clientManifest) == map[key := Held(row.version, row.checksum)]
  }

  ghost predicate Accepts(cfg: Config, h: Hashing, rows: Table, request: SyncRequest, u: Upload) {
    TriageOf(cfg, h, rows, request).accepted == [Entry(u.key, u.value, h.checksum(u.value))]
  }

  function SaveSteps(lane: nat, call: Call, now: int): seq<Action> {
    [Begin(lane, call), ReadRow(lane), Cas(lane, now, Faithful)]
  }

  lemma RunSave(s: State, acts: seq<Action>, lane: nat, call: Call, now: int)
    requires var t := Run(s, acts);
      lane < |t.slots| && t.slots[lane].Idle? && call.id == |t.calls| && call.limit.None?
    ensures var t := Run(s, acts);
      var row := Written(Lookup(t.rows, call.key), call.payload, now);
      Run(s, acts + SaveSteps(lane, call, now))
      == State(t.rows[call.key := row], t.slots, t.history + [Wrote(call.id, call.key, row)], t.calls + [call],
               t.outcomes[call.id := Saved(row.version, now, |t.history|, 0)])
  {
    ThreeMore(s, acts, Begin(lane, call), ReadRow(lane), Cas(lane, now, Faithful));
    QuickSave(Run(s, acts), lane, call, now);
    assert acts + SaveSteps(lane, call, now) == acts + [Begin(lane, call)] + [ReadRow(lane)] + [Cas(lane, now, Faithful)];
  }

  lemma DeleteAndTwoSaves(key: string, row: Row, c: Call, d: Call, now: int)
    requires c.key == d.key == key && c.id == 0 && d.id == 1 && c.limit == d.limit == None
    ensures var base: Table, hidden := map[key := row], Written(None, c.payload, now);
      var h := Run(Start(base, 1), [RemoveKey(key)] + SaveSteps(0, c, now) + SaveSteps(0, d, now)).history;
      && h == [Removed(key), Wrote(0, key, hidden), Wrote(1, key, Written(Some(hidden), d.payload, now))]
      && Replay(base, h[..2]) == map[key := hidden]
  {
    var base: Table, hidden := map[key := row], Written(None, c.payload, now);
    var s0 := Start(base, 1);
    assert base - {key} == map[];
    assert Run(s0, [RemoveKey(key)]) == State(map[], [Idle], [Removed(key)], [], map[]) by {
      RunSnoc(s0, [], RemoveKey(key));
    }
    RunSave(s0, [RemoveKey(key)], 0, c, now);
    RunSave(s0, [RemoveKey(key)] + SaveSteps(0, c, now), 0, d, now);
    ReplayTwo(base, Removed(key), Wrote(0, key, hidden));
    var h := [Removed(key), Wrote(0, key, hidden), Wrote(1, key, Written(Some(hidden), d.payload, now))];
    assert h[..2] == [Removed(key)] + [Wrote(0, key, hidden)];
  }

  lemma TwoSaves(key: string, row: Row, c: Call, d: Call, now: int)
    requires c.key == d.key == key && c.id == 0 && d.id == 1 && c.limit == d.limit == None
    ensures var unseen := Written(Some(row), c.payload, now);
      var s := Run(Start(map[key := row], 2), SaveSteps(0, c, now) + SaveSteps(1, d, now));
      && s.history == [Wrote(0, key, unseen), Wrote(1, key, Written(Some(unseen), d.payload, now))]
      && s.outcomes == map[0 := Saved(row.version + 1, now, 0, 0), 1 := Saved(row.version + 2, now, 1, 0)]
  {
    var s0 := Start(map[key := row], 2);
    assert Run(s0, []) == s0 && [] + SaveSteps(0, c, now) == SaveSteps(0, c, now);
    RunSave(s0, [], 0, c, now);
    RunSave(s0, SaveSteps(0, c, now), 1, d, now);
  }

  /** Behind a delete: a sync of a client from before accepts an upload that overwrites a row it has never seen. */
  lemma DeleteHidesRow(cfg: Config, z: Zstd, hs: Hashing, row: Row, other: Payload, request: SyncRequest, now: int)
    requires |request.uploads| == 1 && row.version >= 1
    requires var key := request.uploads[0].key;
      && Holds(request, key, row)
      && SoleUpload(cfg, hs, map[key := Written(None, other, now)], request)
    ensures var u := request.uploads[0];
      var key, base: Table := u.key, map[u.key := row];
      var call, hidden := SaveFor(cfg, z, hs, 1, u), Written(None, other, now);
      var acts := [RemoveKey(key)] + SaveSteps(0, Call(0, key, other, None), now) + SaveSteps(0, call, now);
      var h := Run(Start(base, 1), acts).history;
      && h == [Removed(key), Wrote(0, key, hidden), Wrote(1, key, Written(Some(hidden), call.payload, now))]
      && Accepts(cfg, hs, Replay(base, h[..2]), request, u)
      && HoldsFrom(ClientMap(request.clientManifest), base, h, key, 0) && !Unchanged(h, key, 0, 2)
  {
    var u := request.uploads[0];
    DeleteAndTwoSaves(u.key, row, Call(0, u.key, other, None), SaveFor(cfg, z, hs, 1, u), now);
    SoleUploadAccepted(cfg, hs, map[u.key := Written(None, other, now)], request);
    assert Touches(Removed(u.key), u.key);
  }

  lemma ReplayTwo(base: Table, d: Event, e: Event)
    ensures Replay(base, [d] + [e]) == Effect(Effect(base, d), e)
  {
    ReplaySnoc(base, [], d);
    ReplaySnoc(base, [d], e);
    assert [] + [d] == [d];
  }

  /**
   Between check and write: two syncs accept an upload against one table, and the slower one overwrites the
   faster one's row.
   */
  lemma InterleavedSyncsOverwrite(cfg: Config, z: Zstd, hs: Hashing, row: Row, fast: SyncRequest, slow: SyncRequest,
                                  now: int)
    requires |fast.uploads| == |slow.uploads| == 1 && fast.uploads[0].key == slow.uploads[0].key
    requires var key := slow.uploads[0].key;
      && Holds(fast, key, row) && Holds(slow, key, row)
      && SoleUpload(cfg, hs, map[key := row], fast) && SoleUpload(cfg, hs, map[key := row], slow)
    ensures var key, base: Table := slow.uploads[0].key, map[slow.uploads[0].key := row];
      var c, d := SaveFor(cfg, z, hs, 0, fast.uploads[0]), SaveFor(cfg, z, hs, 1, slow.uploads[0]);
      var s, unseen := Run(Start(base, 2), SaveSteps(0, c, now) + SaveSteps(1, d, now)), Written(Some(row), c.payload, now);
      && Accepts(cfg, hs, base, fast, fast.uploads[0]) && Accepts(cfg, hs, base, slow, slow.uploads[0])
      && s.history == [Wrote(0, key, unseen), Wrote(1, key, Written(Some(unseen), d.payload, now))]
      && s.outcomes == map[0 := Saved(row.version + 1, now, 0, 0), 1 := Saved(row.version + 2, now, 1, 0)]
  {
    var key := slow.uploads[0].key;
    SoleUploadAccepted(cfg, hs, map[key := row], fast);
    SoleUploadAccepted(cfg, hs, map[key := row], slow);
    TwoSaves(key, row, SaveFor(cfg, z, hs, 0, fast.uploads[0]), SaveFor(cfg, z, hs, 1, slow.uploads[0]), now);
  }
}
