/**
 The concurrent batch of plain saves: sixteen tasks at a time, advanced in any order.

 The predicates here say where a batch stands between two atomic steps.
 */
module Batch {
  import opened Wrappers
  import opened Records
  import opened Configuration
  import opened Environment
  import opened Codec
  import opened StoreProtocol

  datatype Entry = Entry(key: string, value: Bytes, checksum: string)

  datatype Prepared = Prepared(key: string, payload: Payload)

  datatype SavedEntry = SavedEntry(key: string, version: nat, updatedAt: int, checksum: string, size: nat)

  predicate Keepable(cfg: Config, e: Entry) {
    |e.value| <= MaxSizeForKey(cfg, e.key) && |e.value| <= I32_MAX
  }

  function PreparedEntry(cfg: Config, z: Zstd, e: Entry): Prepared {
    Prepared(e.key, Payload(Compress(z, cfg.compressionEnabled, e.value), e.checksum, |e.value|))
  }

  /** The batch after its defensive filter. */
  function Prepare(cfg: Config, z: Zstd, entries: seq<Entry>): seq<Prepared> {
    if entries == [] then []
    else
      var n := |entries| - 1;
      Prepare(cfg, z, entries[..n]) + if Keepable(cfg, entries[n]) then [PreparedEntry(cfg, z, entries[n])] else []
  }

  /** The filter drops nothing when the caller checked sizes, and every entry is encoded. */
  lemma {:induction false} PrepareKeepsAll(cfg: Config, z: Zstd, entries: seq<Entry>)
    requires forall i :: 0 <= i < |entries| ==> Keepable(cfg, entries[i])
    ensures |Prepare(cfg, z, entries)| == |entries|
    ensures forall i :: 0 <= i < |entries| ==> var e := entries[i];
      Prepare(cfg, z, entries)[i]
      == Prepared(e.key, Payload(Compress(z, cfg.compressionEnabled, e.value), e.checksum, |e.value|))
  {
    if entries != [] {
      PrepareKeepsAll(cfg, z, entries[..|entries| - 1]);
    }
  }

  /** Encoded from an entry that is within the limit for its key and has a 32-bit length. */
  predicate FromKept(cfg: Config, z: Zstd, entries: seq<Entry>, p: Prepared) {
    exists i :: 0 <= i < |entries| && var e := entries[i];
      && |e.value| <= 0x7FFF_FFFF
      && |e.value| <= (if "dataStore/" <= e.key then cfg.maxDatastoreKeySize else cfg.maxKeySize)
      && p == Prepared(e.key, Payload(Compress(z, cfg.compressionEnabled, e.value), e.checksum, |e.value|))
  }

  /** The batch holds exactly the entries that fit. */
  lemma {:induction false} PreparedExactly(cfg: Config, z: Zstd, entries: seq<Entry>, p: Prepared)
    ensures p in Prepare(cfg, z, entries) <==> FromKept(cfg, z, entries, p)
  {
    if entries != [] {
      var n := |entries| - 1;
      PreparedExactly(cfg, z, entries[..n], p);
      assert forall i :: 0 <= i < n ==> entries[..n][i] == entries[i];
      assert FromKept(cfg, z, entries, p)
        <==> FromKept(cfg, z, entries[..n], p) || (Keepable(cfg, entries[n]) && p == PreparedEntry(cfg, z, entries[n]));
    }
  }

  predicate DistinctKeys(batch: seq<Prepared>) {
    forall i, j :: 0 <= i < j < |batch| ==> batch[i].key != batch[j].key
  }

  predicate Distinct(xs: seq<nat>) {
    forall i, j :: 0 <= i < j < |xs| ==> xs[i] != xs[j]
  }

  predicate Matches(p: Prepared, e: SavedEntry) {
    e.key == p.key && e.checksum == p.payload.checksum && e.size == p.payload.size
  }

  /** `order` lists every index below `n` once. */
  predicate Permutes(order: seq<nat>, n: nat) {
    && Distinct(order)
    && (forall j :: 0 <= j < |order| ==> order[j] < n)
    && (forall i: nat :: i < n ==> i in order)
  }

  /** The lanes in use, what they work on, and what is done. */
  predicate Underway(s: State, batch: seq<Prepared>, started: nat, lanes: map<nat, nat>, order: seq<nat>,
                     saved: seq<SavedEntry>) {
    && started <= |batch|
    && |order| == |saved|
    && Distinct(order)
    && (forall j :: 0 <= j < |order| ==> order[j] < started && Matches(batch[order[j]], saved[j]))
    && (forall l :: l in lanes ==> l < QUERY_CONCURRENCY && lanes[l] < started && lanes[l] !in order)
    && (forall l, m :: l in lanes && m in lanes && l != m ==> lanes[l] != lanes[m])
    && Covered(started, lanes, order)
    && |s.slots| >= QUERY_CONCURRENCY
    && (forall l: nat :: l < QUERY_CONCURRENCY ==> if l in lanes then Working(s, l, batch[lanes[l]]) else s.slots[l].Idle?)
  }

  predicate Working(s: State, lane: nat, p: Prepared)
    requires lane < |s.slots|
  {
    var slot := s.slots[lane];
    && slot.Busy? && slot.call.key == p.key && slot.call.payload == p.payload && slot.call.limit == None
    && |slot.windows| < LWT_MAX_RETRIES
    && slot.call.id < |s.calls| && s.calls[slot.call.id] == slot.call
  }

  /** The row that entry `p` leaves over the old table. */
  function RowFor(rows: Table, p: Prepared, now: int): Row {
    Written(Lookup(rows, p.key), p.payload, now)
  }

  predicate Landed(rows: Table, rows': Table, p: Prepared, e: SavedEntry) {
    && Lookup(rows', p.key) == Some(RowFor(rows, p, e.updatedAt))
    && e.version == VersionOf(rows, p.key) + 1
  }

  predicate FirstTry(slot: Slot, rows: Table, key: string) {
    slot.Busy? && slot.windows == [] && (slot.seen.Some? ==> slot.seen.value.view == View(rows, key))
  }

  /** Nobody else writes: what is done is in the table, nothing else is, and no task had to retry. */
  ghost predicate Alone(s: State, rows: Table, batch: seq<Prepared>, lanes: map<nat, nat>, order: seq<nat>,
                  saved: seq<SavedEntry>)
    requires |order| == |saved|
    requires forall j :: 0 <= j < |order| ==> order[j] < |batch|
    requires forall l :: l in lanes ==> l < |s.slots| && lanes[l] < |batch| && s.slots[l].Busy?
  {
    && (forall k :: (forall j :: 0 <= j < |order| ==> batch[order[j]].key != k) ==> Lookup(s.rows, k) == Lookup(rows, k))
    && (forall j :: 0 <= j < |order| ==> Landed(rows, s.rows, batch[order[j]], saved[j]))
    && (forall l :: l in lanes ==> FirstTry(s.slots[l], rows, batch[lanes[l]].key))
  }

  /** The result of a whole batch: the old table overlaid with the batch, in one write an entry. */
  ghost predicate Overlaid(rows: Table, rows': Table, batch: seq<Prepared>, order: seq<nat>, saved: seq<SavedEntry>) {
    && Permutes(order, |batch|) && |saved| == |order|
    && (forall k :: (forall i :: 0 <= i < |batch| ==> batch[i].key != k) ==> Lookup(rows', k) == Lookup(rows, k))
    && (forall j :: 0 <= j < |order| ==> Landed(rows, rows', batch[order[j]], saved[j]))
  }

  /** After a failure every row is the old one or what one entry of the batch makes of it. */
  ghost predicate PartlyOverlaid(rows: Table, rows': Table, batch: seq<Prepared>) {
    forall k :: Lookup(rows', k) == Lookup(rows, k) || HalfWay(rows, rows', batch, k)
  }

  ghost predicate HalfWay(rows: Table, rows': Table, batch: seq<Prepared>, k: string) {
    exists i, now :: 0 <= i < |batch| && batch[i].key == k && Lookup(rows', k) == Some(RowFor(rows, batch[i], now))
  }

  // Work that is left

  function LaneWork(slot: Slot): nat {
    if slot.Idle? || |slot.windows| >= LWT_MAX_RETRIES then 0
    else 2 * (LWT_MAX_RETRIES - |slot.windows|) - (if slot.seen.Some? then 1 else 0)
  }

  function LanesWork(slots: seq<Slot>, n: nat): nat
    requires n <= |slots|
  {
    if n == 0 then 0 else LanesWork(slots, n - 1) + LaneWork(slots[n - 1])
  }

  lemma {:induction false} LanesWorkUpdate(slots: seq<Slot>, i: nat, x: Slot, n: nat)
    requires i < n <= |slots|
    ensures LanesWork(slots[i := x], n) == LanesWork(slots, n) - LaneWork(slots[i]) + LaneWork(x)
    decreases n
  {
    if i < n - 1 {
      LanesWorkUpdate(slots, i, x, n - 1);
    } else {
      LanesWorkSame(slots, slots[i := x], n - 1);
    }
  }

  lemma {:induction false} LanesWorkSame(a: seq<Slot>, b: seq<Slot>, n: nat)
    requires n <= |a| && n <= |b|
    requires forall l :: 0 <= l < n ==> a[l] == b[l]
    ensures LanesWork(a, n) == LanesWork(b, n)
  {
    if n > 0 {
      LanesWorkSame(a, b, n - 1);
    }
  }

  // The steps of the batch

  /** Steps of others leave the lanes alone. */
  lemma OthersKeepUnderway(s: State, t: State, batch: seq<Prepared>, started: nat, lanes: map<nat, nat>,
                           order: seq<nat>, saved: seq<SavedEntry>)
    requires Underway(s, batch, started, lanes, order, saved)
    requires |t.slots| == |s.slots| && s.calls <= t.calls
    requires forall l: nat :: l < QUERY_CONCURRENCY ==> t.slots[l] == s.slots[l]
    ensures Underway(t, batch, started, lanes, order, saved)
  {
    forall l: nat | l < QUERY_CONCURRENCY
      ensures if l in lanes then Working(t, l, batch[lanes[l]]) else t.slots[l].Idle?
    {
      assert if l in lanes then Working(s, l, batch[lanes[l]]) else s.slots[l].Idle?;
    }
  }

  predicate Covered(started: nat, lanes: map<nat, nat>, order: seq<nat>) {
    forall i: nat :: i < started ==> i in order || i in lanes.Values
  }

  lemma BeginCovers(started: nat, lanes: map<nat, nat>, order: seq<nat>, lane: nat)
    requires Covered(started, lanes, order) && lane !in lanes
    ensures Covered(started + 1, lanes[lane := started], order)
  {
    var lanes' := lanes[lane := started];
    forall i: nat | i < started + 1
      ensures i in order || i in lanes'.Values
    {
      if i == started {
        assert lanes'[lane] == i;
      } else if i !in order {
        var l :| l in lanes && lanes[l] == i;
        assert lanes'[l] == i;
      }
    }
  }

  lemma FinishCovers(started: nat, lanes: map<nat, nat>, order: seq<nat>, lane: nat)
    requires Covered(started, lanes, order) && lane in lanes
    ensures Covered(started, lanes - {lane}, order + [lanes[lane]])
  {
    var lanes', order' := lanes - {lane}, order + [lanes[lane]];
    forall i: nat | i < started
      ensures i in order' || i in lanes'.Values
    {
      if i !in order && i != lanes[lane] {
        var l :| l in lanes && lanes[l] == i;
        assert lanes'[l] == i;
      }
    }
  }

  lemma BeginKeepsUnderway(s: State, t: State, batch: seq<Prepared>, started: nat, lanes: map<nat, nat>,
                           order: seq<nat>, saved: seq<SavedEntry>, lane: nat)
    requires Underway(s, batch, started, lanes, order, saved)
    requires lane < QUERY_CONCURRENCY && lane !in lanes && started < |batch|
    requires t == Effective(s, Begin(lane, Call(|s.calls|, batch[started].key, batch[started].payload, None)))
    ensures Underway(t, batch, started + 1, lanes[lane := started], order, saved)
  {
    var lanes' := lanes[lane := started];
    BeginCovers(started, lanes, order, lane);
    forall l: nat | l < QUERY_CONCURRENCY
      ensures if l in lanes' then Working(t, l, batch[lanes'[l]]) else t.slots[l].Idle?
    {
      assert if l in lanes then Working(s, l, batch[lanes[l]]) else s.slots[l].Idle?;
    }
  }

  /** A lane reads, or tries again. */
  lemma LaneKeepsUnderway(s: State, t: State, batch: seq<Prepared>, started: nat, lanes: map<nat, nat>,
                          order: seq<nat>, saved: seq<SavedEntry>, lane: nat)
    requires Underway(s, batch, started, lanes, order, saved)
    requires lane in lanes && lane < |s.slots|
    requires |t.slots| == |s.slots| && t.slots == s.slots[lane := t.slots[lane]] && s.calls <= t.calls
    requires Working(t, lane, batch[lanes[lane]])
    ensures Underway(t, batch, started, lanes, order, saved)
  {
    forall l: nat | l < QUERY_CONCURRENCY
      ensures if l in lanes then Working(t, l, batch[lanes[l]]) else t.slots[l].Idle?
    {
      assert if l in lanes then Working(s, l, batch[lanes[l]]) else s.slots[l].Idle?;
    }
  }

  lemma FinishKeepsUnderway(s: State, t: State, batch: seq<Prepared>, started: nat, lanes: map<nat, nat>,
                            order: seq<nat>, saved: seq<SavedEntry>, lane: nat, e: SavedEntry)
    requires Underway(s, batch, started, lanes, order, saved)
    requires lane in lanes && lane < |s.slots|
    requires |t.slots| == |s.slots| && t.slots == s.slots[lane := Idle] && s.calls <= t.calls
    requires Matches(batch[lanes[lane]], e)
    ensures Underway(t, batch, started, lanes - {lane}, order + [lanes[lane]], saved + [e])
  {
    var lanes' := lanes - {lane};
    FinishCovers(started, lanes, order, lane);
    forall l: nat | l < QUERY_CONCURRENCY
      ensures if l in lanes' then Working(t, l, batch[lanes'[l]]) else t.slots[l].Idle?
    {
      assert if l in lanes then Working(s, l, batch[lanes[l]]) else s.slots[l].Idle?;
    }
  }

  /** Alone, the row of an entry under way is still the old one. */
  lemma AloneRow(s: State, rows: Table, batch: seq<Prepared>, started: nat, lanes: map<nat, nat>,
                 order: seq<nat>, saved: seq<SavedEntry>, lane: nat)
    requires Underway(s, batch, started, lanes, order, saved)
    requires DistinctKeys(batch) && Alone(s, rows, batch, lanes, order, saved)
    requires lane in lanes
    ensures Lookup(s.rows, batch[lanes[lane]].key) == Lookup(rows, batch[lanes[lane]].key)
  {
    forall j | 0 <= j < |order|
      ensures batch[order[j]].key != batch[lanes[lane]].key
    {
      assert order[j] in order;
    }
  }

  /** So its compare-and-set applies. */
  lemma AloneApplies(s: State, rows: Table, batch: seq<Prepared>, started: nat, lanes: map<nat, nat>,
                     order: seq<nat>, saved: seq<SavedEntry>, lane: nat)
    requires Underway(s, batch, started, lanes, order, saved)
    requires DistinctKeys(batch) && Alone(s, rows, batch, lanes, order, saved)
    requires lane in lanes && lane < |s.slots| && s.slots[lane].seen.Some?
    ensures CasApplies(s.rows, batch[lanes[lane]].key, s.slots[lane].seen.value.view)
  {
    AloneRow(s, rows, batch, started, lanes, order, saved, lane);
    assert FirstTry(s.slots[lane], rows, batch[lanes[lane]].key);
  }

  /** A first read in a lane. */
  lemma ReadKeepsAlone(s: State, t: State, rows: Table, batch: seq<Prepared>, started: nat, lanes: map<nat, nat>,
                       order: seq<nat>, saved: seq<SavedEntry>, lane: nat)
    requires Underway(s, batch, started, lanes, order, saved)
    requires DistinctKeys(batch) && Alone(s, rows, batch, lanes, order, saved)
    requires lane in lanes && Enabled(s, ReadRow(lane)) && t == Effective(s, ReadRow(lane))
    ensures Alone(t, rows, batch, lanes, order, saved)
  {
    AloneRow(s, rows, batch, started, lanes, order, saved, lane);
    forall l | l in lanes
      ensures FirstTry(t.slots[l], rows, batch[lanes[l]].key)
    {
      assert FirstTry(s.slots[l], rows, batch[lanes[l]].key);
      assert Working(s, lane, batch[lanes[lane]]);
    }
  }

  lemma FinishKeepsAlone(s: State, t: State, rows: Table, batch: seq<Prepared>, started: nat, lanes: map<nat, nat>,
                         order: seq<nat>, saved: seq<SavedEntry>, lane: nat, e: SavedEntry)
    requires Underway(s, batch, started, lanes, order, saved)
    requires DistinctKeys(batch) && Alone(s, rows, batch, lanes, order, saved)
    requires lane in lanes && lane < |s.slots| && s.slots[lane].seen.Some?
    requires |t.slots| == |s.slots| && t.slots == s.slots[lane := Idle]
    requires var p := batch[lanes[lane]];
      && t.rows == s.rows[p.key := Written(Lookup(s.rows, p.key), p.payload, e.updatedAt)]
      && e.version == VersionOf(s.rows, p.key) + 1
    ensures Alone(t, rows, batch, lanes - {lane}, order + [lanes[lane]], saved + [e])
  {
    AloneRow(s, rows, batch, started, lanes, order, saved, lane);
    var p := batch[lanes[lane]];
    var order', saved' := order + [lanes[lane]], saved + [e];
    assert Landed(rows, t.rows, p, e);
    forall j | 0 <= j < |order'|
      ensures Landed(rows, t.rows, batch[order'[j]], saved'[j])
    {
      if j < |order| {
        assert order[j] in order;
        assert Landed(rows, s.rows, batch[order[j]], saved[j]);
        assert batch[order[j]].key != p.key;
      }
    }
    forall k | forall j :: 0 <= j < |order'| ==> batch[order'[j]].key != k
      ensures Lookup(t.rows, k) == Lookup(rows, k)
    {
      assert order'[|order|] == lanes[lane];
      assert forall j :: 0 <= j < |order| ==> order'[j] == order[j];
    }
  }

  /** How far a batch has come. */
  datatype Progress = Progress(started: nat, lanes: map<nat, nat>, order: seq<nat>, saved: seq<SavedEntry>)

  ghost predicate OnTrack(s: State, rows: Table, batch: seq<Prepared>, p: Progress, alone: bool) {
    && Underway(s, batch, p.started, p.lanes, p.order, p.saved)
    && (alone ==> DistinctKeys(batch) && Alone(s, rows, batch, p.lanes, p.order, p.saved))
  }

  /** Steps that are left, retries included. */
  function Left(s: State, batch: seq<Prepared>, p: Progress): int
    requires |s.slots| >= QUERY_CONCURRENCY
  {
    11 * (|batch| - p.started) + LanesWork(s.slots, QUERY_CONCURRENCY)
  }

  /** The progress after a lane ended with a result. */
  function Finished(p: Progress, lane: nat, e: SavedEntry): Progress
    requires lane in p.lanes
  {
    Progress(p.started, p.lanes - {lane}, p.order + [p.lanes[lane]], p.saved + [e])
  }

  lemma FinishKeepsTrack(s: State, t: State, rows: Table, batch: seq<Prepared>, p: Progress, lane: nat, e: SavedEntry,
                         alone: bool)
    requires OnTrack(s, rows, batch, p, alone)
    requires lane in p.lanes && lane < |s.slots| && s.slots[lane].seen.Some?
    requires |t.slots| == |s.slots| && t.slots == s.slots[lane := Idle] && s.calls <= t.calls
    requires Matches(batch[p.lanes[lane]], e)
    requires alone ==> var item := batch[p.lanes[lane]];
      && t.rows == s.rows[item.key := Written(Lookup(s.rows, item.key), item.payload, e.updatedAt)]
      && e.version == VersionOf(s.rows, item.key) + 1
    ensures OnTrack(t, rows, batch, Finished(p, lane, e), alone)
    ensures Left(t, batch, Finished(p, lane, e)) < Left(s, batch, p)
  {
    assert Working(s, lane, batch[p.lanes[lane]]);
    FinishKeepsUnderway(s, t, batch, p.started, p.lanes, p.order, p.saved, lane, e);
    if alone {
      FinishKeepsAlone(s, t, rows, batch, p.started, p.lanes, p.order, p.saved, lane, e);
    }
    LanesWorkUpdate(s.slots, lane, Idle, QUERY_CONCURRENCY);
  }

  /** What a failed task leaves behind: some lanes still busy, nothing written twice. */
  ghost predicate Dropped(s: State, rows: Table, batch: seq<Prepared>, lanes: map<nat, nat>, alone: bool) {
    && |s.slots| >= QUERY_CONCURRENCY
    && (forall l :: l in lanes ==> lanes[l] < |batch|)
    && (forall l: nat :: l < QUERY_CONCURRENCY ==>
      if l in lanes && s.slots[l].Busy? then Working(s, l, batch[lanes[l]]) else s.slots[l].Idle?)
    && (alone ==> Stopped(s, rows, batch, lanes))
  }

  predicate ActsAlone(w: Setting, batch: seq<Prepared>) {
    !w.shared && !w.lossy && DistinctKeys(batch)
  }

  /**
   What a batch promises. Success: one result for every entry, in the order `order`. Without other writers
   and with distinct keys, the table is overlaid, or after a failure partly overlaid; then only a
   database failure makes it fail.
   */
  ghost predicate BatchResult(w: Setting, rows: Table, rows': Table, batch: seq<Prepared>,
                              result: Option<seq<SavedEntry>>, order: seq<nat>) {
    && (result.Some? ==>
      && Permutes(order, |batch|) && |result.value| == |order|
      && forall j :: 0 <= j < |order| ==> Matches(batch[order[j]], result.value[j]))
    && (ActsAlone(w, batch) ==>
      && (result.None? ==> w.faulty)
      && if result.Some? then Overlaid(rows, rows', batch, order, result.value) else PartlyOverlaid(rows, rows', batch))
  }

  /** Once no lane is busy and every entry was started, the batch is a whole. */
  lemma BatchCompletes(w: Setting, s: State, rows: Table, batch: seq<Prepared>, order: seq<nat>, saved: seq<SavedEntry>)
    requires Underway(s, batch, |batch|, map[], order, saved)
    requires ActsAlone(w, batch) ==> Alone(s, rows, batch, map[], order, saved)
    ensures BatchResult(w, rows, s.rows, batch, Some(saved), order)
  {
    assert Permutes(order, |batch|);
  }

  /** Rows not yet overlaid for lanes still busy; every row old or half way. */
  ghost predicate Stopped(s: State, rows: Table, batch: seq<Prepared>, lanes: map<nat, nat>) {
    && DistinctKeys(batch)
    && PartlyOverlaid(rows, s.rows, batch)
    && (forall l, m :: l in lanes && m in lanes && l != m ==> lanes[l] != lanes[m])
    && (forall l :: l in lanes && lanes[l] < |batch| && l < |s.slots| && s.slots[l].Busy? ==>
          Lookup(s.rows, batch[lanes[l]].key) == Lookup(rows, batch[lanes[l]].key))
  }

  /** The statement of a lane that will not be heard of again may have taken effect. */
  lemma LateWriteKeepsStopped(s: State, t: State, rows: Table, batch: seq<Prepared>, lanes: map<nat, nat>, lane: nat,
                              now: int)
    requires lane in lanes && lanes[lane] < |batch| && lane < |s.slots| && Working(s, lane, batch[lanes[lane]])
    requires forall l :: l in lanes ==> lanes[l] < |batch|
    requires |t.slots| == |s.slots| && t.slots == s.slots[lane := Idle]
    requires var p := batch[lanes[lane]];
      t.rows == s.rows || t.rows == s.rows[p.key := Written(Lookup(s.rows, p.key), p.payload, now)]
    ensures Stopped(s, rows, batch, lanes) ==> Stopped(t, rows, batch, lanes)
  {
    if Stopped(s, rows, batch, lanes) && t.rows != s.rows {
      var p := batch[lanes[lane]];
      forall k
        ensures Lookup(t.rows, k) == Lookup(rows, k) || HalfWay(rows, t.rows, batch, k)
      {
        if k == p.key {
          assert Lookup(t.rows, k) == Some(RowFor(rows, p, now));
          assert HalfWay(rows, t.rows, batch, k);
        } else {
          assert Lookup(t.rows, k) == Lookup(s.rows, k);
          if HalfWay(rows, s.rows, batch, k) {
            var i, when :| 0 <= i < |batch| && batch[i].key == k && Lookup(s.rows, k) == Some(RowFor(rows, batch[i], when));
            assert HalfWay(rows, t.rows, batch, k);
          }
        }
      }
    }
  }

  lemma AloneStops(s: State, rows: Table, batch: seq<Prepared>, started: nat, lanes: map<nat, nat>,
                   order: seq<nat>, saved: seq<SavedEntry>)
    requires Underway(s, batch, started, lanes, order, saved)
    requires DistinctKeys(batch) && Alone(s, rows, batch, lanes, order, saved)
    ensures Stopped(s, rows, batch, lanes)
  {
    forall k
      ensures Lookup(s.rows, k) == Lookup(rows, k) || HalfWay(rows, s.rows, batch, k)
    {
      if j :| 0 <= j < |order| && batch[order[j]].key == k {
        assert Landed(rows, s.rows, batch[order[j]], saved[j]);
        assert Lookup(s.rows, k) == Some(RowFor(rows, batch[order[j]], saved[j].updatedAt));
      }
    }
    forall l | l in lanes
      ensures Lookup(s.rows, batch[lanes[l]].key) == Lookup(rows, batch[lanes[l]].key)
    {
      forall j | 0 <= j < |order|
        ensures batch[order[j]].key != batch[lanes[l]].key
      {
        assert order[j] in order;
      }
    }
  }

  lemma LateWriteKeepsDropped(s: State, t: State, rows: Table, batch: seq<Prepared>, lanes: map<nat, nat>, lane: nat,
                              now: int, alone: bool)
    requires Dropped(s, rows, batch, lanes, alone)
    requires lane in lanes && lane < QUERY_CONCURRENCY && s.slots[lane].Busy?
    requires |t.slots| == |s.slots| && t.slots == s.slots[lane := Idle] && s.calls <= t.calls
    requires var p := batch[lanes[lane]];
      t.rows == s.rows || t.rows == s.rows[p.key := Written(Lookup(s.rows, p.key), p.payload, now)]
    ensures Dropped(t, rows, batch, lanes, alone)
  {
    assert Working(s, lane, batch[lanes[lane]]);
    if alone {
      LateWriteKeepsStopped(s, t, rows, batch, lanes, lane, now);
    }
    forall l: nat | l < QUERY_CONCURRENCY
      ensures if l in lanes && t.slots[l].Busy? then Working(t, l, batch[lanes[l]]) else t.slots[l].Idle?
    {
      assert if l in lanes && s.slots[l].Busy? then Working(s, l, batch[lanes[l]]) else s.slots[l].Idle?;
    }
  }

  /** A task that ended without a result. */
  lemma FailureDrops(s: State, t: State, rows: Table, batch: seq<Prepared>, p: Progress, lane: nat, now: int, alone: bool)
    requires OnTrack(s, rows, batch, p, alone) && lane in p.lanes
    requires |t.slots| == |s.slots| && t.slots == s.slots[lane := Idle] && s.calls <= t.calls
    requires var item := batch[p.lanes[lane]];
      t.rows == s.rows || t.rows == s.rows[item.key := Written(Lookup(s.rows, item.key), item.payload, now)]
    ensures Dropped(t, rows, batch, p.lanes, alone)
  {
    assert Working(s, lane, batch[p.lanes[lane]]);
    if alone {
      AloneStops(s, rows, batch, p.started, p.lanes, p.order, p.saved);
    }
    assert Dropped(s, rows, batch, p.lanes, alone) by {
      forall l: nat | l < QUERY_CONCURRENCY
        ensures if l in p.lanes && s.slots[l].Busy? then Working(s, l, batch[p.lanes[l]]) else s.slots[l].Idle?
      {
        assert if l in p.lanes then Working(s, l, batch[p.lanes[l]]) else s.slots[l].Idle?;
      }
    }
    LateWriteKeepsDropped(s, t, rows, batch, p.lanes, lane, now, alone);
  }

  lemma OthersKeepTrack(s: State, t: State, rows: Table, batch: seq<Prepared>, p: Progress, alone: bool)
    requires OnTrack(s, rows, batch, p, alone)
    requires |t.slots| == |s.slots| && s.calls <= t.calls && (alone ==> t == s)
    requires forall l: nat :: l < QUERY_CONCURRENCY ==> t.slots[l] == s.slots[l]
    ensures OnTrack(t, rows, batch, p, alone)
    ensures Left(t, batch, p) == Left(s, batch, p)
  {
    OthersKeepUnderway(s, t, batch, p.started, p.lanes, p.order, p.saved);
    LanesWorkSame(s.slots, t.slots, QUERY_CONCURRENCY);
  }
}
