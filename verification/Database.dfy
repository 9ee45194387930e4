/**
 The database service over one user's partition: the retry loops, step by step.

 The object holds the table together with every request in flight; `trace` records the run so far, so what
 is proved of all runs is true of the object at any moment. Between two awaits of a loop `Others` lets other
 requests take any steps, and `*` picks clock readings, failures and lost replies.
 */
module Database {
  import opened Wrappers
  import opened Records
  import opened StoreProtocol
  import StoreHistory
  import opened StoreTheorems
  import opened QuotaBound
  import opened Configuration
  import opened Environment
  import opened Codec
  import opened Batch
  import opened KeyNames
  import opened Manifest

  /** An action that advances the save of a slot from `lo` up to, not including, `hi`. */
  predicate Advances(a: Action, lo: nat, hi: nat) {
    !a.RemoveKey? && !a.RemoveAll? && lo <= a.slot < hi
  }

  /** What tasks in these slots may count on while others run. */
  predicate LanesKept(s: State, t: State, lo: nat, hi: nat) {
    && |t.slots| == |s.slots|
    && (forall l :: lo <= l < hi && l < |s.slots| ==> t.slots[l] == s.slots[l])
    && s.calls <= t.calls
    && s.history <= t.history
  }

  lemma OthersKeepLanes(s: State, a: Action, lo: nat, hi: nat)
    requires !Advances(a, lo, hi)
    ensures LanesKept(s, Step(s, a), lo, hi)
  {
  }

  lemma CasEffect(s: State, lane: nat, now: int, reply: Reply)
    requires MayWrite(s, lane) && |s.slots[lane].windows| < LWT_MAX_RETRIES
    ensures var t, slot := AfterCas(s, lane, now, reply), s.slots[lane];
      var call := slot.call;
      && t.calls == s.calls && |t.slots| == |s.slots| && t.slots == s.slots[lane := t.slots[lane]]
      && t.rows == (if Applies(s, lane) then s.rows[call.key := Written(Lookup(s.rows, call.key), call.payload, now)]
                    else s.rows)
      && if Applies(s, lane) && reply.Faithful?
         then t.slots[lane].Idle? && call.id in t.outcomes
              && WroteOnce(s.rows, t.rows, call.key, call.payload, t.outcomes[call.id])
         else if reply.Failed? || |slot.windows| + 1 == LWT_MAX_RETRIES
         then t.slots[lane].Idle? && call.id in t.outcomes
              && (if reply.Failed? then t.outcomes[call.id].DbError? else t.outcomes[call.id].Exhausted?)
         else t.slots[lane].Busy? && t.slots[lane].call == call && t.slots[lane].total.None?
              && t.slots[lane].seen.None? && |t.slots[lane].windows| == |slot.windows| + 1
  {
  }

  /** The effect of a save that nothing disturbed. */
  predicate WroteOnce(rows: Table, rows': Table, key: string, payload: Payload, result: Outcome) {
    && result.Saved?
    && result.version == VersionOf(rows, key) + 1
    && rows' == rows[key := Written(Lookup(rows, key), payload, result.updatedAt)]
  }

  /** The moment after a successful save its row is in the table, with the caller's payload. */
  predicate OnRecord(base: Table, h: seq<Event>, key: string, payload: Payload, result: Outcome)
    requires result.Saved?
  {
    && result.at < |h|
    && var table := Replay(base, h[..result.at + 1]);
      && key in table
      && table[key].version == result.version && table[key].updatedAt == result.updatedAt
      && Payload(table[key].value, table[key].checksum, table[key].size) == payload
  }

  /** The row of a saved entry was in the table at the returned version, with that entry's payload. */
  predicate EntryOnRecord(base: Table, h: seq<Event>, p: Prepared, e: SavedEntry) {
    exists at: nat :: at < |h| && OnRecord(base, h, p.key, p.payload, Saved(e.version, e.updatedAt, at, 0))
  }

  predicate AllOnRecord(base: Table, h: seq<Event>, batch: seq<Prepared>, order: seq<nat>, saved: seq<SavedEntry>) {
    && |order| == |saved|
    && forall j :: 0 <= j < |saved| ==> order[j] < |batch| && EntryOnRecord(base, h, batch[order[j]], saved[j])
  }

  lemma StayOnRecord(base: Table, h: seq<Event>, h': seq<Event>, batch: seq<Prepared>, order: seq<nat>,
                     saved: seq<SavedEntry>)
    requires h <= h' && AllOnRecord(base, h, batch, order, saved)
    ensures AllOnRecord(base, h', batch, order, saved)
  {
    forall j | 0 <= j < |saved|
      ensures EntryOnRecord(base, h', batch[order[j]], saved[j])
    {
      var p, e := batch[order[j]], saved[j];
      assert EntryOnRecord(base, h, p, e);
      var at: nat :| at < |h| && OnRecord(base, h, p.key, p.payload, Saved(e.version, e.updatedAt, at, 0));
      assert h'[..at + 1] == h[..at + 1];
      assert OnRecord(base, h', p.key, p.payload, Saved(e.version, e.updatedAt, at, 0));
    }
  }

  /** A step of the batch brings no result or one that is on record. */
  predicate Advanced(base: Table, h: seq<Event>, batch: seq<Prepared>, p: Progress, q: Progress) {
    || (q.order == p.order && q.saved == p.saved)
    || (|q.order| == |p.order| + 1 && |q.saved| == |p.saved| + 1 && p.order <= q.order && p.saved <= q.saved
        && q.order[|p.order|] < |batch| && EntryOnRecord(base, h, batch[q.order[|p.order|]], q.saved[|p.saved|]))
  }

  lemma OneMoreOnRecord(base: Table, h: seq<Event>, batch: seq<Prepared>, p: Progress, i: nat, e: SavedEntry,
                        result: Outcome)
    requires i < |batch| && result.Saved? && OnRecord(base, h, batch[i].key, batch[i].payload, result)
    requires e.version == result.version && e.updatedAt == result.updatedAt
    ensures forall q: Progress :: q.order == p.order + [i] && q.saved == p.saved + [e] ==> Advanced(base, h, batch, p, q)
  {
    assert OnRecord(base, h, batch[i].key, batch[i].payload, Saved(e.version, e.updatedAt, result.at, 0));
    assert EntryOnRecord(base, h, batch[i], e);
  }

  lemma AdvancedOnRecord(base: Table, h: seq<Event>, h': seq<Event>, batch: seq<Prepared>, p: Progress, q: Progress)
    requires h <= h' && AllOnRecord(base, h, batch, p.order, p.saved) && Advanced(base, h', batch, p, q)
    ensures AllOnRecord(base, h', batch, q.order, q.saved)
  {
    StayOnRecord(base, h, h', batch, p.order, p.saved);
    forall j | 0 <= j < |q.saved|
      ensures q.order[j] < |batch| && EntryOnRecord(base, h', batch[q.order[j]], q.saved[j])
    {
      if j < |p.saved| {
        assert EntryOnRecord(base, h', batch[p.order[j]], p.saved[j]);
      }
    }
  }

  /** One of the lanes was to write this. */
  predicate OfLane(e: Event, batch: seq<Prepared>, lanes: map<nat, nat>) {
    e.Wrote? && exists l :: l in lanes && lanes[l] < |batch| && e.key == batch[lanes[l]].key
  }

  /** At most one write for each of `n` lanes, and nothing else. */
  predicate LateWrites(h: seq<Event>, h': seq<Event>, batch: seq<Prepared>, lanes: map<nat, nat>, n: nat) {
    h <= h' && |h'| <= |h| + n && forall p :: |h| <= p < |h'| ==> OfLane(h'[p], batch, lanes)
  }

  lemma OneLateWrite(s: State, h: seq<Event>, rows: Table, batch: seq<Prepared>, lanes: map<nat, nat>, lane: nat, now: int,
                     alone: bool)
    requires Dropped(s, rows, batch, lanes, alone) && lane < QUERY_CONCURRENCY && MayWrite(s, lane)
    requires LateWrites(h, s.history, batch, lanes, lane)
    ensures LateWrites(h, AfterCas(s, lane, now, Failed).history, batch, lanes, lane + 1)
  {
    assert lane in lanes && Working(s, lane, batch[lanes[lane]]);
    var h' := AfterCas(s, lane, now, Failed).history;
    if h' != s.history {
      assert OfLane(h'[|s.history|], batch, lanes);
    }
  }

  /** A row as a reader sees it. */
  datatype DataEntry = DataEntry(key: string, value: Bytes, version: nat, checksum: string, size: nat)

  function DataOf(z: Zstd, key: string, row: Row): DataEntry {
    DataEntry(key, Decoded(z, row.value), row.version, row.checksum, row.size)
  }

  predicate HasEntry(entries: seq<DataEntry>, key: string) {
    exists i :: 0 <= i < |entries| && entries[i].key == key
  }

  /** The entries are the rows of the listed keys, each once. */
  predicate Fetched(z: Zstd, rows: Table, keys: seq<string>, entries: seq<DataEntry>) {
    && (forall i, j :: 0 <= i < j < |entries| ==> entries[i].key != entries[j].key)
    && (forall i :: 0 <= i < |entries| ==>
      && entries[i].key in keys && entries[i].key in rows
      && entries[i] == DataOf(z, entries[i].key, rows[entries[i].key]))
    && (forall k :: k in keys && k in rows ==> HasEntry(entries, k))
  }

  function KeySet(keys: seq<string>): set<string> {
    set k | k in keys
  }

  predicate AnyInvalid(keys: seq<string>) {
    exists i :: 0 <= i < |keys| && ValidateKey(keys[i]).Err?
  }

  predicate DistinctStrings(keys: seq<string>) {
    forall i, j :: 0 <= i < j < |keys| ==> keys[i] != keys[j]
  }

  /** The row of this entry was in the table at some point since `lo`. */
  predicate WasRead(z: Zstd, base: Table, h: seq<Event>, lo: nat, e: DataEntry) {
    exists n :: lo <= n <= |h| && Lookup(Replay(base, h[..n]), e.key).Some?
      && e == DataOf(z, e.key, Replay(base, h[..n])[e.key])
  }

  predicate WasAbsent(base: Table, h: seq<Event>, lo: nat, key: string) {
    exists n :: lo <= n <= |h| && Lookup(Replay(base, h[..n]), key).None?
  }

  /** Each of the keys was read once since `lo`: its row is in the list, or it had none. */
  predicate FetchedSince(z: Zstd, base: Table, h: seq<Event>, lo: nat, keys: set<string>, entries: seq<DataEntry>) {
    && (forall i, j :: 0 <= i < j < |entries| ==> entries[i].key != entries[j].key)
    && (forall i :: 0 <= i < |entries| ==> entries[i].key in keys && WasRead(z, base, h, lo, entries[i]))
    && (forall k :: k in keys ==> HasEntry(entries, k) || WasAbsent(base, h, lo, k))
  }

  lemma ReadStays(z: Zstd, base: Table, h: seq<Event>, h': seq<Event>, lo: nat, e: DataEntry)
    requires h <= h' && WasRead(z, base, h, lo, e)
    ensures WasRead(z, base, h', lo, e)
  {
    var n :| lo <= n <= |h| && Lookup(Replay(base, h[..n]), e.key).Some?
      && e == DataOf(z, e.key, Replay(base, h[..n])[e.key]);
    assert h'[..n] == h[..n];
  }

  lemma AbsenceStays(base: Table, h: seq<Event>, h': seq<Event>, lo: nat, key: string)
    requires h <= h' && WasAbsent(base, h, lo, key)
    ensures WasAbsent(base, h', lo, key)
  {
    var n :| lo <= n <= |h| && Lookup(Replay(base, h[..n]), key).None?;
    assert h'[..n] == h[..n];
  }

  lemma FetchedStays(z: Zstd, base: Table, h: seq<Event>, h': seq<Event>, lo: nat, keys: set<string>,
                     entries: seq<DataEntry>)
    requires h <= h' && FetchedSince(z, base, h, lo, keys, entries)
    ensures FetchedSince(z, base, h', lo, keys, entries)
  {
    forall i | 0 <= i < |entries|
      ensures WasRead(z, base, h', lo, entries[i])
    {
      ReadStays(z, base, h, h', lo, entries[i]);
    }
    forall k | k in keys && WasAbsent(base, h, lo, k)
      ensures WasAbsent(base, h', lo, k)
    {
      AbsenceStays(base, h, h', lo, k);
    }
  }

  /** One more key is read, now. */
  lemma FetchOne(z: Zstd, base: Table, h: seq<Event>, lo: nat, keys: set<string>, entries: seq<DataEntry>, key: string)
    requires FetchedSince(z, base, h, lo, keys, entries) && key !in keys && lo <= |h|
    ensures var rows := Replay(base, h);
      FetchedSince(z, base, h, lo, keys + {key}, if key in rows then entries + [DataOf(z, key, rows[key])] else entries)
  {
    var rows := Replay(base, h);
    assert h[..|h|] == h;
    if key in rows {
      var e := DataOf(z, key, rows[key]);
      var all := entries + [e];
      assert WasRead(z, base, h, lo, e) && all[|entries|].key == key;
      forall k | HasEntry(entries, k)
        ensures HasEntry(all, k)
      {
        var i :| 0 <= i < |entries| && entries[i].key == k;
        assert all[i].key == k;
      }
    }
  }

  /** When nothing happened since `lo`, the list is what the table holds. */
  lemma FetchedNow(z: Zstd, base: Table, h: seq<Event>, keys: seq<string>, entries: seq<DataEntry>)
    requires FetchedSince(z, base, h, |h|, KeySet(keys), entries)
    ensures Fetched(z, Replay(base, h), keys, entries)
  {
    assert h[..|h|] == h;
  }

  class DatabaseService {
    var state: State
    ghost var base: Table
    ghost var trace: seq<Action>

    ghost predicate Valid()
      reads this
    {
      state == Run(Start(base, |state.slots|), trace)
    }

    constructor (rows: Table, lanes: nat)
      ensures Valid() && state == Start(rows, lanes) && base == rows && trace == []
    {
      state := Start(rows, lanes);
      base := rows;
      trace := [];
    }

    /** One atomic statement reaches the database, or a task takes a local step. */
    method Atomic(a: Action)
      requires Valid() && Enabled(state, a)
      modifies this
      ensures Valid() && state == Effective(old(state), a)
      ensures base == old(base) && trace == old(trace) + [a]
    {
      RunSnoc(Start(base, |state.slots|), trace, a);
      RunLanes(Start(base, |state.slots|), trace + [a]);
      state := Effective(state, a);
      trace := trace + [a];
    }

    /** `SELECT SUM(size_bytes)`: one atomic scan of the partition. */
    method GetUserTotalSize() returns (sum: nat)
      ensures sum == Total(state.rows)
    {
      sum := 0;
      var rest := Sizes(state.rows);
      while rest != map[]
        invariant sum + Sum(rest) == Total(state.rows)
        decreases |rest|
      {
        var k :| k in rest;
        SumRemove(rest, k);
        sum := sum + rest[k];
        rest := rest - {k};
      }
    }

    /** Other requests, if there are any, take any number of steps, deletes included. */
    method Others(w: Setting, lo: nat, hi: nat)
      requires Valid()
      modifies this
      ensures Valid() && base == old(base) && old(trace) <= trace
      ensures LanesKept(old(state), state, lo, hi)
      ensures !w.shared ==> state == old(state)
    {
      var wish: int := *;
      var steps := if wish < 0 || !w.shared then 0 else wish;
      for i := 0 to steps
        invariant Valid() && base == old(base) && old(trace) <= trace
        invariant LanesKept(old(state), state, lo, hi)
        invariant i == 0 ==> state == old(state)
      {
        var a: Action := *;
        if a.ReadTotal? {
          var total := GetUserTotalSize();
          a := ReadTotal(a.slot, total);
        }
        if !Advances(a, lo, hi) && Available(state, a) {
          OthersKeepLanes(state, a, lo, hi);
          Atomic(a);
        }
      }
    }

    /** The lane runs this call, with this many failed attempts behind it and no reads yet. */
    ghost predicate Trying(lane: nat, call: Call, failures: nat)
      reads this
    {
      && lane < |state.slots|
      && state.slots[lane].Busy?
      && state.slots[lane].call == call
      && state.slots[lane].total.None?
      && state.slots[lane].seen.None?
      && |state.slots[lane].windows| == failures
      && call.id < |state.calls| && state.calls[call.id] == call
    }

    /** The call is over with this result. */
    ghost predicate Done(lane: nat, call: Call, outcome: Outcome)
      reads this
    {
      && lane < |state.slots|
      && state.slots[lane].Idle?
      && call.id < |state.calls| && state.calls[call.id] == call
      && call.id in state.outcomes && state.outcomes[call.id] == outcome
    }

    ghost predicate GaveUp(lane: nat, call: Call)
      reads this
    {
      call.id in state.outcomes && state.outcomes[call.id].Exhausted? && Done(lane, call, state.outcomes[call.id])
    }

    /** After `failures` failed attempts: five are the end. */
    ghost predicate AfterFailures(lane: nat, call: Call, failures: nat)
      reads this
    {
      if failures < LWT_MAX_RETRIES then Trying(lane, call, failures) else GaveUp(lane, call)
    }

    /** The conditional write of one attempt; `None` when it was not applied, as far as the caller can tell. */
    method CompareAndSet(w: Setting, lane: nat, ghost call: Call, ghost failures: nat)
      returns (result: Option<Outcome>, now: int)
      requires Valid() && MayWrite(state, lane) && state.slots[lane].call == call
      requires |state.slots[lane].windows| == failures < LWT_MAX_RETRIES
      requires call.id < |state.calls| && state.calls[call.id] == call
      modifies this
      ensures Valid() && base == old(base) && old(trace) <= trace
      ensures state.calls == old(state.calls)
      ensures |state.slots| == old(|state.slots|) && state.slots == old(state.slots)[lane := state.slots[lane]]
      ensures result.None? ==> AfterFailures(lane, call, failures + 1)
      ensures result.Some? ==> Done(lane, call, result.value)
      ensures result.Some? ==> result.value.Saved? || (w.faulty && result.value.DbError?)
      ensures result.Some? && result.value.Saved? ==>
        WroteOnce(old(state.rows), state.rows, call.key, call.payload, result.value)
      ensures !w.lossy && old(Applies(state, lane)) ==> result.Some?
      ensures state.rows == old(state.rows)
        || state.rows == old(state.rows)[call.key := Written(Lookup(old(state.rows), call.key), call.payload, now)]
    {
      now := *;
      var reached: bool := *;
      if !reached && w.faulty {
        Atomic(Abort(lane));
        return Some(DbError), now;
      }
      var reply: Reply := *;
      if (!w.faulty && reply.Failed?) || (!w.lossy && reply.ReportedNotApplied?) {
        reply := Faithful;
      }
      var id := state.slots[lane].call.id;
      CasEffect(state, lane, now, reply);
      Atomic(Cas(lane, now, reply));
      result := if state.slots[lane].Idle? && !state.outcomes[id].Exhausted? then Some(state.outcomes[id]) else None;
    }

    /** What is proved of all runs, for a call of this object that is over. */
    lemma SavedIsOnRecord(lane: nat, call: Call, result: Outcome)
      requires Valid() && Done(lane, call, result) && result.Saved?
      ensures OnRecord(base, state.history, call.key, call.payload, result)
    {
      ReturnedRowIsCallers(base, |state.slots|, trace, call.id);
    }

    /** The plain retry loop, `save_data_key_lwt`. */
    method SaveDataKeyLwt(w: Setting, lane: nat, key: string, payload: Payload) returns (result: Outcome)
      requires Valid() && lane < |state.slots| && state.slots[lane].Idle?
      modifies this
      ensures Valid() && base == old(base) && old(trace) <= trace
      ensures Done(lane, Call(old(|state.calls|), key, payload, None), result)
      ensures result.Saved? || result.Exhausted? || (w.faulty && result.DbError?)
      ensures result.Saved? ==> OnRecord(base, state.history, key, payload, result)
      ensures w == UNDISTURBED ==> WroteOnce(old(state.rows), state.rows, key, payload, result)
    {
      var call := Call(|state.calls|, key, payload, None);
      Atomic(Begin(lane, call));
      for attempt := 0 to LWT_MAX_RETRIES
        invariant Valid() && base == old(base) && old(trace) <= trace
        invariant AfterFailures(lane, call, attempt)
        invariant w == UNDISTURBED ==> attempt == 0 && state.rows == old(state.rows)
      {
        var r := TryToSave(w, lane, call, attempt);
        if r.Some? {
          return r.value;
        }
      }
      return state.outcomes[call.id];
    }

    /** One attempt of the plain loop: read the version, then compare and set. */
    method TryToSave(w: Setting, lane: nat, ghost call: Call, ghost attempt: nat) returns (result: Option<Outcome>)
      requires Valid() && attempt < LWT_MAX_RETRIES && Trying(lane, call, attempt) && call.limit.None?
      modifies this
      ensures Valid() && base == old(base) && old(trace) <= trace
      ensures result.None? ==> AfterFailures(lane, call, attempt + 1)
      ensures result.Some? ==> Done(lane, call, result.value)
      ensures result.Some? ==> result.value.Saved? || (w.faulty && result.value.DbError?)
      ensures result.Some? && result.value.Saved? ==>
        OnRecord(base, state.history, call.key, call.payload, result.value)
      ensures w == UNDISTURBED ==>
        result.Some? && WroteOnce(old(state.rows), state.rows, call.key, call.payload, result.value)
    {
      Others(w, lane, lane + 1);
      var down: bool := *;
      if down && w.faulty {
        Atomic(Abort(lane));
        return Some(DbError);
      }
      Atomic(ReadRow(lane));
      Others(w, lane, lane + 1);
      var now;
      result, now := CompareAndSet(w, lane, call, attempt);
      if result.Some? && result.value.Saved? {
        SavedIsOnRecord(lane, call, result.value);
      }
    }

    /** The two reads of a quota-checked attempt, in either order. */
    method ReadBoth(w: Setting, lane: nat, ghost call: Call, ghost failures: nat)
      requires Valid() && Trying(lane, call, failures) && call.limit.Some?
      modifies this
      ensures Valid() && base == old(base) && old(trace) <= trace
      ensures Ready(state, lane) && state.slots[lane].call == call
      ensures |state.slots[lane].windows| == failures
      ensures call.id < |state.calls| && state.calls[call.id] == call
      ensures !w.shared ==>
        && state.rows == old(state.rows)
        && state.slots[lane].total.value == Total(state.rows)
        && state.slots[lane].seen.value.view == View(state.rows, call.key)
    {
      var sumFirst: bool := *;
      if sumFirst {
        var total := GetUserTotalSize();
        Atomic(ReadTotal(lane, total));
        Others(w, lane, lane + 1);
        Atomic(ReadRow(lane));
      } else {
        Atomic(ReadRow(lane));
        Others(w, lane, lane + 1);
        var total := GetUserTotalSize();
        Atomic(ReadTotal(lane, total));
      }
      Others(w, lane, lane + 1);
    }

    /** The quota-checked retry loop, the part of `save_data_key_with_quota_check` that talks to the database. */
    method SaveWithQuota(w: Setting, lane: nat, key: string, payload: Payload, maxTotal: int) returns (result: Outcome)
      requires Valid() && lane < |state.slots| && state.slots[lane].Idle?
      modifies this
      ensures Valid() && base == old(base) && old(trace) <= trace
      ensures Done(lane, Call(old(|state.calls|), key, payload, Some(maxTotal)), result)
      ensures result.DbError? ==> w.faulty
      ensures result.Saved? ==> OnRecord(base, state.history, key, payload, result)
      ensures w == UNDISTURBED ==>
        if Total(old(state.rows)) - SizeOf(old(state.rows), key) + payload.size <= maxTotal
        then WroteOnce(old(state.rows), state.rows, key, payload, result)
        else result == OverLimit && state.rows == old(state.rows)
    {
      var call := Call(|state.calls|, key, payload, Some(maxTotal));
      Atomic(Begin(lane, call));
      for attempt := 0 to LWT_MAX_RETRIES
        invariant Valid() && base == old(base) && old(trace) <= trace
        invariant AfterFailures(lane, call, attempt)
        invariant w == UNDISTURBED ==> attempt == 0 && state.rows == old(state.rows)
      {
        var r := TryToSaveWithin(w, lane, call, attempt);
        if r.Some? {
          return r.value;
        }
      }
      return state.outcomes[call.id];
    }

    /** One attempt of the quota-checked loop: both reads, the check, then compare and set. */
    method TryToSaveWithin(w: Setting, lane: nat, ghost call: Call, ghost attempt: nat) returns (result: Option<Outcome>)
      requires Valid() && attempt < LWT_MAX_RETRIES && Trying(lane, call, attempt) && call.limit.Some?
      modifies this
      ensures Valid() && base == old(base) && old(trace) <= trace
      ensures result.None? ==> AfterFailures(lane, call, attempt + 1)
      ensures result.Some? ==> Done(lane, call, result.value) && (result.value.DbError? ==> w.faulty)
      ensures result.Some? && result.value.Saved? ==>
        OnRecord(base, state.history, call.key, call.payload, result.value)
      ensures w == UNDISTURBED ==> result.Some?
      ensures w == UNDISTURBED ==>
        if Total(old(state.rows)) - SizeOf(old(state.rows), call.key) + call.payload.size <= call.limit.value
        then WroteOnce(old(state.rows), state.rows, call.key, call.payload, result.value)
        else result.value == OverLimit && state.rows == old(state.rows)
    {
      Others(w, lane, lane + 1);
      var down: bool := *;
      if down && w.faulty {
        Atomic(Abort(lane));
        return Some(DbError);
      }
      ReadBoth(w, lane, call, attempt);
      if !MayWrite(state, lane) {
        Atomic(Refuse(lane));
        return Some(OverLimit);
      }
      var now;
      result, now := CompareAndSet(w, lane, call, attempt);
      if result.Some? && result.value.Saved? {
        SavedIsOnRecord(lane, call, result.value);
      }
    }

    /** `get_data_manifest`: every row without its value, in some order. */
    method GetDataManifest(w: Setting) returns (result: Option<seq<ManifestEntry>>)
      ensures result.Some? ==> Enumerates(result.value, state.rows) && ListsRows(result.value, state.rows)
      ensures result.None? ==> w.faulty
    {
      var down: bool := *;
      if down && w.faulty {
        return None;
      }
      var entries := AppendNew([], ManifestOf(state.rows));
      EnumeratesExactly(entries, state.rows);
      return Some(entries);
    }

    /** The table is the replay of the history. */
    lemma TableIsReplay()
      requires Valid()
      ensures state.rows == Replay(base, state.history)
    {
      StoreHistory.InvRun(base, |state.slots|, trace);
    }

    /** What was on record earlier in this run still is. */
    lemma HistoryExtends(early: seq<Action>, h: seq<Event>)
      requires Valid() && early <= trace && h == Run(Start(base, |state.slots|), early).history
      ensures h <= state.history
    {
      HistoryGrows(Start(base, |state.slots|), early, trace);
    }

    /** `get_data_keys`: the listed rows, read one by one in any order. */
    method GetDataKeys(w: Setting, z: Zstd, keys: seq<string>) returns (result: Option<seq<DataEntry>>)
      requires Valid() && DistinctStrings(keys)
      modifies this
      ensures Valid() && base == old(base) && old(trace) <= trace
      ensures LanesKept(old(state), state, 0, QUERY_CONCURRENCY)
      ensures !w.shared ==> state == old(state)
      ensures result.Some? ==>
        FetchedSince(z, base, state.history, |old(state).history|, KeySet(keys), result.value)
      ensures !w.shared && result.Some? ==> Fetched(z, state.rows, keys, result.value)
      ensures AnyInvalid(keys) ==> result.None? && state == old(state)
      ensures result.None? ==> w.faulty || AnyInvalid(keys)
    {
      for i := 0 to |keys|
        invariant forall j :: 0 <= j < i ==> ValidateKey(keys[j]).Ok?
      {
        if ValidateKey(keys[i]).Err? {
          return None;
        }
      }
      ghost var all := KeySet(keys);
      var entries: seq<DataEntry> := [];
      var pending := KeySet(keys);
      while pending != {}
        invariant Valid() && base == old(base) && old(trace) <= trace && pending <= all
        invariant LanesKept(old(state), state, 0, QUERY_CONCURRENCY)
        invariant !w.shared ==> state == old(state)
        invariant FetchedSince(z, base, state.history, |old(state).history|, all - pending, entries)
        decreases pending
      {
        var key :| key in pending;
        var next := FetchNext(w, z, |old(state).history|, all - pending, entries, key);
        if next.None? {
          return None;
        }
        assert all - pending + {key} == all - (pending - {key});
        entries, pending := next.value, pending - {key};
      }
      assert all - pending == all;
      if !w.shared {
        TableIsReplay();
        FetchedNow(z, base, state.history, keys, entries);
      }
      return Some(entries);
    }

    method FetchNext(w: Setting, z: Zstd, ghost lo: nat, ghost keys: set<string>, entries: seq<DataEntry>, key: string)
      returns (result: Option<seq<DataEntry>>)
      requires Valid() && key !in keys && lo <= |state.history|
      requires FetchedSince(z, base, state.history, lo, keys, entries)
      modifies this
      ensures Valid() && base == old(base) && old(trace) <= trace
      ensures LanesKept(old(state), state, 0, QUERY_CONCURRENCY)
      ensures !w.shared ==> state == old(state)
      ensures result.Some? ==> FetchedSince(z, base, state.history, lo, keys + {key}, result.value)
      ensures result.None? ==> w.faulty
    {
      ghost var h := state.history;
      Others(w, 0, QUERY_CONCURRENCY);
      var down: bool := *;
      if down && w.faulty {
        return None;
      }
      FetchedStays(z, base, h, state.history, lo, keys, entries);
      TableIsReplay();
      FetchOne(z, base, state.history, lo, keys, entries, key);
      var found := GetDataKey(z, key);
      return Some(if found.Some? then entries + [found.value] else entries);
    }

    /** `get_data_key`: one row, its value decoded. */
    method GetDataKey(z: Zstd, key: string) returns (found: Option<DataEntry>)
      ensures key !in state.rows ==> found == None
      ensures key in state.rows ==> var row := state.rows[key];
        found == Some(DataEntry(key, Decoded(z, row.value), row.version, row.checksum, row.size))
    {
      if key !in state.rows {
        return None;
      }
      var row := state.rows[key];
      var value := Decompress(z, row.value);
      return Some(DataEntry(key, value, row.version, row.checksum, row.size));
    }

    /**
     The concurrent batch: up to sixteen saves in flight, advanced in any order. `order` tells which entry each
     result is for.
     */
    method SaveDataKeysBatch(w: Setting, cfg: Config, z: Zstd, entries: seq<Entry>)
      returns (result: Option<seq<SavedEntry>>, ghost order: seq<nat>)
      requires Valid() && |state.slots| >= QUERY_CONCURRENCY
      requires forall l: nat :: l < QUERY_CONCURRENCY ==> state.slots[l].Idle?
      modifies this
      ensures Valid() && base == old(base) && old(trace) <= trace && |state.slots| == old(|state.slots|)
      ensures forall l: nat :: l < QUERY_CONCURRENCY ==> state.slots[l].Idle?
      ensures BatchResult(w, old(state.rows), state.rows, Prepare(cfg, z, entries), result, order)
      ensures result.Some? ==> AllOnRecord(base, state.history, Prepare(cfg, z, entries), order, result.value)
    {
      if entries == [] {
        return Some([]), [];
      }
      var batch := [];
      for i := 0 to |entries|
        invariant batch == Prepare(cfg, z, entries[..i])
      {
        assert entries[..i + 1][..i] == entries[..i];
        if Keepable(cfg, entries[i]) {
          batch := batch + [PreparedEntry(cfg, z, entries[i])];
        }
      }
      assert entries[..|entries|] == entries;
      result, order := RunBatch(w, batch);
    }

    method RunBatch(w: Setting, batch: seq<Prepared>) returns (result: Option<seq<SavedEntry>>, ghost order: seq<nat>)
      requires Valid() && |state.slots| >= QUERY_CONCURRENCY
      requires forall l: nat :: l < QUERY_CONCURRENCY ==> state.slots[l].Idle?
      modifies this
      ensures Valid() && base == old(base) && old(trace) <= trace && |state.slots| == old(|state.slots|)
      ensures forall l: nat :: l < QUERY_CONCURRENCY ==> state.slots[l].Idle?
      ensures BatchResult(w, old(state.rows), state.rows, batch, result, order)
      ensures result.Some? ==> AllOnRecord(base, state.history, batch, order, result.value)
    {
      var p := Progress(0, map[], [], []);
      while p.started < |batch| || p.lanes != map[]
        invariant Valid() && base == old(base) && old(trace) <= trace && |state.slots| == old(|state.slots|)
        invariant OnTrack(state, old(state.rows), batch, p, ActsAlone(w, batch))
        invariant AllOnRecord(base, state.history, batch, p.order, p.saved)
        decreases Left(state, batch, p)
      {
        order := p.order;
        ghost var before, sofar := state, trace;
        var next := BatchStep(w, batch, p, old(state.rows), ActsAlone(w, batch));
        if next.None? {
          return None, order;
        }
        HistoryGrows(Start(base, |state.slots|), sofar, trace);
        AdvancedOnRecord(base, before.history, state.history, batch, p, next.value);
        p := next.value;
      }
      BatchCompletes(w, state, old(state.rows), batch, p.order, p.saved);
      return Some(p.saved), p.order;
    }

    /** The next entry takes a free lane, or one of those in flight is polled. */
    method BatchStep(w: Setting, batch: seq<Prepared>, p: Progress, ghost rows: Table, ghost alone: bool)
      returns (next: Option<Progress>)
      requires Valid() && OnTrack(state, rows, batch, p, alone)
      requires p.started < |batch| || p.lanes != map[]
      requires alone ==> !w.shared && !w.lossy
      modifies this
      ensures Valid() && base == old(base) && old(trace) <= trace && |state.slots| == old(|state.slots|)
      ensures next.Some? ==>
        && OnTrack(state, rows, batch, next.value, alone)
        && Advanced(base, state.history, batch, p, next.value)
        && Left(state, batch, next.value) < Left(old(state), batch, p)
      ensures next.None? ==>
        && (forall l: nat :: l < QUERY_CONCURRENCY ==> state.slots[l].Idle?)
        && (alone ==> w.faulty && PartlyOverlaid(rows, state.rows, batch))
    {
      if lane: nat :| lane < QUERY_CONCURRENCY && lane !in p.lanes && p.started < |batch| {
        var q := StartLane(batch, p, lane, rows, alone);
        return Some(q);
      }
      assert 0 in p.lanes || (p.started == |batch| && exists l :: l in p.lanes);
      var lane :| lane in p.lanes;
      LetOthersRun(w, batch, p, rows, alone);
      next := AdvanceLane(w, batch, p, lane, rows, alone);
      if next.None? {
        Abandon(rows, batch, p.lanes, alone);
      }
    }

    /** The next entry takes a free lane. */
    method StartLane(batch: seq<Prepared>, p: Progress, lane: nat, ghost rows: Table, ghost alone: bool)
      returns (q: Progress)
      requires Valid() && OnTrack(state, rows, batch, p, alone)
      requires lane < QUERY_CONCURRENCY && lane !in p.lanes && p.started < |batch|
      modifies this
      ensures Valid() && base == old(base) && old(trace) <= trace && |state.slots| == old(|state.slots|)
      ensures OnTrack(state, rows, batch, q, alone) && q.order == p.order && q.saved == p.saved
      ensures Left(state, batch, q) < Left(old(state), batch, p)
    {
      ghost var before := state;
      var call := Call(|state.calls|, batch[p.started].key, batch[p.started].payload, None);
      Atomic(Begin(lane, call));
      BeginKeepsUnderway(before, state, batch, p.started, p.lanes, p.order, p.saved, lane);
      LanesWorkUpdate(before.slots, lane, Busy(call, None, None, []), QUERY_CONCURRENCY);
      q := p.(started := p.started + 1, lanes := p.lanes[lane := p.started]);
    }

    /** Other requests run between two steps of the batch. */
    method LetOthersRun(w: Setting, ghost batch: seq<Prepared>, ghost p: Progress, ghost rows: Table, ghost alone: bool)
      requires Valid() && OnTrack(state, rows, batch, p, alone)
      requires alone ==> !w.shared
      modifies this
      ensures Valid() && base == old(base) && old(trace) <= trace && |state.slots| == old(|state.slots|)
      ensures OnTrack(state, rows, batch, p, alone)
      ensures Left(state, batch, p) == Left(old(state), batch, p)
    {
      ghost var before := state;
      Others(w, 0, QUERY_CONCURRENCY);
      OthersKeepTrack(before, state, rows, batch, p, alone);
    }

    /** One atomic step of one task; `None` when it failed. */
    method AdvanceLane(w: Setting, batch: seq<Prepared>, p: Progress, lane: nat, ghost rows: Table, ghost alone: bool)
      returns (next: Option<Progress>)
      requires Valid() && OnTrack(state, rows, batch, p, alone) && lane in p.lanes
      requires alone ==> !w.lossy
      modifies this
      ensures Valid() && base == old(base) && old(trace) <= trace && |state.slots| == old(|state.slots|)
      ensures next.Some? ==>
        && OnTrack(state, rows, batch, next.value, alone)
        && Advanced(base, state.history, batch, p, next.value)
        && Left(state, batch, next.value) < Left(old(state), batch, p)
      ensures next.None? ==> Dropped(state, rows, batch, p.lanes, alone) && (alone ==> w.faulty)
    {
      assert Working(state, lane, batch[p.lanes[lane]]);
      var down: bool := *;
      if down && w.faulty {
        if alone {
          AloneStops(state, rows, batch, p.started, p.lanes, p.order, p.saved);
        }
        next := None;
      } else if state.slots[lane].seen.None? {
        ReadInLane(batch, p, lane, rows, alone);
        next := Some(p);
      } else {
        next := WriteInLane(w, batch, p, lane, rows, alone);
      }
    }

    method ReadInLane(ghost batch: seq<Prepared>, ghost p: Progress, lane: nat, ghost rows: Table, ghost alone: bool)
      requires Valid() && OnTrack(state, rows, batch, p, alone) && lane in p.lanes
      requires Working(state, lane, batch[p.lanes[lane]]) && state.slots[lane].seen.None?
      modifies this
      ensures Valid() && base == old(base) && old(trace) <= trace && |state.slots| == old(|state.slots|)
      ensures OnTrack(state, rows, batch, p, alone)
      ensures Left(state, batch, p) < Left(old(state), batch, p)
    {
      ghost var before := state;
      Atomic(ReadRow(lane));
      LaneKeepsUnderway(before, state, batch, p.started, p.lanes, p.order, p.saved, lane);
      LanesWorkUpdate(before.slots, lane, state.slots[lane], QUERY_CONCURRENCY);
      if alone {
        ReadKeepsAlone(before, state, rows, batch, p.started, p.lanes, p.order, p.saved, lane);
      }
    }

    method WriteInLane(w: Setting, batch: seq<Prepared>, p: Progress, lane: nat, ghost rows: Table, ghost alone: bool)
      returns (next: Option<Progress>)
      requires Valid() && OnTrack(state, rows, batch, p, alone) && lane in p.lanes
      requires Working(state, lane, batch[p.lanes[lane]]) && state.slots[lane].seen.Some?
      requires alone ==> !w.lossy
      modifies this
      ensures Valid() && base == old(base) && old(trace) <= trace && |state.slots| == old(|state.slots|)
      ensures next.Some? ==>
        && OnTrack(state, rows, batch, next.value, alone)
        && Advanced(base, state.history, batch, p, next.value)
        && Left(state, batch, next.value) < Left(old(state), batch, p)
      ensures next.None? ==> Dropped(state, rows, batch, p.lanes, alone) && (alone ==> w.faulty)
    {
      ghost var before := state;
      var item := batch[p.lanes[lane]];
      if alone {
        AloneApplies(state, rows, batch, p.started, p.lanes, p.order, p.saved, lane);
      }
      var r, now := CompareAndSet(w, lane, state.slots[lane].call, |state.slots[lane].windows|);
      if r.Some? && r.value.Saved? {
        SavedIsOnRecord(lane, before.slots[lane].call, r.value);
        var e := SavedEntry(item.key, r.value.version, r.value.updatedAt, item.payload.checksum, item.payload.size);
        OneMoreOnRecord(base, state.history, batch, p, p.lanes[lane], e, r.value);
        FinishKeepsTrack(before, state, rows, batch, p, lane, e, alone);
        next := Some(Finished(p, lane, e));
      } else if state.slots[lane].Busy? {
        LanesWorkUpdate(before.slots, lane, state.slots[lane], QUERY_CONCURRENCY);
        LaneKeepsUnderway(before, state, batch, p.started, p.lanes, p.order, p.saved, lane);
        next := Some(p);
      } else {
        FailureDrops(before, state, rows, batch, p, lane, now, alone);
        next := None;
      }
    }

    /** What is left of a failed batch is dropped; statements already sent may still take effect. */
    method Abandon(ghost rows: Table, ghost batch: seq<Prepared>, ghost lanes: map<nat, nat>, ghost alone: bool)
      requires Valid() && Dropped(state, rows, batch, lanes, alone)
      modifies this
      ensures Valid() && base == old(base) && old(trace) <= trace && |state.slots| == old(|state.slots|)
      ensures forall l: nat :: l < QUERY_CONCURRENCY ==> state.slots[l].Idle?
      ensures alone ==> PartlyOverlaid(rows, state.rows, batch)
      ensures LateWrites(old(state.history), state.history, batch, lanes, 16)
    {
      for i := 0 to QUERY_CONCURRENCY
        invariant Valid() && base == old(base) && old(trace) <= trace && |state.slots| == old(|state.slots|)
        invariant LateWrites(old(state.history), state.history, batch, lanes, i)
        invariant forall l: nat :: l < i ==> state.slots[l].Idle?
        invariant Dropped(state, rows, batch, lanes, alone)
      {
        AbandonLane(rows, batch, lanes, alone, i, old(state.history));
      }
    }

    method AbandonLane(ghost rows: Table, ghost batch: seq<Prepared>, ghost lanes: map<nat, nat>, ghost alone: bool,
                       lane: nat, ghost h: seq<Event>)
      requires Valid() && Dropped(state, rows, batch, lanes, alone) && lane < QUERY_CONCURRENCY
      requires LateWrites(h, state.history, batch, lanes, lane)
      modifies this
      ensures Valid() && base == old(base) && old(trace) <= trace
      ensures |state.slots| == old(|state.slots|) && state.slots == old(state.slots)[lane := Idle]
      ensures Dropped(state, rows, batch, lanes, alone)
      ensures LateWrites(h, state.history, batch, lanes, lane + 1)
    {
      var sent: bool := *;
      if MayWrite(state, lane) && sent {
        var now: int := *;
        ghost var before := state;
        CasEffect(state, lane, now, Failed);
        OneLateWrite(state, h, rows, batch, lanes, lane, now, alone);
        Atomic(Cas(lane, now, Failed));
        LateWriteKeepsDropped(before, state, rows, batch, lanes, lane, now, alone);
      } else if state.slots[lane].Busy? {
        Atomic(Abort(lane));
      }
    }
  }
}
