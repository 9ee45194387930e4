/** Manifests: lists of entries that stand for a table without its values. */
module Manifest {
  import opened Records
  import opened Configuration

  datatype ManifestEntry = ManifestEntry(key: string, version: nat, checksum: string, size: nat, updatedAt: int)

  function EntryOf(key: string, row: Row): ManifestEntry {
    ManifestEntry(key, row.version, row.checksum, row.size, row.updatedAt)
  }

  function ManifestOf(rows: Table): map<string, ManifestEntry> {
    map k | k in rows :: EntryOf(k, rows[k])
  }

  /** A list collected into a map: of two entries for one key the last one wins. */
  function ByKey(entries: seq<ManifestEntry>): map<string, ManifestEntry> {
    if entries == [] then map[]
    else ByKey(entries[..|entries| - 1])[entries[|entries| - 1].key := entries[|entries| - 1]]
  }

  predicate UniqueKeys(entries: seq<ManifestEntry>) {
    forall i, j :: 0 <= i < j < |entries| ==> entries[i].key != entries[j].key
  }

  /** The list names every row of the table once, in any order. */
  predicate Enumerates(entries: seq<ManifestEntry>, rows: Table) {
    UniqueKeys(entries) && ByKey(entries) == ManifestOf(rows)
  }

  /** What a client may see while datastore keys are switched off. */
  function Visible(cfg: Config, rows: Table): Table {
    map k | k in rows && ("dataStore/" <= k ==> cfg.datastoreEnabled) :: rows[k]
  }

  function KeysIn(entries: seq<ManifestEntry>): set<string> {
    set e | e in entries :: e.key
  }

  lemma {:induction false} ByKeyEntries(entries: seq<ManifestEntry>)
    requires UniqueKeys(entries)
    ensures ByKey(entries).Keys == KeysIn(entries)
    ensures forall i :: 0 <= i < |entries| ==>
      entries[i].key in ByKey(entries) && ByKey(entries)[entries[i].key] == entries[i]
  {
    if entries != [] {
      var n := |entries| - 1;
      ByKeyEntries(entries[..n]);
      assert entries == entries[..n] + [entries[n]];
      assert forall i :: 0 <= i < n ==> entries[i] == entries[..n][i];
    }
  }

  predicate ListsKey(entries: seq<ManifestEntry>, key: string) {
    exists i :: 0 <= i < |entries| && entries[i].key == key
  }

  /** Said of the entries: one for each row, with its version, checksum, size and time stamp, and no others. */
  predicate ListsRows(entries: seq<ManifestEntry>, rows: Table) {
    && (forall i, j :: 0 <= i < j < |entries| ==> entries[i].key != entries[j].key)
    && (forall i :: 0 <= i < |entries| ==> var e := entries[i];
        && e.key in rows
        && var row := rows[e.key];
          e.version == row.version && e.checksum == row.checksum && e.size == row.size && e.updatedAt == row.updatedAt)
    && (forall k :: k in rows ==> ListsKey(entries, k))
  }

  lemma EnumeratesExactly(entries: seq<ManifestEntry>, rows: Table)
    ensures Enumerates(entries, rows) <==> ListsRows(entries, rows)
  {
    if UniqueKeys(entries) {
      ByKeyEntries(entries);
      assert forall k :: k in KeysIn(entries) <==> ListsKey(entries, k);
      if ListsRows(entries, rows) {
        assert ByKey(entries).Keys == rows.Keys;
        forall k | k in rows
          ensures ByKey(entries)[k] == EntryOf(k, rows[k])
        {
          var i :| 0 <= i < |entries| && entries[i].key == k;
        }
      }
      if Enumerates(entries, rows) {
        forall i | 0 <= i < |entries|
          ensures entries[i].key in rows && entries[i] == EntryOf(entries[i].key, rows[entries[i].key])
        {
          assert ByKey(entries)[entries[i].key] == ManifestOf(rows)[entries[i].key];
        }
        assert forall k :: k in rows ==> k in ByKey(entries);
      }
    }
  }

  lemma ByKeySnoc(entries: seq<ManifestEntry>, e: ManifestEntry)
    ensures ByKey(entries + [e]) == ByKey(entries)[e.key := e]
  {
    assert (entries + [e])[..|entries|] == entries;
  }

  lemma UniqueSnoc(entries: seq<ManifestEntry>, e: ManifestEntry)
    requires UniqueKeys(entries) && e.key !in ByKey(entries)
    ensures UniqueKeys(entries + [e])
  {
    ByKeyEntries(entries);
    assert forall i :: 0 <= i < |entries| ==> entries[i] in entries;
  }

  lemma UniquePrefix(entries: seq<ManifestEntry>, i: nat)
    requires UniqueKeys(entries) && i < |entries|
    ensures entries[i].key !in ByKey(entries[..i])
  {
    ByKeyEntries(entries[..i]);
    assert forall x :: x in entries[..i] ==> exists j :: 0 <= j < i && entries[j] == x;
  }

  function SizeSum(entries: seq<ManifestEntry>): nat {
    if entries == [] then 0 else SizeSum(entries[..|entries| - 1]) + entries[|entries| - 1].size
  }

  function EntrySizes(entries: map<string, ManifestEntry>): map<string, nat> {
    map k | k in entries :: entries[k].size
  }

  /** Adding up the list gives the total of the table. */
  lemma {:induction false} SizeSumIsTotal(entries: seq<ManifestEntry>)
    requires UniqueKeys(entries)
    ensures SizeSum(entries) == Sum(EntrySizes(ByKey(entries)))
  {
    if entries == [] {
      assert EntrySizes(ByKey(entries)) == map[];
    } else {
      var n := |entries| - 1;
      var e := entries[n];
      SizeSumIsTotal(entries[..n]);
      UniquePrefix(entries, n);
      var prior := EntrySizes(ByKey(entries[..n]));
      assert EntrySizes(ByKey(entries)) == prior[e.key := e.size];
      SumUpdate(prior, e.key, e.size);
    }
  }

  lemma ManifestTotal(entries: seq<ManifestEntry>, rows: Table)
    requires Enumerates(entries, rows)
    ensures SizeSum(entries) == Total(rows)
  {
    SizeSumIsTotal(entries);
    assert EntrySizes(ManifestOf(rows)) == Sizes(rows);
  }

  /** One entry, replaced when there is an update for its key. */
  function Fresher(e: ManifestEntry, updates: map<string, ManifestEntry>): ManifestEntry {
    if e.key in updates then updates[e.key] else e
  }

  predicate KeyedByKey(updates: map<string, ManifestEntry>) {
    forall k :: k in updates ==> updates[k].key == k
  }

  function Patched(entries: seq<ManifestEntry>, updates: map<string, ManifestEntry>): (r: seq<ManifestEntry>)
    ensures |r| == |entries|
  {
    if entries == [] then []
    else Patched(entries[..|entries| - 1], updates) + [Fresher(entries[|entries| - 1], updates)]
  }

  lemma {:induction false} PatchedKeys(entries: seq<ManifestEntry>, updates: map<string, ManifestEntry>)
    requires KeyedByKey(updates)
    ensures forall i :: 0 <= i < |entries| ==> Patched(entries, updates)[i].key == entries[i].key
  {
    if entries != [] {
      PatchedKeys(entries[..|entries| - 1], updates);
    }
  }

  /** Patching in place overlays the updates on the keys that the list has. */
  lemma {:induction false} PatchedByKey(entries: seq<ManifestEntry>, updates: map<string, ManifestEntry>)
    requires KeyedByKey(updates)
    ensures ByKey(Patched(entries, updates)).Keys == ByKey(entries).Keys
    ensures forall k :: k in ByKey(entries) ==>
      ByKey(Patched(entries, updates))[k] == if k in updates then updates[k] else ByKey(entries)[k]
  {
    if entries != [] {
      var n := |entries| - 1;
      PatchedByKey(entries[..n], updates);
      ByKeySnoc(Patched(entries[..n], updates), Fresher(entries[n], updates));
    }
  }

  /** How far the patching is: a prefix is patched, and the updates for its keys are used up. */
  predicate PartlyPatched(entries: seq<ManifestEntry>, updates: map<string, ManifestEntry>, i: nat,
                          final: seq<ManifestEntry>, rest: map<string, ManifestEntry>) {
    && i <= |entries| == |final|
    && final[..i] == Patched(entries[..i], updates) && final[i..] == entries[i..]
    && rest == updates - ByKey(entries[..i]).Keys
  }

  lemma PatchOne(entries: seq<ManifestEntry>, updates: map<string, ManifestEntry>, i: nat,
                 final: seq<ManifestEntry>, rest: map<string, ManifestEntry>)
    requires PartlyPatched(entries, updates, i, final, rest) && UniqueKeys(entries) && i < |entries|
    ensures final[i] == entries[i]
    ensures var e := entries[i];
      PartlyPatched(entries, updates, i + 1, final[i := if e.key in rest then rest[e.key] else e], rest - {e.key})
  {
    var e := entries[i];
    assert final[i] == final[i..][0] == entries[i..][0];
    UniquePrefix(entries, i);
    assert entries[..i + 1] == entries[..i] + [e];
    ByKeySnoc(entries[..i], e);
    assert e.key in rest <==> e.key in updates;
    var final' := final[i := Fresher(e, updates)];
    assert final'[..i + 1] == final[..i] + [Fresher(e, updates)];
    assert final'[i + 1..] == final[i..][1..] == entries[i + 1..];
    assert Patched(entries[..i + 1], updates) == Patched(entries[..i], updates) + [Fresher(e, updates)] by {
      assert entries[..i + 1][..i] == entries[..i];
    }
  }

  /** `for entry in final_manifest.iter_mut()`: what is left over are the updates for new keys. */
  method ReplaceInPlace(entries: seq<ManifestEntry>, updates: map<string, ManifestEntry>)
    returns (final: seq<ManifestEntry>, rest: map<string, ManifestEntry>)
    requires KeyedByKey(updates) && UniqueKeys(entries)
    ensures final == Patched(entries, updates)
    ensures rest == updates - ByKey(entries).Keys
  {
    final, rest := entries, updates;
    for i := 0 to |entries|
      invariant PartlyPatched(entries, updates, i, final, rest)
    {
      PatchOne(entries, updates, i, final, rest);
      var key := final[i].key;
      if key in rest {
        final := final[i := rest[key]];
        rest := rest - {key};
      } else {
        assert final[i := entries[i]] == final && rest - {key} == rest;
      }
    }
    assert entries[..|entries|] == entries && final[..|final|] == final;
  }

  lemma MoveOne(a: map<string, ManifestEntry>, rest: map<string, ManifestEntry>, k: string)
    requires k in rest && rest.Keys !! a.Keys
    ensures a[k := rest[k]] + (rest - {k}) == a + rest
    ensures (rest - {k}).Keys !! a[k := rest[k]].Keys
    ensures |rest - {k}| < |rest|
  {
    assert (rest - {k}).Keys == rest.Keys - {k};
  }

  /** `final_manifest.extend(…)`, in any order. */
  method AppendNew(entries: seq<ManifestEntry>, updates: map<string, ManifestEntry>) returns (final: seq<ManifestEntry>)
    requires KeyedByKey(updates) && UniqueKeys(entries)
    requires updates.Keys !! ByKey(entries).Keys
    ensures UniqueKeys(final)
    ensures ByKey(final) == ByKey(entries) + updates
  {
    final := entries;
    var rest := updates;
    while rest != map[]
      invariant UniqueKeys(final) && KeyedByKey(rest)
      invariant rest.Keys !! ByKey(final).Keys
      invariant ByKey(final) + rest == ByKey(entries) + updates
      decreases |rest|
    {
      var k :| k in rest;
      UniqueSnoc(final, rest[k]);
      ByKeySnoc(final, rest[k]);
      MoveOne(ByKey(final), rest, k);
      final := final + [rest[k]];
      rest := rest - {k};
    }
  }

  function Unblocked(cfg: Config, m: map<string, ManifestEntry>): map<string, ManifestEntry> {
    map k | k in m && !Blocked(cfg, k) :: m[k]
  }

  lemma UnblockedSnoc(cfg: Config, m: map<string, ManifestEntry>, e: ManifestEntry)
    ensures Unblocked(cfg, m[e.key := e]) == if Blocked(cfg, e.key) then Unblocked(cfg, m) else Unblocked(cfg, m)[e.key := e]
  {
  }

  /** `final_manifest.retain(…)`. */
  method Retain(cfg: Config, entries: seq<ManifestEntry>) returns (kept: seq<ManifestEntry>)
    requires UniqueKeys(entries)
    ensures UniqueKeys(kept)
    ensures ByKey(kept) == Unblocked(cfg, ByKey(entries))
  {
    kept := [];
    for i := 0 to |entries|
      invariant UniqueKeys(kept)
      invariant ByKey(kept) == Unblocked(cfg, ByKey(entries[..i]))
    {
      var e := entries[i];
      assert entries[..i + 1] == entries[..i] + [e];
      ByKeySnoc(entries[..i], e);
      UniquePrefix(entries, i);
      UnblockedSnoc(cfg, ByKey(entries[..i]), e);
      if !Blocked(cfg, e.key) {
        UniqueSnoc(kept, e);
        ByKeySnoc(kept, e);
        kept := kept + [e];
      }
    }
    assert entries[..|entries|] == entries;
  }

  /** The manifest in memory, brought up to date and cut down to what the client may see. */
  method PatchManifest(cfg: Config, entries: seq<ManifestEntry>, updates: map<string, ManifestEntry>)
    returns (final: seq<ManifestEntry>)
    requires UniqueKeys(entries) && KeyedByKey(updates)
    ensures UniqueKeys(final)
    ensures ByKey(final) == Unblocked(cfg, ByKey(entries) + updates)
  {
    var rest;
    final, rest := ReplaceInPlace(entries, updates);
    PatchedKeys(entries, updates);
    PatchedByKey(entries, updates);
    assert ByKey(final) + rest == ByKey(entries) + updates;
    final := AppendNew(final, rest);
    final := Retain(cfg, final);
  }
}
