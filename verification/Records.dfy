/**
 The stored entities: the rows of one user's `data` partition, and the sums over them.

 A key is the sequence of its UTF-8 bytes, one `char` a byte.
 */
module Records {
  import opened Wrappers

  newtype Byte = x: int | 0 <= x < 0x100

  type Bytes = seq<Byte>

  /** What a writer brings: the encoded value, its checksum and the size of the value before encoding. */
  datatype Payload = Payload(value: Bytes, checksum: string, size: nat)

  /** A row of the `data` table; the partition key (the user) is fixed. */
  datatype Row = Row(value: Bytes, version: nat, checksum: string, size: nat, createdAt: int, updatedAt: int)

  /** One partition: the clustering key is the primary key, so a map. */
  type Table = map<string, Row>

  function Lookup<V>(m: map<string, V>, key: string): Option<V> {
    if key in m then Some(m[key]) else None
  }

  /** The version of a key, 0 when it has no row. */
  function VersionOf(rows: Table, key: string): nat {
    if key in rows then rows[key].version else 0
  }

  function SizeOf(rows: Table, key: string): nat {
    if key in rows then rows[key].size else 0
  }

  /** The row that an applied write leaves: version 1 on a fresh key, one more than the old version otherwise. */
  function Written(prior: Option<Row>, p: Payload, now: int): Row {
    match prior
    case None => Row(p.value, 1, p.checksum, p.size, now, now)
    case Some(r) => Row(p.value, r.version + 1, p.checksum, p.size, r.createdAt, now)
  }

  function Sizes(rows: Table): map<string, nat> {
    map k | k in rows :: rows[k].size
  }

  ghost function Pick(m: map<string, nat>): (k: string)
    requires m != map[]
    ensures k in m
  {
    var k :| k in m; k
  }

  /** The sum of all values of a map. */
  ghost function Sum(m: map<string, nat>): nat
    decreases |m|
  {
    if m == map[] then 0 else m[Pick(m)] + Sum(m - {Pick(m)})
  }

  /** `SUM(size_bytes)` over a partition. */
  ghost function Total(rows: Table): nat {
    Sum(Sizes(rows))
  }

  lemma {:induction false} SumRemove(m: map<string, nat>, k: string)
    requires k in m
    ensures Sum(m) == m[k] + Sum(m - {k})
    decreases |m|
  {
    var p := Pick(m);
    if p != k {
      SumRemove(m - {p}, k);
      SumRemove(m - {k}, p);
      assert m - {p} - {k} == m - {k} - {p};
    }
  }

  lemma SumUpdate(m: map<string, nat>, k: string, v: nat)
    ensures Sum(m[k := v]) == Sum(m) - (if k in m then m[k] else 0) + v
  {
    SumRemove(m[k := v], k);
    assert m[k := v] - {k} == m - {k};
    if k in m {
      SumRemove(m, k);
    } else {
      assert m - {k} == m;
    }
  }

  lemma TotalWrite(rows: Table, k: string, r: Row)
    ensures Total(rows[k := r]) == Total(rows) - SizeOf(rows, k) + r.size
  {
    SumUpdate(Sizes(rows), k, r.size);
    assert Sizes(rows[k := r]) == Sizes(rows)[k := r.size];
  }

  lemma TotalRemove(rows: Table, k: string)
    ensures Total(rows - {k}) == Total(rows) - SizeOf(rows, k)
  {
    if k in rows {
      SumRemove(Sizes(rows), k);
      assert Sizes(rows - {k}) == Sizes(rows) - {k};
    } else {
      assert rows - {k} == rows;
    }
  }
}
