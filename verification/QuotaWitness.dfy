/** The quota bound is reached: a run in which every save passes its check before any of them writes. */
module QuotaWitness {
  import opened Wrappers
  import opened Records
  import opened KeyNames
  import opened StoreProtocol
  import opened QuotaBound

  /** One save a lane: distinct keys without a row, valid names, values of `m` bytes. */
  datatype Save = Save(key: string, payload: Payload)

  predicate Fits(saves: seq<Save>, rows: Table, m: nat) {
    && (forall i, j :: 0 <= i < j < |saves| ==> saves[i].key != saves[j].key)
    && (forall i :: 0 <= i < |saves| ==>
          && saves[i].key !in rows && ValidateKey(saves[i].key).Ok? && saves[i].payload.size == m)
  }

  function CallAt(saves: seq<Save>, i: nat, limit: int): Call
    requires i < |saves|
  {
    Call(i, saves[i].key, saves[i].payload, Some(limit))
  }

  /** Every save starts and reads while the sum is still `total`. */
  function Opening(saves: seq<Save>, n: nat, total: int, limit: int): seq<Action>
    requires n <= |saves|
  {
    if n == 0 then []
    else Opening(saves, n - 1, total, limit)
         + [Begin(n - 1, CallAt(saves, n - 1, limit))] + [ReadTotal(n - 1, total)] + [ReadRow(n - 1)]
  }

  /** Then every save writes. */
  function Closing(n: nat): seq<Action> {
    if n == 0 then [] else Closing(n - 1) + [Cas(n - 1, 0, Faithful)]
  }

  predicate Poised(slot: Slot, call: Call, total: int) {
    && slot.Busy? && slot.call == call
    && slot.total == Some(total) && slot.seen.Some? && slot.seen.value.view == None
  }

  ghost predicate Opened(s: State, rows: Table, saves: seq<Save>, n: nat, limit: int) {
    && s.rows == rows && |s.slots| >= |saves| && |s.calls| == n <= |saves|
    && (forall i :: 0 <= i < n ==> Poised(s.slots[i], CallAt(saves, i, limit), Total(rows)))
    && (forall i :: n <= i < |saves| ==> s.slots[i].Idle?)
  }

  lemma OpenOne(s: State, rows: Table, saves: seq<Save>, n: nat, limit: int)
    requires Opened(s, rows, saves, n, limit) && n < |saves| && saves[n].key !in rows
    ensures Opened(Step(Step(Step(s, Begin(n, CallAt(saves, n, limit))), ReadTotal(n, Total(rows))), ReadRow(n)),
                   rows, saves, n + 1, limit)
  {
    var call := CallAt(saves, n, limit);
    var s1 := Step(s, Begin(n, call));
    assert s1.slots[n] == Busy(call, None, None, []);
    var s2 := Step(s1, ReadTotal(n, Total(rows)));
    assert s2.slots == s1.slots[n := Busy(call, Some(Total(rows)), None, [])];
  }

  lemma OpeningStarts(rows: Table, lanes: nat, saves: seq<Save>, limit: int)
    requires lanes >= |saves|
    ensures Opened(Run(Start(rows, lanes), Opening(saves, 0, Total(rows), limit)), rows, saves, 0, limit)
  {
    assert Run(Start(rows, lanes), []) == Start(rows, lanes);
  }

  lemma OpeningMore(s: State, rows: Table, saves: seq<Save>, n: nat, limit: int)
    requires n < |saves| && saves[n].key !in rows
    requires Opened(Run(s, Opening(saves, n, Total(rows), limit)), rows, saves, n, limit)
    ensures Opened(Run(s, Opening(saves, n + 1, Total(rows), limit)), rows, saves, n + 1, limit)
  {
    var acts := Opening(saves, n, Total(rows), limit);
    ThreeMore(s, acts, Begin(n, CallAt(saves, n, limit)), ReadTotal(n, Total(rows)), ReadRow(n));
    OpenOne(Run(s, acts), rows, saves, n, limit);
  }

  ghost predicate OpenedAfter(rows: Table, lanes: nat, saves: seq<Save>, n: nat, limit: int)
    requires n <= |saves|
  {
    Opened(Run(Start(rows, lanes), Opening(saves, n, Total(rows), limit)), rows, saves, n, limit)
  }

  lemma OpeningRuns(rows: Table, lanes: nat, saves: seq<Save>, limit: int)
    requires |saves| <= lanes && forall i :: 0 <= i < |saves| ==> saves[i].key !in rows
    ensures OpenedAfter(rows, lanes, saves, |saves|, limit)
  {
    OpeningStarts(rows, lanes, saves, limit);
    var n := 0;
    while n < |saves|
      invariant n <= |saves| && OpenedAfter(rows, lanes, saves, n, limit)
    {
      OpeningMore(Start(rows, lanes), rows, saves, n, limit);
      n := n + 1;
    }
  }

  /** Half way through: lanes from `n` on are still poised, and their keys are free. */
  ghost predicate Closed(t: State, rows: Table, saves: seq<Save>, n: nat, limit: int, m: nat) {
    && Total(t.rows) == Total(rows) + Times(n, m)
    && (forall i :: n <= i < |saves| ==> saves[i].key !in t.rows)
    && |t.slots| >= |saves|
    && forall i :: n <= i < |saves| ==> Poised(t.slots[i], CallAt(saves, i, limit), Total(rows))
  }

  lemma CloseOne(t: State, rows: Table, saves: seq<Save>, n: nat, limit: int, m: nat)
    requires n < |saves| && Fits(saves, rows, m)
    requires Closed(t, rows, saves, n, limit, m) && Total(rows) + m <= limit
    ensures Closed(Step(t, Cas(n, 0, Faithful)), rows, saves, n + 1, limit, m)
  {
    assert Poised(t.slots[n], CallAt(saves, n, limit), Total(rows));
    var key, row := saves[n].key, Written(None, saves[n].payload, 0);
    TotalWrite(t.rows, key, row);
    var t' := Step(t, Cas(n, 0, Faithful));
    assert t'.rows == t.rows[key := row];
    assert t'.slots == t.slots[n := Idle];
  }

  lemma OpenedCanClose(s: State, rows: Table, saves: seq<Save>, limit: int, m: nat)
    requires Opened(s, rows, saves, |saves|, limit) && Fits(saves, rows, m)
    ensures Closed(s, rows, saves, 0, limit, m)
  {
  }

  lemma ClosingMore(s: State, rows: Table, saves: seq<Save>, n: nat, limit: int, m: nat)
    requires n < |saves| && Fits(saves, rows, m) && Total(rows) + m <= limit
    requires Closed(Run(s, Closing(n)), rows, saves, n, limit, m)
    ensures Closed(Run(s, Closing(n + 1)), rows, saves, n + 1, limit, m)
  {
    var t := Run(s, Closing(n));
    RunSnoc(s, Closing(n), Cas(n, 0, Faithful));
    CloseOne(t, rows, saves, n, limit, m);
    assert Closing(n + 1) == Closing(n) + [Cas(n, 0, Faithful)];
  }

  ghost predicate ClosedAfter(s: State, rows: Table, saves: seq<Save>, n: nat, limit: int, m: nat) {
    Closed(Run(s, Closing(n)), rows, saves, n, limit, m)
  }

  lemma ClosingRuns(s: State, rows: Table, saves: seq<Save>, limit: int, m: nat)
    requires Closed(s, rows, saves, 0, limit, m)
    requires Fits(saves, rows, m) && Total(rows) + m <= limit
    ensures ClosedAfter(s, rows, saves, |saves|, limit, m)
  {
    assert Run(s, Closing(0)) == s;
    var n := 0;
    while n < |saves|
      invariant n <= |saves| && ClosedAfter(s, rows, saves, n, limit, m)
    {
      ClosingMore(s, rows, saves, n, limit, m);
      n := n + 1;
    }
  }

  lemma {:induction false} WitnessIsQuotaRun(rows: Table, saves: seq<Save>, n: nat, total: int, limit: int, m: nat)
    requires n <= |saves| && Fits(saves, rows, m)
    ensures QuotaRun(Opening(saves, n, total, limit), limit, m)
    ensures QuotaRun(Closing(n), limit, m)
  {
    if n > 0 {
      WitnessIsQuotaRun(rows, saves, n - 1, total, limit, m);
    }
  }

  lemma ReachedByTimes(rows: Table, lanes: nat, saves: seq<Save>, limit: int, m: nat) returns (acts: seq<Action>)
    requires |saves| <= lanes && Fits(saves, rows, m)
    requires Total(rows) + m <= limit
    ensures QuotaRun(acts, limit, m)
    ensures Total(Run(Start(rows, lanes), acts).rows) == Total(rows) + Times(|saves|, m)
  {
    var n := |saves|;
    var opening := Opening(saves, n, Total(rows), limit);
    acts := opening + Closing(n);
    WitnessIsQuotaRun(rows, saves, n, Total(rows), limit, m);
    OpeningRuns(rows, lanes, saves, limit);
    OpenedCanClose(Run(Start(rows, lanes), opening), rows, saves, limit, m);
    ClosingRuns(Run(Start(rows, lanes), opening), rows, saves, limit, m);
    RunConcat(Start(rows, lanes), opening, Closing(n));
  }

  /**
   From any table that leaves room for one value, any saves of that size on fresh valid keys can all pass their
   check and then all be written: with a lane for each, they pass the limit by all values but one.
   */
  lemma QuotaBoundIsReached(rows: Table, lanes: nat, saves: seq<Save>, limit: int, m: nat) returns (acts: seq<Action>)
    requires 0 < |saves| <= lanes && Fits(saves, rows, m)
    requires Total(rows) == limit - m
    ensures QuotaRun(acts, limit, m)
    ensures Total(Run(Start(rows, lanes), acts).rows) == limit + (|saves| - 1) * m
  {
    acts := ReachedByTimes(rows, lanes, saves, limit, m);
    TimesIsProduct(|saves| - 1, m);
  }

  // When the quota itself holds

  /** No run of this many lanes takes a total from within the limit above it. */
  ghost predicate QuotaKept(lanes: nat, limit: int, m: nat) {
    forall rows: Table, acts: seq<Action> :: Total(rows) <= limit && QuotaRun(acts, limit, m) ==>
      Total(Run(Start(rows, lanes), acts).rows) <= limit
  }

  /** With a limit of zero only empty values are ever stored. */
  predicate AllEmpty(s: State) {
    && (forall k :: k in s.rows ==> s.rows[k].size == 0)
    && (forall i :: 0 <= i < |s.slots| && s.slots[i].Busy? ==>
          && s.slots[i].call.limit == Some(0)
          && (s.slots[i].total.Some? ==> s.slots[i].total.value >= 0)
          && (s.slots[i].seen.Some? ==> SeenSize(s.slots[i].seen.value.view) == 0))
  }

  lemma AllEmptyStep(s: State, a: Action, m: nat)
    requires AllEmpty(s) && (a.Begin? ==> QuotaCall(a.call, 0, m))
    ensures AllEmpty(Step(s, a))
  {
    if Enabled(s, a) && a.Cas? {
      CasShape(s, a.slot, a.now, a.reply);
    }
  }

  lemma {:induction false} AllEmptyRun(s: State, acts: seq<Action>, m: nat)
    requires AllEmpty(s) && QuotaRun(acts, 0, m)
    ensures AllEmpty(Run(s, acts))
  {
    if acts != [] {
      var n := |acts| - 1;
      assert acts[n] in acts;
      assert forall b :: b in acts[..n] ==> b in acts;
      AllEmptyRun(s, acts[..n], m);
      AllEmptyStep(Run(s, acts[..n]), acts[n], m);
    }
  }

  lemma {:induction false} SumOfZeros(m: map<string, nat>)
    ensures Sum(m) == 0 <==> forall k :: k in m ==> m[k] == 0
    decreases |m|
  {
    if m != map[] {
      var p := Pick(m);
      SumOfZeros(m - {p});
      if forall k :: k in m - {p} ==> (m - {p})[k] == 0 {
        assert m[p] == 0 ==> forall k :: k in m && k != p ==> k in m - {p};
      }
    }
  }

  lemma ZeroLimitKept(rows: Table, lanes: nat, acts: seq<Action>, m: nat)
    requires Total(rows) <= 0 && QuotaRun(acts, 0, m)
    ensures Total(Run(Start(rows, lanes), acts).rows) <= 0
  {
    SumOfZeros(Sizes(rows));
    assert forall k :: k in rows ==> k in Sizes(rows) && rows[k].size == Sizes(rows)[k];
    AllEmptyRun(Start(rows, lanes), acts, m);
    SumOfZeros(Sizes(Run(Start(rows, lanes), acts).rows));
  }

  function Filled(key: string, size: nat): Save {
    Save(key, Payload(seq(size, _ => 0), key, size))
  }

  /** Two saves on a table with room for one of them. */
  lemma TwoLanesOverrun(lanes: nat, limit: int, m: nat)
    requires lanes >= 2 && 0 < limit && 0 < m
    ensures !QuotaKept(lanes, limit, m)
  {
    var size: nat := if limit < m then limit else m;
    var row := Written(None, Filled("c", limit - size).payload, 0);
    var rows: Table := map["c" := row];
    TotalWrite(map[], "c", row);
    assert Sizes(map[]) == map[] && map[]["c" := row] == rows;
    var saves := [Filled("a", size), Filled("b", size)];
    ShortNames();
    assert Fits(saves, rows, size);
    var acts := QuotaBoundIsReached(rows, lanes, saves, limit, size);
    assert Total(rows) <= limit && QuotaRun(acts, limit, m);
    assert Total(Run(Start(rows, lanes), acts).rows) > limit;
  }

  /** The quota itself holds in every run exactly with one save at a time, or when nothing can be saved. */
  lemma QuotaKeptExactly(lanes: nat, limit: int, m: nat)
    requires lanes > 0
    ensures QuotaKept(lanes, limit, m) <==> lanes == 1 || m == 0 || limit <= 0
  {
    if lanes > 1 && m > 0 && limit > 0 {
      TwoLanesOverrun(lanes, limit, m);
    } else {
      forall rows: Table, acts: seq<Action> | Total(rows) <= limit && QuotaRun(acts, limit, m)
        ensures Total(Run(Start(rows, lanes), acts).rows) <= limit
      {
        if limit > 0 {
          BoundByTimes(rows, lanes, acts, limit, m);
          if m == 0 {
            TimesIsProduct(lanes - 1, m);
          }
        } else {
          ZeroLimitKept(rows, lanes, acts, m);
        }
      }
    }
  }
}
