/** What callers of the store may rely on, over every run from any table. */
module StoreTheorems {
  import opened Records
  import opened StoreProtocol
  import opened StoreHistory

  function CountWrites(h: seq<Event>, key: string, lo: nat, hi: nat): nat
    requires lo <= hi <= |h|
  {
    if lo == hi then 0
    else CountWrites(h, key, lo, hi - 1) + (if Touches(h[hi - 1], key) && h[hi - 1].Wrote? then 1 else 0)
  }

  /** Events `lo` to `hi - 1` belong to one epoch of the key: none of them deletes it. */
  predicate OneEpoch(h: seq<Event>, key: string, lo: nat, hi: nat) {
    hi <= |h| && forall p :: lo <= p < hi ==> !Deletes(h[p], key)
  }

  /** One event of an epoch. */
  lemma VersionStep(base: Table, h: seq<Event>, calls: seq<Call>, key: string, p: nat)
    requires HistoryOk(base, h, calls) && p < |h| && !Deletes(h[p], key)
    ensures VersionOf(Replay(base, h[..p + 1]), key)
         == VersionOf(Replay(base, h[..p]), key) + if Touches(h[p], key) && h[p].Wrote? then 1 else 0
  {
    assert h[..p + 1][..p] == h[..p];
    if h[p].Wrote? {
      assert WriteOk(base, h, calls, p);
    }
  }

  lemma {:induction false} VersionCountsWrites(base: Table, h: seq<Event>, calls: seq<Call>, key: string, lo: nat, hi: nat)
    requires HistoryOk(base, h, calls)
    requires lo <= hi && OneEpoch(h, key, lo, hi)
    ensures VersionOf(Replay(base, h[..hi]), key)
         == VersionOf(Replay(base, h[..lo]), key) + CountWrites(h, key, lo, hi)
    decreases hi
  {
    if lo < hi {
      VersionCountsWrites(base, h, calls, key, lo, hi - 1);
      VersionStep(base, h, calls, key, hi - 1);
    }
  }

  /**
   The applied writes of a delete-free epoch carry consecutive versions, one for every write, lost replies
   included: the next version is the one at the start of the epoch plus the number of writes so far plus one.
   */
  lemma VersionsAreConsecutive(base: Table, lanes: nat, acts: seq<Action>, key: string, lo: nat, p: nat)
    requires var h := Run(Start(base, lanes), acts).history;
      lo <= p < |h| && OneEpoch(h, key, lo, p) && h[p].Wrote? && h[p].key == key
    ensures var h := Run(Start(base, lanes), acts).history;
      h[p].row.version == VersionOf(Replay(base, h[..lo]), key) + CountWrites(h, key, lo, p) + 1
  {
    var s := Run(Start(base, lanes), acts);
    InvRun(base, lanes, acts);
    VersionCountsWrites(base, s.history, s.calls, key, lo, p);
    assert WriteOk(base, s.history, s.calls, p);
  }

  /** After a delete, and on a key that was never there, versions start again: 1, 2, 3, … */
  lemma EpochStartsAtOne(base: Table, lanes: nat, acts: seq<Action>, key: string, lo: nat, p: nat)
    requires var h := Run(Start(base, lanes), acts).history;
      lo <= p < |h| && OneEpoch(h, key, lo, p) && h[p].Wrote? && h[p].key == key
    requires var h := Run(Start(base, lanes), acts).history;
      if lo == 0 then key !in base else Deletes(h[lo - 1], key)
    ensures var h := Run(Start(base, lanes), acts).history;
      h[p].row.version == CountWrites(h, key, lo, p) + 1
  {
    VersionsAreConsecutive(base, lanes, acts, key, lo, p);
    var h := Run(Start(base, lanes), acts).history;
    if lo > 0 {
      assert h[..lo][..lo - 1] == h[..lo - 1];
    }
  }

  lemma {:induction false} CountGrows(h: seq<Event>, key: string, lo: nat, p: nat, q: nat)
    requires lo <= p < q <= |h| && h[p].Wrote? && h[p].key == key
    ensures CountWrites(h, key, lo, p) < CountWrites(h, key, lo, q)
    decreases q
  {
    if p + 1 < q {
      CountGrows(h, key, lo, p, q - 1);
    }
  }

  /** No version is returned to two callers of one key within an epoch. */
  lemma ReturnedVersionsDiffer(base: Table, lanes: nat, acts: seq<Action>, c: nat, d: nat)
    requires var s := Run(Start(base, lanes), acts);
      && c in s.outcomes && d in s.outcomes && c != d
      && s.outcomes[c].Saved? && s.outcomes[d].Saved?
      && c < |s.calls| && d < |s.calls| && s.calls[c].key == s.calls[d].key
      && s.outcomes[c].at <= s.outcomes[d].at
      && OneEpoch(s.history, s.calls[c].key, s.outcomes[c].at, s.outcomes[d].at)
    ensures var s := Run(Start(base, lanes), acts);
      s.outcomes[c].version < s.outcomes[d].version
  {
    var s := Run(Start(base, lanes), acts);
    InvRun(base, lanes, acts);
    var key, p, q := s.calls[c].key, s.outcomes[c].at, s.outcomes[d].at;
    assert OutcomeOk(s.history, c, s.calls[c], s.outcomes[c]);
    assert OutcomeOk(s.history, d, s.calls[d], s.outcomes[d]);
    VersionsAreConsecutive(base, lanes, acts, key, p, p);
    VersionsAreConsecutive(base, lanes, acts, key, p, q);
    CountGrows(s.history, key, p, p, q);
  }

  /** When a save returned a version, the row at that version held the caller's bytes, checksum and size. */
  lemma ReturnedRowIsCallers(base: Table, lanes: nat, acts: seq<Action>, c: nat)
    requires var s := Run(Start(base, lanes), acts); c in s.outcomes && s.outcomes[c].Saved?
    ensures var s := Run(Start(base, lanes), acts);
      var o := s.outcomes[c];
      && c < |s.calls| && o.at < |s.history|
      && var table := Replay(base, s.history[..o.at + 1]);
        && s.calls[c].key in table
        && var row := table[s.calls[c].key];
          && row.version == o.version && row.updatedAt == o.updatedAt
          && Payload(row.value, row.checksum, row.size) == s.calls[c].payload
  {
    var s := Run(Start(base, lanes), acts);
    InvRun(base, lanes, acts);
    var p := s.outcomes[c].at;
    assert OutcomeOk(s.history, c, s.calls[c], s.outcomes[c]);
    assert WriteOk(base, s.history, s.calls, p);
    assert s.history[..p + 1][..p] == s.history[..p];
  }

  /** The first event on the key from `lo` on is a write with this time stamp. */
  predicate FirstWriteAt(h: seq<Event>, key: string, lo: nat, hi: nat, now: int) {
    exists p :: lo <= p < hi && p < |h| && IsFirst(h, key, lo, p) && h[p].row.updatedAt == now
  }

  predicate IsFirst(h: seq<Event>, key: string, lo: nat, p: nat) {
    p < |h| && h[p].Wrote? && h[p].key == key && forall q :: lo <= q < p ==> !Touches(h[q], key)
  }

  /** The creation time of a key from `lo` to `n`, by its row at `lo` or by its first write. */
  predicate CreatedAs(base: Table, h: seq<Event>, key: string, lo: nat, n: nat)
    requires lo <= n <= |h|
  {
    var before, after := Replay(base, h[..lo]), Replay(base, h[..n]);
    if key in before then key in after && after[key].createdAt == before[key].createdAt
    else if key in after then FirstWriteAt(h, key, lo, n, after[key].createdAt)
    else forall q :: lo <= q < n ==> !Touches(h[q], key)
  }

  lemma CreationStep(base: Table, h: seq<Event>, calls: seq<Call>, key: string, lo: nat, p: nat)
    requires HistoryOk(base, h, calls) && lo <= p < |h| && !Deletes(h[p], key)
    requires CreatedAs(base, h, key, lo, p)
    ensures CreatedAs(base, h, key, lo, p + 1)
  {
    var start, before, after := Replay(base, h[..lo]), Replay(base, h[..p]), Replay(base, h[..p + 1]);
    assert h[..p + 1][..p] == h[..p];
    if !Touches(h[p], key) {
      assert Lookup(after, key) == Lookup(before, key);
      if key !in start && key in before {
        var q :| lo <= q < p && IsFirst(h, key, lo, q) && h[q].row.updatedAt == before[key].createdAt;
        assert IsFirst(h, key, lo, q);
      }
    } else {
      assert WriteOk(base, h, calls, p);
      assert after[key] == h[p].row;
      if key !in start && key !in before {
        assert IsFirst(h, key, lo, p);
      } else if key !in start {
        var q :| lo <= q < p && IsFirst(h, key, lo, q) && h[q].row.updatedAt == before[key].createdAt;
        assert IsFirst(h, key, lo, q);
      }
    }
  }

  /**
   While a key is not deleted, its row keeps the creation time that it had at the start, and if it had no row then,
   the creation time is the time stamp of the first write.
   */
  lemma CreationTimeKept(base: Table, lanes: nat, acts: seq<Action>, key: string, lo: nat, n: nat)
    requires lo <= n && OneEpoch(Run(Start(base, lanes), acts).history, key, lo, n)
    ensures CreatedAs(base, Run(Start(base, lanes), acts).history, key, lo, n)
  {
    var s := Run(Start(base, lanes), acts);
    InvRun(base, lanes, acts);
    for p := lo to n
      invariant CreatedAs(base, s.history, key, lo, p)
    {
      CreationStep(base, s.history, s.calls, key, lo, p);
    }
  }

  // Bounded retry

  predicate LosesReplies(acts: seq<Action>) {
    exists a :: a in acts && a.Cas? && a.reply.ReportedNotApplied?
  }

  /** Without lost replies every write on record belongs to a call that is over, and no call wrote twice. */
  predicate WritersDone(s: State) {
    WritersOver(s.history, s.outcomes)
  }

  predicate Over(outcomes: map<nat, Outcome>, id: nat) {
    id in outcomes && (outcomes[id].Saved? || outcomes[id].DbError?)
  }

  predicate WritersOver(h: seq<Event>, outcomes: map<nat, Outcome>) {
    && (forall p :: 0 <= p < |h| && h[p].Wrote? ==> Over(outcomes, h[p].call))
    && (forall p, q :: 0 <= p < q < |h| && h[p].Wrote? && h[q].Wrote? ==> h[p].call != h[q].call)
  }

  lemma OneMoreWriter(h: seq<Event>, h': seq<Event>, outcomes: map<nat, Outcome>, outcomes': map<nat, Outcome>, id: nat)
    requires WritersOver(h, outcomes) && id !in outcomes
    requires forall c :: c in outcomes ==> c in outcomes' && outcomes'[c] == outcomes[c]
    requires |h'| == |h| + 1 && h <= h' && h'[|h|].Wrote? && h'[|h|].call == id && Over(outcomes', id)
    ensures WritersOver(h', outcomes')
  {
  }

  lemma WritersDoneStep(base: Table, s: State, a: Action)
    requires Inv(base, s) && WritersDone(s)
    requires a.Cas? ==> !a.reply.ReportedNotApplied?
    ensures WritersDone(Step(s, a))
  {
    if Enabled(s, a) {
      var t := Step(s, a);
      if a.Cas? {
        WritersDoneCas(base, s, a.slot, a.now, a.reply);
      } else if a.Refuse? || a.Abort? {
        assert s.slots[a.slot].call.id !in s.outcomes;
        assert forall c :: c in s.outcomes ==> c in t.outcomes && t.outcomes[c] == s.outcomes[c];
      }
    }
  }

  /** What a compare-and-set leaves on record. */
  lemma CasOnRecord(s: State, i: nat, now: int, reply: Reply)
    requires MayWrite(s, i)
    ensures var t, id := AfterCas(s, i, now, reply), s.slots[i].call.id;
      && (t.outcomes == s.outcomes || (id in t.outcomes && t.outcomes == s.outcomes[id := t.outcomes[id]]))
      && (t.history == s.history
          || (|t.history| == |s.history| + 1 && s.history <= t.history
              && t.history[|s.history|].Wrote? && t.history[|s.history|].call == id
              && (reply.ReportedNotApplied? || Over(t.outcomes, id))))
  {
  }

  lemma WritersDoneCas(base: Table, s: State, i: nat, now: int, reply: Reply)
    requires Inv(base, s) && WritersDone(s)
    requires MayWrite(s, i) && !reply.ReportedNotApplied?
    ensures WritersDone(AfterCas(s, i, now, reply))
  {
    var t, id := AfterCas(s, i, now, reply), s.slots[i].call.id;
    assert id !in s.outcomes;
    CasOnRecord(s, i, now, reply);
    assert forall c :: c in s.outcomes ==> c in t.outcomes && t.outcomes[c] == s.outcomes[c];
    if t.history != s.history {
      OneMoreWriter(s.history, t.history, s.outcomes, t.outcomes, id);
    }
  }

  lemma {:induction false} WritersDoneRun(base: Table, lanes: nat, acts: seq<Action>)
    requires !LosesReplies(acts)
    ensures WritersDone(Run(Start(base, lanes), acts))
  {
    if acts != [] {
      var n := |acts| - 1;
      assert forall b :: b in acts[..n] ==> b in acts;
      assert acts[n] in acts;
      WritersDoneRun(base, lanes, acts[..n]);
      InvRun(base, lanes, acts[..n]);
      WritersDoneStep(base, Run(Start(base, lanes), acts[..n]), acts[n]);
    }
  }

  /** Event `p` inside the window is somebody else's change of the key. */
  predicate ChangedByOther(h: seq<Event>, key: string, c: nat, w: Window, p: nat) {
    w.readAt <= p < w.casAt && p < |h| && Touches(h[p], key) && (h[p].Wrote? ==> h[p].call != c)
  }

  lemma OtherChanged(s: State, key: string, c: nat, w: Window) returns (p: nat)
    requires WritersDone(s) && c in s.outcomes && s.outcomes[c].Exhausted? && Changed(s.history, key, w)
    ensures ChangedByOther(s.history, key, c, w, p)
  {
    p :| w.readAt <= p < w.casAt && p < |s.history| && Touches(s.history[p], key);
  }

  /** One change by somebody else in each of five disjoint windows, in order. */
  predicate Causes(h: seq<Event>, key: string, c: nat, ws: seq<Window>, ps: seq<nat>) {
    && |ws| == |ps| == 5
    && (forall i, j :: 0 <= i < j < 5 ==> ws[i].casAt <= ws[j].readAt)
    && (forall i :: 0 <= i < 5 ==> ChangedByOther(h, key, c, ws[i], ps[i]))
  }

  /**
   A save gives up only after five others' changes of its key, each between one of its reads and the
   compare-and-set that followed, in disjoint windows.
   */
  lemma GivingUpHasFiveCauses(base: Table, lanes: nat, acts: seq<Action>, c: nat) returns (ps: seq<nat>)
    requires !LosesReplies(acts)
    requires var s := Run(Start(base, lanes), acts); c in s.outcomes && s.outcomes[c].Exhausted?
    ensures var s := Run(Start(base, lanes), acts);
      c < |s.calls| && Causes(s.history, s.calls[c].key, c, s.outcomes[c].windows, ps)
  {
    var s := Run(Start(base, lanes), acts);
    InvRun(base, lanes, acts);
    WritersDoneRun(base, lanes, acts);
    var key, ws := s.calls[c].key, s.outcomes[c].windows;
    assert OutcomeOk(s.history, c, s.calls[c], s.outcomes[c]);
    ps := [];
    while |ps| < 5
      invariant |ps| <= 5
      invariant forall i :: 0 <= i < |ps| ==> ChangedByOther(s.history, key, c, ws[i], ps[i])
    {
      var p := OtherChanged(s, key, c, ws[|ps|]);
      ps := ps + [p];
    }
  }

  function CallsOn(calls: seq<Call>, key: string): set<nat> {
    set i: nat | i < |calls| && calls[i].key == key
  }

  /** Without deletes of the key and lost replies, five calls or fewer on a key never starve one another. */
  lemma FiveWritersSucceed(base: Table, lanes: nat, acts: seq<Action>, c: nat)
    requires !LosesReplies(acts)
    requires var s := Run(Start(base, lanes), acts);
      && c in s.outcomes && c < |s.calls| && OneEpoch(s.history, s.calls[c].key, 0, |s.history|)
      && |CallsOn(s.calls, s.calls[c].key)| <= 5
    ensures !Run(Start(base, lanes), acts).outcomes[c].Exhausted?
  {
    var s := Run(Start(base, lanes), acts);
    if s.outcomes[c].Exhausted? {
      var ps := GivingUpHasFiveCauses(base, lanes, acts, c);
      InvRun(base, lanes, acts);
      WritersDoneRun(base, lanes, acts);
      SixCallers(base, s, c, s.outcomes[c].windows, ps);
    }
  }

  lemma SixCallers(base: Table, s: State, c: nat, ws: seq<Window>, ps: seq<nat>)
    requires Inv(base, s) && WritersDone(s) && c < |s.calls|
    requires OneEpoch(s.history, s.calls[c].key, 0, |s.history|)
    requires Causes(s.history, s.calls[c].key, c, ws, ps)
    ensures |CallsOn(s.calls, s.calls[c].key)| >= 6
  {
    var h, key := s.history, s.calls[c].key;
    var writers := seq(5, i requires 0 <= i < 5 => if ps[i] < |h| && h[ps[i]].Wrote? then h[ps[i]].call else 0);
    forall i | 0 <= i < 5
      ensures writers[i] in CallsOn(s.calls, key) && writers[i] != c
    {
      assert ChangedByOther(h, key, c, ws[i], ps[i]);
      assert WriteOk(base, h, s.calls, ps[i]);
    }
    forall i, j | 0 <= i < j < 5
      ensures writers[i] != writers[j]
    {
      assert ChangedByOther(h, key, c, ws[i], ps[i]) && ChangedByOther(h, key, c, ws[j], ps[j]);
      assert ps[i] < ps[j];
    }
    DistinctFit(writers + [c], CallsOn(s.calls, key));
  }

  lemma {:induction false} DistinctFit(xs: seq<nat>, b: set<nat>)
    requires forall i :: 0 <= i < |xs| ==> xs[i] in b
    requires forall i, j :: 0 <= i < j < |xs| ==> xs[i] != xs[j]
    ensures |xs| <= |b|
  {
    if xs != [] {
      var n := |xs| - 1;
      DistinctFit(xs[..n], b - {xs[n]});
    }
  }
}
