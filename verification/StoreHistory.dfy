/**
 What the history of a partition says about versions, returned results and retries, for every
 interleaving of plain and quota-checked saves with deletes, lost replies and failures.
 */
module StoreHistory {
  import opened Wrappers
  import opened Records
  import opened StoreProtocol

  /** Event `p`, a write, put down the row that its call owes to the table of that moment. */
  predicate WriteOk(base: Table, h: seq<Event>, calls: seq<Call>, p: nat)
    requires p < |h| && h[p].Wrote?
  {
    var e := h[p];
    && e.call < |calls|
    && e.key == calls[e.call].key
    && e.row == Written(Lookup(Replay(base, h[..p]), e.key), calls[e.call].payload, e.row.updatedAt)
  }

  predicate Changed(h: seq<Event>, key: string, w: Window) {
    exists p :: w.readAt <= p < w.casAt && p < |h| && Touches(h[p], key)
  }

  /** Disjoint windows in order, each with a change of the key inside. */
  predicate WindowsOk(h: seq<Event>, key: string, windows: seq<Window>) {
    && (forall i :: 0 <= i < |windows| ==> windows[i].casAt <= |h| && Changed(h, key, windows[i]))
    && (forall i, j :: 0 <= i < j < |windows| ==> windows[i].casAt <= windows[j].readAt)
  }

  function LastCas(windows: seq<Window>): nat {
    if windows == [] then 0 else windows[|windows| - 1].casAt
  }

  predicate SlotOk(base: Table, h: seq<Event>, calls: seq<Call>, slot: Slot) {
    slot.Busy? ==>
      && slot.call.id < |calls| && calls[slot.call.id] == slot.call
      && |slot.windows| < LWT_MAX_RETRIES
      && WindowsOk(h, slot.call.key, slot.windows)
      && (slot.seen.Some? ==>
        && LastCas(slot.windows) <= slot.seen.value.at <= |h|
        && slot.seen.value.view == View(Replay(base, h[..slot.seen.value.at]), slot.call.key))
  }

  /** What a result claims is on record. */
  predicate OutcomeOk(h: seq<Event>, id: nat, call: Call, outcome: Outcome) {
    match outcome
    case Saved(version, updatedAt, at, retries) =>
      && at < |h| && h[at].Wrote? && h[at].call == id && h[at].key == call.key
      && h[at].row.version == version && h[at].row.updatedAt == updatedAt
      && retries < LWT_MAX_RETRIES
    case Exhausted(windows) => |windows| == LWT_MAX_RETRIES && WindowsOk(h, call.key, windows)
    case OverLimit => call.limit.Some?
    case DbError => true
  }

  predicate HistoryOk(base: Table, h: seq<Event>, calls: seq<Call>) {
    forall p :: 0 <= p < |h| && h[p].Wrote? ==> WriteOk(base, h, calls, p)
  }

  predicate Inv(base: Table, s: State) {
    && s.rows == Replay(base, s.history)
    && HistoryOk(base, s.history, s.calls)
    && (forall i :: 0 <= i < |s.slots| ==> SlotOk(base, s.history, s.calls, s.slots[i]))
    && (forall i :: 0 <= i < |s.slots| && s.slots[i].Busy? ==> s.slots[i].call.id !in s.outcomes)
    && (forall i, j :: 0 <= i < j < |s.slots| && s.slots[i].Busy? && s.slots[j].Busy?
          ==> s.slots[i].call.id != s.slots[j].call.id)
    && (forall c :: c in s.outcomes ==> c < |s.calls| && OutcomeOk(s.history, c, s.calls[c], s.outcomes[c]))
  }

  // Every action keeps the invariant

  /** Facts about the past survive a longer history. */
  lemma LongerHistory(base: Table, h: seq<Event>, h': seq<Event>, calls: seq<Call>, slot: Slot)
    requires h <= h' && SlotOk(base, h, calls, slot)
    ensures SlotOk(base, h', calls, slot)
  {
    if slot.Busy? {
      WindowsGrow(h, h', slot.call.key, slot.windows);
      if slot.seen.Some? {
        assert h'[..slot.seen.value.at] == h[..slot.seen.value.at];
      }
    }
  }

  lemma WindowsGrow(h: seq<Event>, h': seq<Event>, key: string, windows: seq<Window>)
    requires h <= h' && WindowsOk(h, key, windows)
    ensures WindowsOk(h', key, windows)
  {
    forall i | 0 <= i < |windows|
      ensures Changed(h', key, windows[i])
    {
      var p :| windows[i].readAt <= p < windows[i].casAt && p < |h| && Touches(h[p], key);
      assert h'[p] == h[p];
    }
  }

  lemma OutcomeGrow(h: seq<Event>, h': seq<Event>, id: nat, call: Call, outcome: Outcome)
    requires h <= h' && OutcomeOk(h, id, call, outcome)
    ensures OutcomeOk(h', id, call, outcome)
  {
    if outcome.Exhausted? {
      WindowsGrow(h, h', call.key, outcome.windows);
    }
  }

  /** The table and the log advance by one event; slots and results keep what they know. */
  lemma EventStep(base: Table, s: State, e: Event)
    requires Inv(base, s)
    requires e.Wrote? ==>
      && e.call < |s.calls| && e.key == s.calls[e.call].key
      && e.row == Written(Lookup(s.rows, e.key), s.calls[e.call].payload, e.row.updatedAt)
    ensures Inv(base, s.(rows := Effect(s.rows, e), history := s.history + [e]))
  {
    var h, h' := s.history, s.history + [e];
    ReplaySnoc(base, h, e);
    forall p | 0 <= p < |h'| && h'[p].Wrote?
      ensures WriteOk(base, h', s.calls, p)
    {
      assert h'[..p] == h[..p];
      if p < |h| {
        assert WriteOk(base, h, s.calls, p);
      } else {
        assert h[..p] == h;
      }
    }
    forall i | 0 <= i < |s.slots|
      ensures SlotOk(base, h', s.calls, s.slots[i])
    {
      LongerHistory(base, h, h', s.calls, s.slots[i]);
    }
    forall c | c in s.outcomes
      ensures OutcomeOk(h', c, s.calls[c], s.outcomes[c])
    {
      OutcomeGrow(h, h', c, s.calls[c], s.outcomes[c]);
    }
  }

  lemma SlotStep(base: Table, s: State, i: nat, x: Slot)
    requires Inv(base, s) && IsBusy(s, i)
    requires x.Busy? && x.call == s.slots[i].call && SlotOk(base, s.history, s.calls, x)
    ensures Inv(base, s.(slots := s.slots[i := x]))
  {
  }

  lemma FinishStep(base: Table, s: State, i: nat, outcome: Outcome)
    requires Inv(base, s) && IsBusy(s, i)
    requires OutcomeOk(s.history, s.slots[i].call.id, s.slots[i].call, outcome)
    ensures Inv(base, Finish(s, i, outcome))
  {
    assert SlotOk(base, s.history, s.calls, s.slots[i]);
  }

  lemma BeginStep(base: Table, s: State, i: nat, call: Call)
    requires Inv(base, s) && Enabled(s, Begin(i, call))
    ensures Inv(base, Effective(s, Begin(i, call)))
  {
    var s' := Effective(s, Begin(i, call));
    forall p | 0 <= p < |s.history| && s.history[p].Wrote?
      ensures WriteOk(base, s.history, s'.calls, p)
    {
      assert WriteOk(base, s.history, s.calls, p);
    }
    forall j | 0 <= j < |s.slots|
      ensures SlotOk(base, s.history, s'.calls, s'.slots[j])
    {
      assert SlotOk(base, s.history, s.calls, s.slots[j]);
    }
    forall c | c in s.outcomes
      ensures c < |s'.calls| && OutcomeOk(s.history, c, s'.calls[c], s.outcomes[c])
    {
      assert OutcomeOk(s.history, c, s.calls[c], s.outcomes[c]);
    }
  }

  /** A compare-and-set fails only when the key was touched after the attempt's read. */
  lemma FailureHasCause(base: Table, s: State, i: nat)
    requires Inv(base, s) && MayWrite(s, i)
    requires !CasApplies(s.rows, s.slots[i].call.key, s.slots[i].seen.value.view)
    ensures Changed(s.history, s.slots[i].call.key, Window(s.slots[i].seen.value.at, |s.history|))
  {
    var slot, h := s.slots[i], s.history;
    var key, at := slot.call.key, slot.seen.value.at;
    assert SlotOk(base, h, s.calls, slot);
    assert h[..|h|] == h;
    if forall p :: at <= p < |h| ==> !Touches(h[p], key) {
      Untouched(base, h, key, at, |h|);
    }
  }

  lemma OneMoreWindow(h: seq<Event>, key: string, windows: seq<Window>, w: Window)
    requires WindowsOk(h, key, windows)
    requires LastCas(windows) <= w.readAt && w.casAt <= |h| && Changed(h, key, w)
    ensures WindowsOk(h, key, windows + [w])
  {
    var ws := windows + [w];
    forall j | 0 <= j < |windows|
      ensures windows[j].casAt <= w.readAt
    {
      var last := |windows| - 1;
      if j < last {
        assert Changed(h, key, windows[last]);
        assert windows[j].casAt <= windows[last].readAt;
      }
    }
  }

  lemma CasStep(base: Table, s: State, i: nat, now: int, reply: Reply)
    requires Inv(base, s) && MayWrite(s, i)
    ensures Inv(base, AfterCas(s, i, now, reply))
  {
    var slot := s.slots[i];
    assert SlotOk(base, s.history, s.calls, slot);
    var applied := CasApplies(s.rows, slot.call.key, slot.seen.value.view);
    var t := CasOnTable(s, i, now);
    if applied {
      EventStep(base, s, t.history[|s.history|]);
      assert Touches(t.history[|s.history|], slot.call.key);
    } else {
      FailureHasCause(base, s, i);
    }
    assert Inv(base, t);
    assert SlotOk(base, t.history, t.calls, slot);
    var w := Window(slot.seen.value.at, |t.history|);
    assert Changed(t.history, slot.call.key, w);
    OneMoreWindow(t.history, slot.call.key, slot.windows, w);
    if reply.Failed? {
      FinishStep(base, t, i, DbError);
    } else if applied && reply.Faithful? {
      FinishStep(base, t, i, Saved(t.rows[slot.call.key].version, now, |s.history|, |slot.windows|));
    } else if |slot.windows| + 1 == LWT_MAX_RETRIES {
      FinishStep(base, t, i, Exhausted(slot.windows + [w]));
    } else {
      SlotStep(base, t, i, Busy(slot.call, None, None, slot.windows + [w]));
    }
  }

  lemma LastCasBound(h: seq<Event>, key: string, windows: seq<Window>)
    requires WindowsOk(h, key, windows)
    ensures LastCas(windows) <= |h|
  {
  }

  lemma InvStep(base: Table, s: State, a: Action)
    requires Inv(base, s)
    ensures Inv(base, Step(s, a))
  {
    if !Enabled(s, a) {
    } else if a.Begin? {
      BeginStep(base, s, a.slot, a.call);
    } else if a.Cas? {
      CasStep(base, s, a.slot, a.now, a.reply);
    } else if a.RemoveKey? {
      EventStep(base, s, Removed(a.key));
    } else if a.RemoveAll? {
      EventStep(base, s, Cleared);
    } else if a.Refuse? || a.Abort? {
      FinishStep(base, s, a.slot, if a.Refuse? then OverLimit else DbError);
    } else {
      var slot := s.slots[a.slot];
      assert SlotOk(base, s.history, s.calls, slot);
      assert s.history[..|s.history|] == s.history;
      LastCasBound(s.history, slot.call.key, slot.windows);
      SlotStep(base, s, a.slot, Effective(s, a).slots[a.slot]);
    }
  }

  lemma {:induction false} InvRun(base: Table, lanes: nat, acts: seq<Action>)
    ensures Inv(base, Run(Start(base, lanes), acts))
  {
    if acts != [] {
      InvRun(base, lanes, acts[..|acts| - 1]);
      InvStep(base, Run(Start(base, lanes), acts[..|acts| - 1]), acts[|acts| - 1]);
    }
  }
}
