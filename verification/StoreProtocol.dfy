/**
 The optimistic-concurrency protocol over one user's partition.

 Every save is a task that reads, then compares and sets one row, and retries at most five times.
 A fixed number of slots bounds the saves in flight; a slot runs one call after another. Any list of
 actions is a run: an action that is not enabled leaves the state alone. The database is linearizable,
 so one read, one sum, one compare-and-set or one delete is one atomic action.
 */
module StoreProtocol {
  import opened Wrappers
  import opened Records

  const LWT_MAX_RETRIES: nat := 5

  /** One save request; `limit` is there for the quota-checked variant only. */
  datatype Call = Call(id: nat, key: string, payload: Payload, limit: Option<int>)

  /** What the version read of an attempt returned for an existing row. */
  datatype Seen = Seen(version: nat, size: nat)

  /** A finished version read; `at` is the length of the history at that moment. */
  datatype Reading = Reading(view: Option<Seen>, at: nat)

  /** A failed attempt: history lengths at its version read and just after its compare-and-set. */
  datatype Window = Window(readAt: nat, casAt: nat)

  datatype Slot =
    | Idle
    | Busy(call: Call, total: Option<int>, seen: Option<Reading>, windows: seq<Window>)

  datatype Event =
    | Wrote(call: nat, key: string, row: Row)
    | Removed(key: string)
    | Cleared

  /** How the answer to a compare-and-set reaches the save that sent it. */
  datatype Reply = Faithful | ReportedNotApplied | Failed

  datatype Outcome =
    | Saved(version: nat, updatedAt: int, at: nat, retries: nat)
    | OverLimit
    | Exhausted(windows: seq<Window>)
    | DbError

  datatype Action =
    | Begin(slot: nat, call: Call)
    | ReadTotal(slot: nat, total: int)
    | ReadRow(slot: nat)
    | Refuse(slot: nat)
    | Cas(slot: nat, now: int, reply: Reply)
    | Abort(slot: nat)
    | RemoveKey(key: string)
    | RemoveAll

  datatype State = State(
    rows: Table,
    slots: seq<Slot>,
    history: seq<Event>,
    calls: seq<Call>,
    outcomes: map<nat, Outcome>)

  function View(rows: Table, key: string): Option<Seen> {
    if key in rows then Some(Seen(rows[key].version, rows[key].size)) else None
  }

  function SeenSize(view: Option<Seen>): nat {
    match view
    case None => 0
    case Some(s) => s.size
  }

  /** `INSERT … IF NOT EXISTS` or `UPDATE … IF version = v`, by what the attempt read. */
  predicate CasApplies(rows: Table, key: string, view: Option<Seen>) {
    match view
    case None => key !in rows
    case Some(s) => key in rows && rows[key].version == s.version
  }

  /** The quota test of an attempt; a plain save has none. */
  predicate Passes(call: Call, total: int, view: Option<Seen>) {
    call.limit.Some? ==> total - SeenSize(view) + call.payload.size <= call.limit.value
  }

  predicate IsBusy(s: State, slot: nat) {
    slot < |s.slots| && s.slots[slot].Busy?
  }

  /** Both reads of the attempt are in. */
  predicate Ready(s: State, slot: nat) {
    && IsBusy(s, slot)
    && s.slots[slot].seen.Some?
    && (s.slots[slot].call.limit.Some? ==> s.slots[slot].total.Some?)
  }

  function ReadSum(s: Slot): int {
    if s.Busy? && s.total.Some? then s.total.value else 0
  }

  predicate MayWrite(s: State, slot: nat) {
    Ready(s, slot) && Passes(s.slots[slot].call, ReadSum(s.slots[slot]), s.slots[slot].seen.value.view)
  }

  /** The part of being enabled that the state's control points decide. */
  predicate Available(s: State, a: Action) {
    match a
    case Begin(i, call) => i < |s.slots| && s.slots[i].Idle? && call.id == |s.calls|
    case ReadTotal(i, _) => IsBusy(s, i) && s.slots[i].call.limit.Some? && s.slots[i].total.None?
    case ReadRow(i) => IsBusy(s, i) && s.slots[i].seen.None?
    case Refuse(i) => Ready(s, i) && !MayWrite(s, i)
    case Cas(i, _, _) => MayWrite(s, i)
    case Abort(i) => IsBusy(s, i)
    case RemoveKey(_) => true
    case RemoveAll => true
  }

  /** Moreover, a sum that is read is the sum of the table at that moment. */
  ghost predicate Enabled(s: State, a: Action) {
    Available(s, a) && (a.ReadTotal? ==> a.total == Total(s.rows))
  }

  /** The save in a slot ends. */
  function Finish(s: State, slot: nat, outcome: Outcome): State
    requires IsBusy(s, slot)
  {
    s.(slots := s.slots[slot := Idle], outcomes := s.outcomes[s.slots[slot].call.id := outcome])
  }

  /** The state of the table and the history after a compare-and-set reached the database. */
  function CasOnTable(s: State, slot: nat, now: int): State
    requires MayWrite(s, slot)
  {
    var call := s.slots[slot].call;
    if CasApplies(s.rows, call.key, s.slots[slot].seen.value.view) then
      var row := Written(Lookup(s.rows, call.key), call.payload, now);
      s.(rows := s.rows[call.key := row], history := s.history + [Wrote(call.id, call.key, row)])
    else s
  }

  ghost function Step(s: State, a: Action): State {
    if !Enabled(s, a) then s else Effective(s, a)
  }

  function Effective(s: State, a: Action): State
    requires Available(s, a)
  {
    match a
    case Begin(i, call) => s.(slots := s.slots[i := Busy(call, None, None, [])], calls := s.calls + [call])
    case ReadTotal(i, total) => s.(slots := s.slots[i := s.slots[i].(total := Some(total))])
    case ReadRow(i) =>
      s.(slots := s.slots[i := s.slots[i].(seen := Some(Reading(View(s.rows, s.slots[i].call.key), |s.history|)))])
    case Refuse(i) => Finish(s, i, OverLimit)
    case Cas(i, now, reply) => AfterCas(s, i, now, reply)
    case Abort(i) => Finish(s, i, DbError)
    case RemoveKey(key) => s.(rows := s.rows - {key}, history := s.history + [Removed(key)])
    case RemoveAll => s.(rows := map[], history := s.history + [Cleared])
  }

  function AfterCas(s: State, i: nat, now: int, reply: Reply): State
    requires MayWrite(s, i)
  {
    var t := CasOnTable(s, i, now);
    var slot := s.slots[i];
    var applied := CasApplies(s.rows, slot.call.key, slot.seen.value.view);
    if reply.Failed? then Finish(t, i, DbError)
    else if applied && reply.Faithful? then
      Finish(t, i, Saved(t.rows[slot.call.key].version, now, |s.history|, |slot.windows|))
    else
      var windows := slot.windows + [Window(slot.seen.value.at, |t.history|)];
      if |windows| == LWT_MAX_RETRIES then Finish(t, i, Exhausted(windows))
      else t.(slots := t.slots[i := Busy(slot.call, None, None, windows)])
  }

  ghost function Run(s: State, acts: seq<Action>): State {
    if acts == [] then s else Step(Run(s, acts[..|acts| - 1]), acts[|acts| - 1])
  }

  /** A partition at rest, with room for `lanes` requests in flight. */
  function Start(rows: Table, lanes: nat): State {
    State(rows, seq(lanes, _ => Idle), [], [], map[])
  }

  lemma RunSnoc(s: State, acts: seq<Action>, a: Action)
    ensures Run(s, acts + [a]) == Step(Run(s, acts), a)
  {
    assert (acts + [a])[..|acts|] == acts;
  }

  lemma {:induction false} RunConcat(s: State, a: seq<Action>, b: seq<Action>)
    ensures Run(s, a + b) == Run(Run(s, a), b)
  {
    if b == [] {
      assert a + b == a;
    } else {
      RunConcat(s, a, b[..|b| - 1]);
      assert (a + b)[..|a + b| - 1] == a + b[..|b| - 1];
    }
  }

  lemma ThreeMore(s: State, acts: seq<Action>, a: Action, b: Action, c: Action)
    ensures Run(s, acts + [a] + [b] + [c]) == Step(Step(Step(Run(s, acts), a), b), c)
  {
    RunSnoc(s, acts, a);
    RunSnoc(s, acts + [a], b);
    RunSnoc(s, acts + [a] + [b], c);
  }

  /** An attempt that nothing comes between. */
  lemma QuickAttempt(s: State, i: nat, call: Call, now: int)
    requires i < |s.slots| && s.slots[i] == Busy(call, None, None, []) && call.limit.None?
    ensures var row := Written(Lookup(s.rows, call.key), call.payload, now);
      Step(Step(s, ReadRow(i)), Cas(i, now, Faithful))
      == State(s.rows[call.key := row], s.slots[i := Idle], s.history + [Wrote(call.id, call.key, row)], s.calls,
               s.outcomes[call.id := Saved(row.version, now, |s.history|, 0)])
  {
    var t := Step(s, ReadRow(i));
    assert t.slots[i := Idle] == s.slots[i := Idle];
  }

  /** A save that nothing comes between. */
  lemma QuickSave(s: State, i: nat, call: Call, now: int)
    requires i < |s.slots| && s.slots[i].Idle? && call.id == |s.calls| && call.limit.None?
    ensures var row := Written(Lookup(s.rows, call.key), call.payload, now);
      Step(Step(Step(s, Begin(i, call)), ReadRow(i)), Cas(i, now, Faithful))
      == State(s.rows[call.key := row], s.slots, s.history + [Wrote(call.id, call.key, row)], s.calls + [call],
               s.outcomes[call.id := Saved(row.version, now, |s.history|, 0)])
  {
    var t := Step(s, Begin(i, call));
    assert t.slots[i] == Busy(call, None, None, []);
    QuickAttempt(t, i, call, now);
    assert t.slots[i := Idle] == s.slots;
  }

  /** The history only grows. */
  lemma {:induction false} HistoryGrows(s: State, acts: seq<Action>, more: seq<Action>)
    requires acts <= more
    ensures Run(s, acts).history <= Run(s, more).history
    decreases |more|
  {
    if acts != more {
      HistoryGrows(s, acts, more[..|more| - 1]);
    }
  }

  // The history as a log of the table

  function Effect(rows: Table, e: Event): Table {
    match e
    case Wrote(_, key, row) => rows[key := row]
    case Removed(key) => rows - {key}
    case Cleared => map[]
  }

  function Replay(base: Table, h: seq<Event>): Table {
    if h == [] then base else Effect(Replay(base, h[..|h| - 1]), h[|h| - 1])
  }

  predicate Touches(e: Event, key: string) {
    match e
    case Wrote(_, k, _) => k == key
    case Removed(k) => k == key
    case Cleared => true
  }

  predicate Deletes(e: Event, key: string) {
    Touches(e, key) && !e.Wrote?
  }

  lemma ReplaySnoc(base: Table, h: seq<Event>, e: Event)
    ensures Replay(base, h + [e]) == Effect(Replay(base, h), e)
  {
    assert (h + [e])[..|h|] == h;
  }

  /** Events that do not touch a key leave its row alone. */
  lemma {:induction false} Untouched(base: Table, h: seq<Event>, key: string, p: nat, q: nat)
    requires p <= q <= |h|
    requires forall i :: p <= i < q ==> !Touches(h[i], key)
    ensures Lookup(Replay(base, h[..p]), key) == Lookup(Replay(base, h[..q]), key)
    decreases q
  {
    if p < q {
      Untouched(base, h, key, p, q - 1);
      assert h[..q][..q - 1] == h[..q - 1];
    }
  }
}
