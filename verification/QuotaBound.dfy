/**
 How far a user's stored total can pass the quota.

 The sum and the row are two separate reads and the compare-and-set guards neither, so the quota is not
 exact. With `k` saves in flight, each of at most `m` bytes, the total never exceeds `limit + (k - 1) * m`,
 whatever is deleted meanwhile, and that bound is reached. So one writer alone never passes the limit.

 The proof tells two modes apart. While the total is within the limit (Calm), the save that wrote last is
 fresh: all it has read was read after the last write. Once the total is above the limit (Storm), every
 key gets a cap. An attempt that started before the storm may raise one cap to `m`; the fresh one may only
 raise one by what was left below the limit; an attempt that starts in the storm raises none, since it
 passes its check only with less than a size it has read.
 */
module QuotaBound {
  import opened Wrappers
  import opened Records
  import opened StoreProtocol

  /** Every save of the run is quota-checked against one limit and brings at most `m` bytes. */
  predicate QuotaCall(call: Call, limit: int, m: nat) {
    call.limit == Some(limit) && call.payload.size <= m
  }

  /** `n * m`, by addition. */
  function Times(n: nat, m: nat): nat {
    if n == 0 then 0 else Times(n - 1, m) + m
  }

  lemma {:induction false} TimesIsProduct(n: nat, m: nat)
    ensures Times(n, m) == n * m
  {
    if n > 0 {
      TimesIsProduct(n - 1, m);
      assert n * m == (n - 1) * m + m;
    }
  }

  predicate QuotaRun(acts: seq<Action>, limit: int, m: nat) {
    forall a :: a in acts && a.Begin? ==> QuotaCall(a.call, limit, m)
  }

  /**
   What the proof remembers: the save that wrote last and, in a storm, the one that was fresh when it began,
   what was left below the limit then, the slots still in an attempt from before, and the caps.
   */
  datatype Mode =
    | Calm
    | Storm(latest: nat, left: nat, older: set<nat>, caps: map<string, nat>)

  datatype Memory = Memory(last: nat, mode: Mode)

  predicate SlotOk(slot: Slot, limit: int, m: nat) {
    slot.Busy? ==> QuotaCall(slot.call, limit, m)
  }

  /** Nothing was written since this save's reads: rows may only have disappeared. */
  ghost predicate Fresh(rows: Table, slot: Slot) {
    slot.Busy? ==>
      && (slot.total.Some? ==> slot.total.value >= Total(rows))
      && (slot.seen.Some? ==> var key := slot.call.key;
        key in rows ==> View(rows, key) == slot.seen.value.view)
  }

  function CapOf(caps: map<string, nat>, key: string): nat {
    if key in caps then caps[key] else 0
  }

  predicate Capped(rows: Table, caps: map<string, nat>) {
    forall k :: k in rows ==> k in caps && rows[k].size <= caps[k]
  }

  function Greater(a: nat, b: nat): nat {
    if a < b then b else a
  }

  /** An attempt that started in the storm. */
  predicate Young(slot: Slot, limit: int, caps: map<string, nat>) {
    slot.Busy? ==>
      && (slot.total.Some? ==> slot.total.value > limit)
      && (slot.seen.Some? ==> SeenSize(slot.seen.value.view) <= CapOf(caps, slot.call.key))
  }

  /** The attempt that was fresh when the storm began. */
  predicate FreshThen(rows: Table, slot: Slot, limit: int, left: nat, caps: map<string, nat>, m: nat) {
    slot.Busy? ==>
      && (slot.total.Some? ==> limit - slot.total.value <= left)
      && (slot.seen.Some? ==> var key := slot.call.key;
        SeenSize(slot.seen.value.view) <= CapOf(caps, key) || m <= CapOf(caps, key) || key !in rows)
  }

  /** The caps, and what the attempts from before the storm may still add to them. */
  ghost function Budget(mode: Mode, m: nat): nat
    requires mode.Storm?
  {
    Sum(mode.caps) + Times(|mode.older - {mode.latest}|, m) + (if mode.latest in mode.older then mode.left else 0)
  }

  predicate AllYoung(slots: seq<Slot>, older: set<nat>, limit: int, caps: map<string, nat>) {
    forall i :: 0 <= i < |slots| && i !in older ==> Young(slots[i], limit, caps)
  }

  ghost predicate StormOk(s: State, mode: Mode, limit: int, m: nat)
    requires mode.Storm?
  {
    && |s.slots| > 0
    && (forall i :: i in mode.older ==> i < |s.slots|)
    && Capped(s.rows, mode.caps)
    && AllYoung(s.slots, mode.older, limit, mode.caps)
    && (mode.latest in mode.older ==> FreshThen(s.rows, s.slots[mode.latest], limit, mode.left, mode.caps, m))
    && Budget(mode, m) <= limit + Times(|s.slots| - 1, m)
  }

  ghost predicate Inv(s: State, g: Memory, limit: int, m: nat) {
    && g.last < |s.slots|
    && (forall i :: 0 <= i < |s.slots| ==> SlotOk(s.slots[i], limit, m))
    && Fresh(s.rows, s.slots[g.last])
    && (g.mode.Calm? <==> Total(s.rows) <= limit)
    && (g.mode.Storm? ==> StormOk(s, g.mode, limit, m))
  }

  lemma {:induction false} SumMonotone(a: map<string, nat>, b: map<string, nat>)
    requires forall k :: k in a ==> k in b && a[k] <= b[k]
    ensures Sum(a) <= Sum(b)
    decreases |a|
  {
    if a != map[] {
      var k := Pick(a);
      SumMonotone(a - {k}, b - {k});
      SumRemove(b, k);
    }
  }

  lemma InvBounds(s: State, g: Memory, limit: int, m: nat)
    requires Inv(s, g, limit, m)
    ensures Total(s.rows) <= limit + Times(|s.slots| - 1, m)
  {
    if g.mode.Storm? {
      SumMonotone(Sizes(s.rows), g.mode.caps);
    }
  }

  /** What the memory is once the attempt of slot `i` is over. */
  function Spent(mode: Mode, i: nat): Mode {
    if mode.Calm? then Calm else mode.(older := mode.older - {i})
  }

  lemma SpentBudget(mode: Mode, i: nat, m: nat)
    requires mode.Storm? && i in mode.older
    ensures Budget(Spent(mode, i), m) + (if i == mode.latest then mode.left else m) == Budget(mode, m)
  {
    var rest := mode.older - {mode.latest};
    if i != mode.latest {
      assert Spent(mode, i).older - {mode.latest} == rest - {i};
      assert |rest| == |rest - {i}| + 1;
    } else {
      assert Spent(mode, i).older - {mode.latest} == rest;
    }
  }

  lemma SpentShrinks(mode: Mode, i: nat, m: nat)
    requires mode.Storm?
    ensures Budget(Spent(mode, i), m) <= Budget(mode, m)
  {
    if i in mode.older {
      SpentBudget(mode, i, m);
    } else {
      assert mode.older - {i} == mode.older;
    }
  }

  lemma ReadStorm(s: State, i: nat, x: Slot, mode: Mode, limit: int, m: nat)
    requires mode.Storm? && StormOk(s, mode, limit, m) && i < |s.slots|
    requires i !in mode.older ==> Young(x, limit, mode.caps)
    requires i == mode.latest && i in mode.older ==> FreshThen(s.rows, x, limit, mode.left, mode.caps, m)
    ensures StormOk(s.(slots := s.slots[i := x]), mode, limit, m)
  {
    assert AllYoung(s.slots[i := x], mode.older, limit, mode.caps) by {
      assert AllYoung(s.slots, mode.older, limit, mode.caps);
    }
  }

  /** Slot `i` reads, or starts a new call; the table stays. */
  lemma ReadStep(s: State, i: nat, x: Slot, g: Memory, limit: int, m: nat)
    requires Inv(s, g, limit, m)
    requires i < |s.slots|
    requires SlotOk(x, limit, m)
    requires i == g.last ==> Fresh(s.rows, x)
    requires g.mode.Storm? && i !in g.mode.older ==> Young(x, limit, g.mode.caps)
    requires g.mode.Storm? && i == g.mode.latest && i in g.mode.older
      ==> FreshThen(s.rows, x, limit, g.mode.left, g.mode.caps, m)
    ensures Inv(s.(slots := s.slots[i := x]), g, limit, m)
  {
    if g.mode.Storm? {
      ReadStorm(s, i, x, g.mode, limit, m);
    }
    var slots := s.slots[i := x];
    forall j | 0 <= j < |slots|
      ensures SlotOk(slots[j], limit, m)
    {
      if j != i {
        assert SlotOk(s.slots[j], limit, m);
      }
    }
  }

  lemma SpentStorm(s: State, i: nat, mode: Mode, limit: int, m: nat)
    requires mode.Storm? && StormOk(s, mode, limit, m)
    requires i < |s.slots| && Young(s.slots[i], limit, mode.caps)
    ensures StormOk(s, Spent(mode, i), limit, m)
  {
    SpentShrinks(mode, i, m);
  }

  /** The attempt of slot `i` ends without a write. */
  lemma EndStep(s: State, i: nat, x: Slot, g: Memory, limit: int, m: nat)
    requires Inv(s, g, limit, m)
    requires IsBusy(s, i)
    requires x == Idle || x == Busy(s.slots[i].call, None, None, x.windows)
    ensures Inv(s.(slots := s.slots[i := x]), g.(mode := Spent(g.mode, i)), limit, m)
  {
    assert SlotOk(s.slots[i], limit, m);
    ReadStep(s, i, x, g, limit, m);
    if g.mode.Storm? {
      SpentStorm(s.(slots := s.slots[i := x]), i, g.mode, limit, m);
    }
  }

  /** The table after an applied write. */
  function WriteOf(s: State, i: nat, now: int): Row
    requires MayWrite(s, i)
  {
    Written(Lookup(s.rows, s.slots[i].call.key), s.slots[i].call.payload, now)
  }

  predicate Applies(s: State, i: nat)
    requires MayWrite(s, i)
  {
    CasApplies(s.rows, s.slots[i].call.key, s.slots[i].seen.value.view)
  }

  /** The save that wrote last has an exact view, so its next write stays within the limit. */
  lemma FreshWriteStaysCalm(s: State, i: nat, now: int, limit: int, m: nat)
    requires MayWrite(s, i) && Applies(s, i)
    requires SlotOk(s.slots[i], limit, m) && Fresh(s.rows, s.slots[i])
    ensures Total(s.rows[s.slots[i].call.key := WriteOf(s, i, now)]) <= limit
  {
    TotalWrite(s.rows, s.slots[i].call.key, WriteOf(s, i, now));
  }

  function AllSlots(n: nat): (r: set<nat>)
    ensures |r| == n
    ensures forall i: int :: i in r <==> 0 <= i < n
  {
    if n == 0 then {} else AllSlots(n - 1) + {n - 1}
  }

  /** The state after slot `i` wrote, its attempt being over. */
  function AfterWrite(s: State, i: nat, x: Slot, now: int): State
    requires MayWrite(s, i)
  {
    s.(rows := s.rows[s.slots[i].call.key := WriteOf(s, i, now)], slots := s.slots[i := x])
  }

  predicate Rested(x: Slot, was: Slot)
    requires was.Busy?
  {
    x == Idle || x == Busy(was.call, None, None, x.windows)
  }

  ghost function FirstStorm(s: State, i: nat, last: nat, limit: int, m: nat): Mode
    requires MayWrite(s, i) && Total(s.rows) <= limit
  {
    var key := s.slots[i].call.key;
    Storm(last, limit - Total(s.rows), AllSlots(|s.slots|) - {i}, Sizes(s.rows)[key := Greater(m, SizeOf(s.rows, key))])
  }

  /** The write that takes the total above the limit: the storm begins. */
  lemma StormBegins(s: State, i: nat, x: Slot, now: int, g: Memory, limit: int, m: nat)
    requires Inv(s, g, limit, m) && g.mode.Calm?
    requires MayWrite(s, i) && Applies(s, i) && Rested(x, s.slots[i])
    requires Total(AfterWrite(s, i, x, now).rows) > limit
    ensures StormOk(AfterWrite(s, i, x, now), FirstStorm(s, i, g.last, limit, m), limit, m)
  {
    assert SlotOk(s.slots[i], limit, m);
    if i == g.last {
      FreshWriteStaysCalm(s, i, now, limit, m);
    }
    var mode, s' := FirstStorm(s, i, g.last, limit, m), AfterWrite(s, i, x, now);
    FirstBudget(s, i, g.last, limit, m);
    FirstCaps(s, i, x, now, g, limit, m);
    assert AllYoung(s'.slots, mode.older, limit, mode.caps);
  }

  lemma FirstCaps(s: State, i: nat, x: Slot, now: int, g: Memory, limit: int, m: nat)
    requires Inv(s, g, limit, m) && g.mode.Calm?
    requires MayWrite(s, i) && Applies(s, i) && i != g.last
    ensures var mode, rows' := FirstStorm(s, i, g.last, limit, m), AfterWrite(s, i, x, now).rows;
      Capped(rows', mode.caps) && FreshThen(rows', s.slots[g.last], limit, mode.left, mode.caps, m)
  {
    assert SlotOk(s.slots[i], limit, m);
    assert SlotOk(s.slots[g.last], limit, m);
  }

  lemma FirstBudget(s: State, i: nat, last: nat, limit: int, m: nat)
    requires MayWrite(s, i)
    requires last < |s.slots| && last != i
    requires Total(s.rows) <= limit
    ensures Budget(FirstStorm(s, i, last, limit, m), m) <= limit + Times(|s.slots| - 1, m)
  {
    var n := |s.slots|;
    var key := s.slots[i].call.key;
    SumUpdate(Sizes(s.rows), key, Greater(m, SizeOf(s.rows, key)));
    var older := AllSlots(n) - {i};
    assert |older| == n - 1;
    assert |older - {last}| == n - 2;
    assert Times(n - 1, m) == Times(n - 2, m) + m;
  }

  /** Only the cap of this key changes, and it grows. */
  predicate OnlyRaised(caps: map<string, nat>, caps': map<string, nat>, key: string) {
    && CapsGrow(caps, caps')
    && forall k :: k in caps' && k != key ==> k in caps && caps'[k] == caps[k]
  }

  predicate CapsGrow(caps: map<string, nat>, caps': map<string, nat>) {
    forall k :: k in caps ==> k in caps' && caps[k] <= caps'[k]
  }

  /** The caps after a write in the storm. */
  function RaisedCaps(mode: Mode, i: nat, key: string, size: nat, m: nat): map<string, nat>
    requires mode.Storm?
  {
    if i !in mode.older then mode.caps
    else if i != mode.latest then mode.caps[key := Greater(m, CapOf(mode.caps, key))]
    else mode.caps[key := Greater(size, CapOf(mode.caps, key))]
  }

  function NextStorm(s: State, i: nat, mode: Mode, m: nat): Mode
    requires MayWrite(s, i) && mode.Storm?
  {
    var call := s.slots[i].call;
    mode.(older := mode.older - {i}, caps := RaisedCaps(mode, i, call.key, call.payload.size, m))
  }

  lemma CapsRaised(mode: Mode, i: nat, key: string, size: nat, m: nat)
    requires mode.Storm? && size <= m
    requires i !in mode.older ==> key in mode.caps && size <= mode.caps[key]
    ensures var caps := RaisedCaps(mode, i, key, size, m);
      key in caps && size <= caps[key] && OnlyRaised(mode.caps, caps, key)
  {
  }

  /** A write that passed its check in the storm is smaller than a size that it has read. */
  lemma YoungWritesLess(s: State, i: nat, limit: int, m: nat, caps: map<string, nat>)
    requires MayWrite(s, i) && SlotOk(s.slots[i], limit, m) && Young(s.slots[i], limit, caps)
    ensures s.slots[i].call.key in caps && s.slots[i].call.payload.size <= caps[s.slots[i].call.key]
  {
  }

  lemma NextCaps(s: State, i: nat, mode: Mode, limit: int, m: nat)
    requires mode.Storm? && StormOk(s, mode, limit, m)
    requires MayWrite(s, i) && SlotOk(s.slots[i], limit, m)
    ensures var call, caps := s.slots[i].call, NextStorm(s, i, mode, m).caps;
      call.key in caps && call.payload.size <= caps[call.key] && OnlyRaised(mode.caps, caps, call.key)
  {
    if i !in mode.older {
      YoungWritesLess(s, i, limit, m, mode.caps);
    }
    CapsRaised(mode, i, s.slots[i].call.key, s.slots[i].call.payload.size, m);
  }

  /** The fresh attempt of old writes at most what was left, over the cap. */
  lemma FreshWritesLeft(s: State, i: nat, limit: int, left: nat, caps: map<string, nat>, m: nat)
    requires MayWrite(s, i) && Applies(s, i) && SlotOk(s.slots[i], limit, m)
    requires FreshThen(s.rows, s.slots[i], limit, left, caps, m)
    ensures s.slots[i].call.payload.size <= CapOf(caps, s.slots[i].call.key) + left
  {
  }

  /** What a write in the storm adds to the caps was budgeted for its attempt. */
  lemma RaisedBudget(s: State, i: nat, mode: Mode, limit: int, m: nat)
    requires mode.Storm? && StormOk(s, mode, limit, m)
    requires MayWrite(s, i) && Applies(s, i)
    requires SlotOk(s.slots[i], limit, m)
    ensures Budget(NextStorm(s, i, mode, m), m) <= Budget(mode, m)
  {
    var key, size := s.slots[i].call.key, s.slots[i].call.payload.size;
    if i !in mode.older {
      assert mode.older - {i} == mode.older;
    } else {
      if i == mode.latest {
        FreshWritesLeft(s, i, limit, mode.left, mode.caps, m);
      }
      RaiseCosts(mode, i, key, size, m);
    }
  }

  lemma RaiseCosts(mode: Mode, i: nat, key: string, size: nat, m: nat)
    requires mode.Storm? && i in mode.older && size <= m
    requires i == mode.latest ==> size <= CapOf(mode.caps, key) + mode.left
    ensures Budget(mode.(older := mode.older - {i}, caps := RaisedCaps(mode, i, key, size, m)), m) <= Budget(mode, m)
  {
    SpentBudget(mode, i, m);
    SumUpdate(mode.caps, key, RaisedCaps(mode, i, key, size, m)[key]);
  }

  /** The fresh attempt of old keeps what it knows. */
  lemma FreshThenKept(s: State, i: nat, x: Slot, now: int, mode: Mode, limit: int, m: nat)
    requires mode.Storm? && StormOk(s, mode, limit, m)
    requires MayWrite(s, i) && Applies(s, i)
    requires mode.latest in mode.older && mode.latest != i
    requires SlotOk(s.slots[mode.latest], limit, m) && SlotOk(s.slots[i], limit, m)
    ensures FreshThen(AfterWrite(s, i, x, now).rows, s.slots[mode.latest], limit, mode.left,
                      NextStorm(s, i, mode, m).caps, m)
  {
    if i !in mode.older {
      assert Young(s.slots[i], limit, mode.caps);
    }
  }

  lemma YoungStays(slot: Slot, limit: int, caps: map<string, nat>, caps': map<string, nat>)
    requires Young(slot, limit, caps) && CapsGrow(caps, caps')
    ensures Young(slot, limit, caps')
  {
  }

  lemma StaysCapped(rows: Table, key: string, row: Row, caps: map<string, nat>, caps': map<string, nat>)
    requires Capped(rows, caps) && OnlyRaised(caps, caps', key)
    requires key in caps' && row.size <= caps'[key]
    ensures Capped(rows[key := row], caps')
  {
  }

  lemma YoungOnesStay(s: State, i: nat, x: Slot, mode: Mode, caps: map<string, nat>, limit: int)
    requires mode.Storm? && CapsGrow(mode.caps, caps) && i < |s.slots| && s.slots[i].Busy? && Rested(x, s.slots[i])
    requires AllYoung(s.slots, mode.older, limit, mode.caps)
    ensures AllYoung(s.slots[i := x], mode.older - {i}, limit, caps)
  {
    var slots := s.slots[i := x];
    forall j | 0 <= j < |slots| && j !in mode.older - {i}
      ensures Young(slots[j], limit, caps)
    {
      if j != i {
        YoungStays(s.slots[j], limit, mode.caps, caps);
      }
    }
  }

  /** A write while the storm lasts. */
  lemma StormGoesOn(s: State, i: nat, x: Slot, now: int, mode: Mode, limit: int, m: nat)
    requires mode.Storm? && StormOk(s, mode, limit, m)
    requires forall j :: 0 <= j < |s.slots| ==> SlotOk(s.slots[j], limit, m)
    requires MayWrite(s, i) && Applies(s, i) && Rested(x, s.slots[i])
    ensures StormOk(AfterWrite(s, i, x, now), NextStorm(s, i, mode, m), limit, m)
  {
    var next, s' := NextStorm(s, i, mode, m), AfterWrite(s, i, x, now);
    assert Capped(s'.rows, next.caps) && AllYoung(s'.slots, next.older, limit, next.caps) by {
      NextCaps(s, i, mode, limit, m);
      StaysCapped(s.rows, s.slots[i].call.key, WriteOf(s, i, now), mode.caps, next.caps);
      YoungOnesStay(s, i, x, mode, next.caps, limit);
    }
    assert Budget(next, m) <= Budget(mode, m) by {
      RaisedBudget(s, i, mode, limit, m);
    }
    if next.latest in next.older {
      FreshThenKept(s, i, x, now, mode, limit, m);
    }
  }

  /** A storm is over as soon as the total is back within the limit. */
  ghost function Weather(rows: Table, limit: int, storm: Mode): Mode {
    if Total(rows) <= limit then Calm else storm
  }

  lemma WriteStep(s: State, i: nat, x: Slot, now: int, g: Memory, limit: int, m: nat) returns (g': Memory)
    requires Inv(s, g, limit, m)
    requires MayWrite(s, i) && Applies(s, i) && Rested(x, s.slots[i])
    ensures Inv(AfterWrite(s, i, x, now), g', limit, m)
  {
    var s' := AfterWrite(s, i, x, now);
    assert SlotOk(s.slots[i], limit, m);
    if Total(s'.rows) <= limit {
      g' := Memory(i, Calm);
    } else if g.mode.Calm? {
      StormBegins(s, i, x, now, g, limit, m);
      g' := Memory(i, FirstStorm(s, i, g.last, limit, m));
    } else {
      StormGoesOn(s, i, x, now, g.mode, limit, m);
      g' := Memory(i, NextStorm(s, i, g.mode, m));
    }
  }

  /** Only the table and the slots matter. */
  lemma InvFrame(s: State, t: State, g: Memory, limit: int, m: nat)
    requires Inv(s, g, limit, m)
    requires t.rows == s.rows && t.slots == s.slots
    ensures Inv(t, g, limit, m)
  {
  }

  lemma CasShape(s: State, i: nat, now: int, reply: Reply)
    requires MayWrite(s, i)
    ensures var t := AfterCas(s, i, now, reply);
      && |t.slots| == |s.slots|
      && Rested(t.slots[i], s.slots[i])
      && t.slots == s.slots[i := t.slots[i]]
      && t.rows == if Applies(s, i) then AfterWrite(s, i, t.slots[i], now).rows else s.rows
  {
  }

  lemma CasStep(s: State, i: nat, now: int, reply: Reply, g: Memory, limit: int, m: nat) returns (g': Memory)
    requires Inv(s, g, limit, m)
    requires MayWrite(s, i)
    ensures Inv(AfterCas(s, i, now, reply), g', limit, m)
  {
    var t := AfterCas(s, i, now, reply);
    CasShape(s, i, now, reply);
    var x := t.slots[i];
    if Applies(s, i) {
      g' := WriteStep(s, i, x, now, g, limit, m);
      InvFrame(AfterWrite(s, i, x, now), t, g', limit, m);
    } else {
      EndStep(s, i, x, g, limit, m);
      g' := g.(mode := Spent(g.mode, i));
      InvFrame(s.(slots := s.slots[i := x]), t, g', limit, m);
    }
  }

  lemma DeleteStep(s: State, a: Action, g: Memory, limit: int, m: nat)
    requires Inv(s, g, limit, m)
    requires a.RemoveKey? || a.RemoveAll?
    ensures Inv(Effective(s, a), g.(mode := Weather(Effective(s, a).rows, limit, g.mode)), limit, m)
  {
    var s' := Effective(s, a);
    if a.RemoveKey? {
      TotalRemove(s.rows, a.key);
    }
    assert Fresh(s'.rows, s.slots[g.last]);
    if Total(s'.rows) > limit {
      assert Capped(s'.rows, g.mode.caps);
      if g.mode.latest in g.mode.older {
        assert FreshThen(s'.rows, s.slots[g.mode.latest], limit, g.mode.left, g.mode.caps, m);
      }
    }
  }

  lemma OneReadStep(s: State, a: Action, g: Memory, limit: int, m: nat)
    requires Inv(s, g, limit, m)
    requires Enabled(s, a) && (a.ReadTotal? || a.ReadRow?)
    ensures Inv(Effective(s, a), g, limit, m)
  {
    assert SlotOk(s.slots[a.slot], limit, m);
    ReadStep(s, a.slot, Effective(s, a).slots[a.slot], g, limit, m);
  }

  lemma GiveUpStep(s: State, i: nat, outcome: Outcome, g: Memory, limit: int, m: nat)
    requires Inv(s, g, limit, m)
    requires IsBusy(s, i)
    ensures Inv(Finish(s, i, outcome), g.(mode := Spent(g.mode, i)), limit, m)
  {
    EndStep(s, i, Idle, g, limit, m);
    InvFrame(s.(slots := s.slots[i := Idle]), Finish(s, i, outcome), g.(mode := Spent(g.mode, i)), limit, m);
  }

  lemma BeginStep(s: State, i: nat, call: Call, g: Memory, limit: int, m: nat)
    requires Inv(s, g, limit, m)
    requires Enabled(s, Begin(i, call)) && QuotaCall(call, limit, m)
    ensures Inv(Effective(s, Begin(i, call)), g, limit, m)
  {
    var x := Busy(call, None, None, []);
    ReadStep(s, i, x, g, limit, m);
    InvFrame(s.(slots := s.slots[i := x]), Effective(s, Begin(i, call)), g, limit, m);
  }

  lemma InvStep(s: State, a: Action, g: Memory, limit: int, m: nat) returns (g': Memory)
    requires Inv(s, g, limit, m)
    requires a.Begin? ==> QuotaCall(a.call, limit, m)
    ensures Inv(Step(s, a), g', limit, m)
  {
    g' := g;
    if !Enabled(s, a) {
    } else if a.Begin? {
      BeginStep(s, a.slot, a.call, g, limit, m);
    } else if a.ReadTotal? || a.ReadRow? {
      OneReadStep(s, a, g, limit, m);
    } else if a.Cas? {
      g' := CasStep(s, a.slot, a.now, a.reply, g, limit, m);
    } else if a.RemoveKey? || a.RemoveAll? {
      DeleteStep(s, a, g, limit, m);
      g' := g.(mode := Weather(Effective(s, a).rows, limit, g.mode));
    } else {
      GiveUpStep(s, a.slot, if a.Refuse? then OverLimit else DbError, g, limit, m);
      g' := g.(mode := Spent(g.mode, a.slot));
    }
  }

  lemma {:induction false} InvRun(s: State, acts: seq<Action>, g: Memory, limit: int, m: nat) returns (g': Memory)
    requires Inv(s, g, limit, m)
    requires QuotaRun(acts, limit, m)
    ensures Inv(Run(s, acts), g', limit, m)
  {
    g' := g;
    if acts != [] {
      var n := |acts| - 1;
      assert acts[n] in acts;
      assert forall b :: b in acts[..n] ==> b in acts;
      g' := InvRun(s, acts[..n], g, limit, m);
      g' := InvStep(Run(s, acts[..n]), acts[n], g', limit, m);
    }
  }

  lemma {:induction false} RunLanes(s: State, acts: seq<Action>)
    ensures |Run(s, acts).slots| == |s.slots|
  {
    if acts != [] {
      RunLanes(s, acts[..|acts| - 1]);
    }
  }

  lemma BoundByTimes(rows: Table, lanes: nat, acts: seq<Action>, limit: int, m: nat)
    requires lanes > 0
    requires Total(rows) <= limit
    requires QuotaRun(acts, limit, m)
    ensures Total(Run(Start(rows, lanes), acts).rows) <= limit + Times(lanes - 1, m)
  {
    var g := InvRun(Start(rows, lanes), acts, Memory(0, Calm), limit, m);
    InvBounds(Run(Start(rows, lanes), acts), g, limit, m);
    RunLanes(Start(rows, lanes), acts);
  }

  /**
   In every interleaving of quota-checked saves, at most `lanes` of them in flight, with retries, lost
   replies, failures and deletes, the total never passes the limit by more than `lanes - 1` values.
   A prefix of a run is a run, so the bound holds at every moment. Rows already stored may have any size.
   */
  lemma QuotaBoundHolds(rows: Table, lanes: nat, acts: seq<Action>, limit: int, m: nat)
    requires lanes > 0
    requires Total(rows) <= limit
    requires QuotaRun(acts, limit, m)
    ensures Total(Run(Start(rows, lanes), acts).rows) <= limit + (lanes - 1) * m
  {
    BoundByTimes(rows, lanes, acts, limit, m);
    TimesIsProduct(lanes - 1, m);
  }

  /** A single writer never passes the limit, whatever is deleted meanwhile. */
  lemma SingleWriterKeepsQuota(rows: Table, acts: seq<Action>, limit: int, m: nat)
    requires Total(rows) <= limit
    requires QuotaRun(acts, limit, m)
    ensures Total(Run(Start(rows, 1), acts).rows) <= limit
  {
    BoundByTimes(rows, 1, acts, limit, m);
  }
}
