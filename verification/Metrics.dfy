/**
 The cached user counts: any number of requests share one cached value and one refresh lock.

 Each action is one step between two awaits, under the cache's own lock where it touches the cache. A request
 carries the clock reading that it came with; readings may go backwards. A request may be dropped at any
 moment, and then gives up the refresh lock.
 */
module Metrics {
  import opened Wrappers
  import opened Environment

  const CACHE_TTL_SECS: nat := 300

  datatype Counts = Counts(total: nat, week: nat, month: nat, day: nat)

  const DEFAULT_COUNTS := Counts(0, 0, 0, 0)

  /** Where a request stands; from the first look at the cache on it remembers what it saw. */
  datatype Phase =
    | Arrived
    | Expired(cached: Counts)
    | Guarding(cached: Counts)
    | Refreshing(cached: Counts)
    | Fetched(counts: Counts)
    | Answered(answer: Counts, how: How)
    | Dropped

  /** Why a request got its answer. */
  datatype How = FromCache | Stale | AfterRefresh | RefreshFailed

  datatype Request = Request(now: nat, phase: Phase)

  datatype Entry = Entry(counts: Counts, fetchedAt: nat)

  /** `log` has every entry that the cache has held, the present one last; `results` is what completed queries brought. */
  datatype State = State(holder: Option<nat>, requests: seq<Request>, log: seq<Entry>, results: seq<Counts>)

  function Cached(s: State): Entry {
    if s.log == [] then Entry(DEFAULT_COUNTS, 0) else s.log[|s.log| - 1]
  }

  datatype Action =
    | Arrive(now: nat)
    | Look(request: nat)
    | TryLock(request: nat)
    | LookAgain(request: nat)
    | Query(request: nat, result: Option<Counts>)
    | Store(request: nat)
    | Drop(request: nat)

  function SaturatingSub(a: nat, b: nat): nat {
    if a < b then 0 else a - b
  }

  predicate HoldsLock(p: Phase) {
    p.Guarding? || p.Refreshing? || p.Fetched?
  }

  predicate Enabled(s: State, a: Action) {
    match a
    case Arrive(_) => true
    case Look(i) => i < |s.requests| && s.requests[i].phase.Arrived?
    case TryLock(i) => i < |s.requests| && s.requests[i].phase.Expired?
    case LookAgain(i) => i < |s.requests| && s.requests[i].phase.Guarding?
    case Query(i, _) => i < |s.requests| && s.requests[i].phase.Refreshing?
    case Store(i) => i < |s.requests| && s.requests[i].phase.Fetched?
    case Drop(i) => i < |s.requests| && !s.requests[i].phase.Answered?
  }

  predicate StillFresh(s: State, i: nat)
    requires i < |s.requests|
  {
    SaturatingSub(s.requests[i].now, Cached(s).fetchedAt) < CACHE_TTL_SECS
  }

  function Move(s: State, i: nat, p: Phase): State
    requires i < |s.requests|
  {
    s.(requests := s.requests[i := s.requests[i].(phase := p)])
  }

  function Do(s: State, a: Action): State
    requires Enabled(s, a)
  {
    match a
    case Arrive(now) => s.(requests := s.requests + [Request(now, Arrived)])
    case Look(i) => Move(s, i, if StillFresh(s, i) then Answered(Cached(s).counts, FromCache) else Expired(Cached(s).counts))
    case TryLock(i) =>
      var cached := s.requests[i].phase.cached;
      if s.holder.Some? then Move(s, i, Answered(cached, Stale))
      else Move(s, i, Guarding(cached)).(holder := Some(i))
    case LookAgain(i) =>
      if StillFresh(s, i) then Move(s, i, Answered(Cached(s).counts, FromCache)).(holder := None)
      else Move(s, i, Refreshing(s.requests[i].phase.cached))
    case Query(i, result) =>
      (match result
       case None => Move(s, i, Answered(s.requests[i].phase.cached, RefreshFailed)).(holder := None)
       case Some(counts) => Move(s, i, Fetched(counts)).(results := s.results + [counts]))
    case Store(i) =>
      var counts, now := s.requests[i].phase.counts, s.requests[i].now;
      Move(s, i, Answered(counts, AfterRefresh)).(holder := None, log := s.log + [Entry(counts, now)])
    case Drop(i) => Move(s, i, Dropped).(holder := if HoldsLock(s.requests[i].phase) then None else s.holder)
  }

  function Step(s: State, a: Action): State {
    if Enabled(s, a) then Do(s, a) else s
  }

  function Run(s: State, acts: seq<Action>): State {
    if acts == [] then s else Step(Run(s, acts[..|acts| - 1]), acts[|acts| - 1])
  }

  /** The registered cache: the default, fetched at 0. */
  const REGISTERED := State(None, [], [Entry(DEFAULT_COUNTS, 0)], [])

  // What every step keeps

  /** The cache held this value at some time. */
  predicate WasCached(s: State, c: Counts) {
    exists k :: 0 <= k < |s.log| && s.log[k].counts == c
  }

  /** And its age was below the limit at this clock reading. */
  predicate WasFresh(s: State, c: Counts, now: nat) {
    exists k :: 0 <= k < |s.log| && s.log[k].counts == c && now < s.log[k].fetchedAt + 300
  }

  predicate PhaseOk(s: State, i: nat)
    requires i < |s.requests|
  {
    match s.requests[i].phase
    case Arrived => true
    case Expired(c) => WasCached(s, c)
    case Guarding(c) => WasCached(s, c)
    case Refreshing(c) => WasCached(s, c) && !StillFresh(s, i)
    case Fetched(c) => c in s.results && !StillFresh(s, i)
    case Answered(c, how) => if how.FromCache? then WasFresh(s, c, s.requests[i].now) else WasCached(s, c)
    case Dropped => true
  }

  predicate Spaced(log: seq<Entry>) {
    forall k :: 0 <= k < |log| - 1 ==> log[k].fetchedAt + CACHE_TTL_SECS <= log[k + 1].fetchedAt
  }

  predicate Genuine(s: State, c: Counts) {
    c == DEFAULT_COUNTS || c in s.results
  }

  /** Exactly the holder of the lock is in the guarded part. */
  predicate LockOk(s: State) {
    && (s.holder.Some? ==> s.holder.value < |s.requests|)
    && (forall i :: 0 <= i < |s.requests| ==> (HoldsLock(s.requests[i].phase) <==> s.holder == Some(i)))
  }

  predicate Inv(s: State) {
    && LockOk(s)
    && (forall i :: 0 <= i < |s.requests| ==> PhaseOk(s, i))
    && s.log != [] && Spaced(s.log)
    && (forall k :: 0 <= k < |s.log| ==> Genuine(s, s.log[k].counts))
  }

  lemma LongerLog(s: State, t: State, c: Counts, now: nat)
    requires s.log <= t.log
    ensures WasCached(s, c) ==> WasCached(t, c)
    ensures WasFresh(s, c, now) ==> WasFresh(t, c, now)
  {
    if k :| 0 <= k < |s.log| && s.log[k].counts == c {
      assert t.log[k].counts == c;
    }
    if k :| 0 <= k < |s.log| && s.log[k].counts == c && now < s.log[k].fetchedAt + 300 {
      assert t.log[k] == s.log[k];
    }
  }

  /** A request that does not move stays right: the cache changes only while it does not hold the lock. */
  lemma OthersOk(s: State, t: State, i: nat)
    requires i < |s.requests| && PhaseOk(s, i) && i < |t.requests| && t.requests[i] == s.requests[i]
    requires s.log <= t.log && s.results <= t.results
    requires t.log == s.log || !HoldsLock(s.requests[i].phase)
    ensures PhaseOk(t, i)
  {
    match s.requests[i].phase {
      case Arrived =>
      case Dropped =>
      case Fetched(_) =>
      case Expired(c) => LongerLog(s, t, c, 0);
      case Guarding(c) => LongerLog(s, t, c, 0);
      case Refreshing(c) => LongerLog(s, t, c, 0);
      case Answered(c, _) => LongerLog(s, t, c, s.requests[i].now);
    }
  }

  /** The request that moves. */
  lemma MoverOk(s: State, a: Action)
    requires Inv(s) && Enabled(s, a) && !a.Arrive?
    ensures PhaseOk(Do(s, a), a.request)
  {
    var i, t := a.request, Do(s, a);
    assert PhaseOk(s, i);
    var last := |s.log| - 1;
    assert s.log[last] == Cached(s);
    if a.Store? {
      assert t.log[|s.log|].counts == s.requests[i].phase.counts;
    } else if a.Query? && a.result.Some? {
      assert t.results[|s.results|] == a.result.value;
    }
  }

  lemma LockStep(s: State, a: Action)
    requires LockOk(s) && Enabled(s, a)
    ensures LockOk(Do(s, a))
  {
    var t := Do(s, a);
    assert forall i :: 0 <= i < |s.requests| && (a.Arrive? || i != a.request) ==> t.requests[i] == s.requests[i];
    if !a.Arrive? {
      assert HoldsLock(s.requests[a.request].phase) <==> s.holder == Some(a.request);
      assert HoldsLock(t.requests[a.request].phase) <==> t.holder == Some(a.request);
    }
  }

  /** What a step can change: one request, and under the lock the log. */
  lemma StepShape(s: State, a: Action)
    requires Enabled(s, a)
    ensures var t := Do(s, a);
      && s.log <= t.log && s.results <= t.results && |s.requests| <= |t.requests|
      && (!a.Store? ==> t.log == s.log)
      && (forall i :: 0 <= i < |s.requests| && (a.Arrive? || i != a.request) ==> t.requests[i] == s.requests[i])
      && (if a.Arrive? then |t.requests| == |s.requests| + 1 && t.requests[|s.requests|].phase.Arrived?
          else |t.requests| == |s.requests|)
  {
  }

  lemma PhasesStep(s: State, a: Action)
    requires Inv(s) && Enabled(s, a)
    ensures forall i :: 0 <= i < |Do(s, a).requests| ==> PhaseOk(Do(s, a), i)
  {
    var t := Do(s, a);
    StepShape(s, a);
    if !a.Arrive? {
      MoverOk(s, a);
    }
    forall i | 0 <= i < |t.requests|
      ensures PhaseOk(t, i)
    {
      if i < |s.requests| && (a.Arrive? || i != a.request) {
        assert PhaseOk(s, i);
        OthersOk(s, t, i);
      }
    }
  }

  lemma LogStep(s: State, a: Action)
    requires Inv(s) && Enabled(s, a)
    ensures var t := Do(s, a);
      t.log != [] && Spaced(t.log) && forall k :: 0 <= k < |t.log| ==> Genuine(t, t.log[k].counts)
  {
    var t := Do(s, a);
    StepShape(s, a);
    assert forall c :: Genuine(s, c) ==> Genuine(t, c);
    if a.Store? {
      assert PhaseOk(s, a.request);
    }
  }

  lemma InvStep(s: State, a: Action)
    requires Inv(s)
    ensures Inv(Step(s, a))
  {
    if Enabled(s, a) {
      LockStep(s, a);
      PhasesStep(s, a);
      LogStep(s, a);
    }
  }

  lemma {:induction false} InvRun(acts: seq<Action>)
    ensures Inv(Run(REGISTERED, acts))
  {
    if acts != [] {
      InvRun(acts[..|acts| - 1]);
      InvStep(Run(REGISTERED, acts[..|acts| - 1]), acts[|acts| - 1]);
    }
  }

  // What follows for every run

  /** At most one refresh is in flight. */
  lemma OneRefresh(acts: seq<Action>, i: nat, j: nat)
    requires var s := Run(REGISTERED, acts);
      && i < |s.requests| && j < |s.requests|
      && HoldsLock(s.requests[i].phase) && HoldsLock(s.requests[j].phase)
    ensures i == j
  {
    InvRun(acts);
  }

  /** Stored stamps are 300 s apart, whatever the clock readings; so they never go back. */
  lemma StampsAreSpaced(acts: seq<Action>, j: nat, k: nat)
    requires j < k < |Run(REGISTERED, acts).log|
    ensures var log := Run(REGISTERED, acts).log; log[j].fetchedAt + 300 * (k - j) <= log[k].fetchedAt
  {
    InvRun(acts);
    SpacedSum(Run(REGISTERED, acts).log, j, k);
  }

  lemma {:induction false} SpacedSum(log: seq<Entry>, j: nat, k: nat)
    requires Spaced(log) && j <= k < |log|
    ensures log[j].fetchedAt + 300 * (k - j) <= log[k].fetchedAt
    decreases k
  {
    if j < k {
      SpacedSum(log, j, k - 1);
    }
  }

  /**
   Every answer is a value that the cache has held, so the default or what a completed refresh brought; one
   served as fresh was less than 300 s old at the request's clock reading.
   */
  lemma AnswersAreGenuine(acts: seq<Action>, i: nat)
    requires var s := Run(REGISTERED, acts); i < |s.requests| && s.requests[i].phase.Answered?
    ensures var s := Run(REGISTERED, acts);
      var r := s.requests[i];
      && WasCached(s, r.phase.answer) && Genuine(s, r.phase.answer)
      && (r.phase.how.FromCache? ==> WasFresh(s, r.phase.answer, r.now))
  {
    InvRun(acts);
    assert PhaseOk(Run(REGISTERED, acts), i);
  }

  // The method itself

  predicate ActsFor(a: Action, me: nat) {
    !a.Arrive? && a.request == me
  }

  /** The two mutexes with what they guard, and all requests in flight. */
  class CountsCache {
    var state: State
    ghost var trace: seq<Action>

    ghost predicate Valid()
      reads this
    {
      state == Run(REGISTERED, trace)
    }

    constructor ()
      ensures Valid() && state == REGISTERED
    {
      state := REGISTERED;
      trace := [];
    }

    method Atomic(a: Action)
      requires Valid() && Enabled(state, a)
      modifies this
      ensures Valid() && state == Do(old(state), a) && trace == old(trace) + [a]
    {
      assert (trace + [a])[..|trace|] == trace;
      state := Do(state, a);
      trace := trace + [a];
    }

    method Others(w: Setting, me: nat)
      requires Valid() && me < |state.requests|
      modifies this
      ensures Valid() && old(trace) <= trace
      ensures me < |state.requests| && state.requests[me] == old(state).requests[me]
      ensures !w.shared ==> state == old(state)
    {
      var wish: int := *;
      var steps := if wish < 0 || !w.shared then 0 else wish;
      for i := 0 to steps
        invariant Valid() && old(trace) <= trace
        invariant me < |state.requests| && state.requests[me] == old(state).requests[me]
        invariant i == 0 ==> state == old(state)
      {
        var a: Action := *;
        if Enabled(state, a) && !ActsFor(a, me) {
          Atomic(a);
        }
      }
    }

    ghost predicate HasAnswer(me: nat, now: nat, answer: Counts)
      reads this
    {
      && me < |state.requests| && state.requests[me].now == now
      && state.requests[me].phase.Answered? && state.requests[me].phase.answer == answer
    }

    /** `get_cached_user_counts`. */
    method GetCachedUserCounts(w: Setting, now: nat) returns (answer: Counts)
      requires Valid()
      modifies this
      ensures Valid() && old(trace) <= trace
      ensures HasAnswer(|old(state).requests|, now, answer)
      ensures !w.shared ==> AnswersAlone(old(state), state, now, answer, w.faulty)
    {
      InvRun(trace);
      var me := |state.requests|;
      Atomic(Arrive(now));
      Others(w, me);
      Atomic(Look(me));
      if state.requests[me].phase.Expired? {
        RefreshUnlessBusy(w, me);
      }
      answer := state.requests[me].phase.answer;
    }

    /** An expired value: refresh it, or serve it as it is while somebody else does. */
    method RefreshUnlessBusy(w: Setting, me: nat)
      requires Valid() && me < |state.requests| && state.requests[me].phase.Expired?
      modifies this
      ensures Valid() && old(trace) <= trace
      ensures me < |state.requests| && state.requests[me].now == old(state).requests[me].now
      ensures state.requests[me].phase.Answered?
      ensures !w.shared && !old(StillFresh(state, me)) ==>
        var answer, cached := state.requests[me].phase.answer, old(state).requests[me].phase.cached;
        if old(state).holder.Some? then state.log == old(state.log) && answer == cached
        else
          || state.log == old(state.log) + [Entry(answer, state.requests[me].now)]
          || (w.faulty && state.log == old(state.log) && answer == cached)
    {
      Others(w, me);
      Atomic(TryLock(me));
      if state.requests[me].phase.Guarding? {
        Others(w, me);
        Refresh(w, me);
      }
    }

    /** The part under the refresh lock. */
    method Refresh(w: Setting, me: nat)
      requires Valid() && me < |state.requests| && state.requests[me].phase.Guarding?
      modifies this
      ensures Valid() && old(trace) <= trace
      ensures me < |state.requests| && state.requests[me].now == old(state).requests[me].now
      ensures state.requests[me].phase.Answered?
      ensures !w.shared && !old(StillFresh(state, me)) ==>
        var answer := state.requests[me].phase.answer;
        || state.log == old(state.log) + [Entry(answer, state.requests[me].now)]
        || (w.faulty && state.log == old(state.log) && answer == old(state).requests[me].phase.cached)
    {
      Atomic(LookAgain(me));
      if state.requests[me].phase.Refreshing? {
        Others(w, me);
        var down: bool := *;
        var counts: Counts := *;
        if down && w.faulty {
          Atomic(Query(me, None));
        } else {
          Atomic(Query(me, Some(counts)));
          Others(w, me);
          Atomic(Store(me));
        }
      }
    }
  }

  /** With nobody else at work: a fresh value is served as it is, an expired one is replaced, unless the lock is taken. */
  predicate AnswersAlone(s: State, t: State, now: nat, answer: Counts, faulty: bool) {
    && s.log != []
    && var cached := s.log[|s.log| - 1];
      if now < cached.fetchedAt + 300 || s.holder.Some? then answer == cached.counts && t.log == s.log
      else
        || t.log == s.log + [Entry(answer, now)]
        || (faulty && t.log == s.log && answer == cached.counts)
  }
}
