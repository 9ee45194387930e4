/**
 Schema migrations: any number of runners, each with its own file list, at once and one after another.

 Runners share one bookkeeping table, keyed by file name. A lookup, a statement and a conditional insert are
 atomic; between them others run, and a runner may crash. Any list of actions is a run: an action that is not
 enabled leaves the world alone.
 */
module Migrations {
  import StoreProtocol

  type Reply = StoreProtocol.Reply

  datatype Migration = Migration(name: string, checksum: string)

  datatype Cause =
    | Modified
    | ExecutionFailed
    | RaceLost
    | Vanished
    | Broken

  datatype Phase = Looking | Executing | Recording | Rechecking | Finished | Stopped(cause: Cause)

  /** A runner works on `files[next]`. */
  datatype Runner = Runner(files: seq<Migration>, next: nat, phase: Phase)

  datatype Deed = Executed(runner: nat, migration: Migration) | Recorded(runner: nat, migration: Migration)

  datatype Act =
    | Launch(files: seq<Migration>)
    | LookUp(runner: nat)
    | Execute(runner: nat, ok: bool)
    | Record(runner: nat, reply: Reply)
    | Recheck(runner: nat)
    | Crash(runner: nat)

  datatype World = World(recorded: map<string, string>, runners: seq<Runner>, deeds: seq<Deed>)

  function Launched(files: seq<Migration>): Runner {
    Runner(files, 0, if files == [] then Finished else Looking)
  }

  predicate AtWork(r: Runner) {
    !r.phase.Finished? && !r.phase.Stopped? && r.next < |r.files|
  }

  /** The current file is done. */
  function Passed(r: Runner): Runner
    requires AtWork(r)
  {
    Runner(r.files, r.next + 1, if r.next + 1 == |r.files| then Finished else Looking)
  }

  predicate InPhase(w: World, i: nat, phase: Phase) {
    i < |w.runners| && AtWork(w.runners[i]) && w.runners[i].phase == phase
  }

  predicate Enabled(w: World, a: Act) {
    match a
    case Launch(_) => true
    case LookUp(i) => InPhase(w, i, Looking)
    case Execute(i, _) => InPhase(w, i, Executing)
    case Record(i, _) => InPhase(w, i, Recording)
    case Recheck(i) => InPhase(w, i, Rechecking)
    case Crash(i) => i < |w.runners| && AtWork(w.runners[i])
  }

  function WithRunner(w: World, i: nat, r: Runner): World
    requires i < |w.runners|
  {
    w.(runners := w.runners[i := r])
  }

  function Stop(w: World, i: nat, cause: Cause): World
    requires i < |w.runners|
  {
    WithRunner(w, i, w.runners[i].(phase := Stopped(cause)))
  }

  /** `lookup_applied` and what follows from it. */
  function AfterLookUp(w: World, i: nat, missing: Runner, different: Cause): World
    requires i < |w.runners| && AtWork(w.runners[i])
  {
    var m := w.runners[i].files[w.runners[i].next];
    if m.name !in w.recorded then WithRunner(w, i, missing)
    else if w.recorded[m.name] != m.checksum then Stop(w, i, different)
    else WithRunner(w, i, Passed(w.runners[i]))
  }

  /** `INSERT … IF NOT EXISTS` on the bookkeeping table. */
  function AfterRecord(w: World, i: nat, reply: Reply): World
    requires i < |w.runners| && AtWork(w.runners[i])
  {
    var m := w.runners[i].files[w.runners[i].next];
    var absent := m.name !in w.recorded;
    var v := if absent then w.(recorded := w.recorded[m.name := m.checksum], deeds := w.deeds + [Recorded(i, m)]) else w;
    if reply.Failed? then Stop(v, i, Broken)
    else if absent && reply.Faithful? then WithRunner(v, i, Passed(w.runners[i]))
    else WithRunner(v, i, w.runners[i].(phase := Rechecking))
  }

  function Do(w: World, a: Act): World
    requires Enabled(w, a)
  {
    match a
    case Launch(files) => w.(runners := w.runners + [Launched(files)])
    case LookUp(i) => AfterLookUp(w, i, w.runners[i].(phase := Executing), Modified)
    case Execute(i, ok) =>
      if ok then
        var m := w.runners[i].files[w.runners[i].next];
        WithRunner(w, i, w.runners[i].(phase := Recording)).(deeds := w.deeds + [Executed(i, m)])
      else Stop(w, i, ExecutionFailed)
    case Record(i, reply) => AfterRecord(w, i, reply)
    case Recheck(i) => AfterLookUp(w, i, w.runners[i].(phase := Stopped(Vanished)), RaceLost)
    case Crash(i) => Stop(w, i, Broken)
  }

  function Step(w: World, a: Act): World {
    if Enabled(w, a) then Do(w, a) else w
  }

  function Run(w: World, acts: seq<Act>): World {
    if acts == [] then w else Step(Run(w, acts[..|acts| - 1]), acts[|acts| - 1])
  }

  /** Before the first launch of the deployment that we look at. */
  function Begin(recorded: map<string, string>): World {
    World(recorded, [], [])
  }

  // What every step keeps

  predicate Keeps(a: map<string, string>, b: map<string, string>) {
    forall n :: n in a ==> n in b && b[n] == a[n]
  }

  predicate IsRecorded(recorded: map<string, string>, m: Migration) {
    m.name in recorded && recorded[m.name] == m.checksum
  }

  predicate ExecutedBefore(deeds: seq<Deed>, runner: nat, m: Migration, q: nat) {
    exists p :: 0 <= p < q && p < |deeds| && deeds[p] == Executed(runner, m)
  }

  predicate RunnerOk(w: World, i: nat)
    requires i < |w.runners|
  {
    var r := w.runners[i];
    && r.next <= |r.files|
    && (r.phase.Finished? <==> r.next == |r.files|)
    && (forall j :: 0 <= j < r.next ==> IsRecorded(w.recorded, r.files[j]))
    && (r.phase.Recording? ==> ExecutedBefore(w.deeds, i, r.files[r.next], |w.deeds|))
    && (r.phase.Rechecking? ==> r.files[r.next].name in w.recorded)
    && r.phase != Stopped(Vanished)
  }

  /** Each bookkeeping row was there at the start or was put down by a runner that had executed the file. */
  predicate RowOk(base: map<string, string>, w: World, name: string)
    requires name in w.recorded
  {
    || (name in base && base[name] == w.recorded[name])
    || exists q :: 0 <= q < |w.deeds| && w.deeds[q].Recorded? && w.deeds[q].migration == Migration(name, w.recorded[name])
  }

  predicate DeedOk(deeds: seq<Deed>, q: nat)
    requires q < |deeds|
  {
    deeds[q].Recorded? ==> ExecutedBefore(deeds, deeds[q].runner, deeds[q].migration, q)
  }

  predicate Inv(base: map<string, string>, w: World) {
    && Keeps(base, w.recorded)
    && (forall i :: 0 <= i < |w.runners| ==> RunnerOk(w, i))
    && (forall n :: n in w.recorded ==> RowOk(base, w, n))
    && (forall q :: 0 <= q < |w.deeds| ==> DeedOk(w.deeds, q))
  }

  lemma MoreDeeds(deeds: seq<Deed>, d: Deed, runner: nat, m: Migration, q: nat)
    requires ExecutedBefore(deeds, runner, m, q)
    ensures ExecutedBefore(deeds + [d], runner, m, q)
  {
    var p :| 0 <= p < q && p < |deeds| && deeds[p] == Executed(runner, m);
    assert (deeds + [d])[p] == Executed(runner, m);
  }

  /** One more deed keeps what is known of runners and rows. */
  lemma DeedStep(base: map<string, string>, w: World, v: World)
    requires Inv(base, w) && v.runners == w.runners && Keeps(w.recorded, v.recorded)
    requires |v.deeds| == |w.deeds| + 1 && v.deeds == w.deeds + [v.deeds[|w.deeds|]]
    requires DeedOk(v.deeds, |w.deeds|)
    requires forall n :: n in v.recorded && n !in w.recorded ==> RowOk(base, v, n)
    ensures Inv(base, v)
  {
    var d := v.deeds[|w.deeds|];
    forall i | 0 <= i < |v.runners|
      ensures RunnerOk(v, i)
    {
      assert RunnerOk(w, i);
      if v.runners[i].phase.Recording? {
        MoreDeeds(w.deeds, d, i, v.runners[i].files[v.runners[i].next], |w.deeds|);
      }
    }
    forall q | 0 <= q < |v.deeds|
      ensures DeedOk(v.deeds, q)
    {
      if q < |w.deeds| && w.deeds[q].Recorded? {
        assert DeedOk(w.deeds, q);
        MoreDeeds(w.deeds, d, w.deeds[q].runner, w.deeds[q].migration, q);
      }
    }
    forall n | n in v.recorded
      ensures RowOk(base, v, n)
    {
      if n in w.recorded {
        assert RowOk(base, w, n);
        if q :| 0 <= q < |w.deeds| && w.deeds[q].Recorded? && w.deeds[q].migration == Migration(n, w.recorded[n]) {
          assert v.deeds[q] == w.deeds[q];
        }
      }
    }
  }

  /** A runner moves on; the shared state stays. */
  lemma RunnerStep(base: map<string, string>, w: World, i: nat, r: Runner)
    requires Inv(base, w) && i < |w.runners| && RunnerOk(WithRunner(w, i, r), i)
    ensures Inv(base, WithRunner(w, i, r))
  {
    var v := WithRunner(w, i, r);
    forall k | 0 <= k < |v.runners|
      ensures RunnerOk(v, k)
    {
      if k != i {
        assert RunnerOk(w, k);
      }
    }
    forall n | n in v.recorded
      ensures RowOk(base, v, n)
    {
      assert RowOk(base, w, n);
    }
  }

  lemma LaunchStep(base: map<string, string>, w: World, files: seq<Migration>)
    requires Inv(base, w)
    ensures Inv(base, Do(w, Launch(files)))
  {
    var v := Do(w, Launch(files));
    forall k | 0 <= k < |v.runners|
      ensures RunnerOk(v, k)
    {
      if k < |w.runners| {
        assert RunnerOk(w, k);
      }
    }
    forall n | n in v.recorded
      ensures RowOk(base, v, n)
    {
      assert RowOk(base, w, n);
    }
  }

  lemma ExecuteStep(base: map<string, string>, w: World, i: nat)
    requires Inv(base, w) && Enabled(w, Execute(i, true))
    ensures Inv(base, Do(w, Execute(i, true)))
  {
    var m := w.runners[i].files[w.runners[i].next];
    var v := w.(deeds := w.deeds + [Executed(i, m)]);
    assert RunnerOk(w, i);
    DeedStep(base, w, v);
    assert v.deeds[|w.deeds|] == Executed(i, m);
    RunnerStep(base, v, i, w.runners[i].(phase := Recording));
  }

  lemma RecordStep(base: map<string, string>, w: World, i: nat, reply: Reply)
    requires Inv(base, w) && Enabled(w, Record(i, reply))
    ensures Inv(base, Do(w, Record(i, reply)))
  {
    var r := w.runners[i];
    var m := r.files[r.next];
    var v := if m.name in w.recorded then w
             else w.(recorded := w.recorded[m.name := m.checksum], deeds := w.deeds + [Recorded(i, m)]);
    assert RunnerOk(w, i);
    if m.name !in w.recorded {
      MoreDeeds(w.deeds, Recorded(i, m), i, m, |w.deeds|);
      assert v.deeds[|w.deeds|] == Recorded(i, m);
      DeedStep(base, w, v);
    }
    assert RunnerOk(v, i);
    RunnerStep(base, v, i, Do(w, Record(i, reply)).runners[i]);
  }

  lemma InvStep(base: map<string, string>, w: World, a: Act)
    requires Inv(base, w)
    ensures Inv(base, Step(w, a)) && Keeps(w.recorded, Step(w, a).recorded)
  {
    if !Enabled(w, a) {
    } else if a.Launch? {
      LaunchStep(base, w, a.files);
    } else if a.Execute? && a.ok {
      ExecuteStep(base, w, a.runner);
    } else if a.Record? {
      RecordStep(base, w, a.runner, a.reply);
    } else {
      assert RunnerOk(w, a.runner);
      RunnerStep(base, w, a.runner, Do(w, a).runners[a.runner]);
    }
  }

  lemma {:induction false} InvRun(base: map<string, string>, acts: seq<Act>)
    ensures Inv(base, Run(Begin(base), acts))
  {
    if acts != [] {
      InvRun(base, acts[..|acts| - 1]);
      InvStep(base, Run(Begin(base), acts[..|acts| - 1]), acts[|acts| - 1]);
    }
  }

  // What follows for every run

  /** Recorded rows never change and never go away. */
  lemma {:induction false} RowsNeverChange(base: map<string, string>, acts: seq<Act>, n: nat)
    requires n <= |acts|
    ensures Keeps(Run(Begin(base), acts[..n]).recorded, Run(Begin(base), acts).recorded)
  {
    if n < |acts| {
      var m := |acts| - 1;
      RowsNeverChange(base, acts[..m], n);
      assert acts[..m][..n] == acts[..n];
      InvRun(base, acts[..m]);
      InvStep(base, Run(Begin(base), acts[..m]), acts[m]);
    } else {
      assert acts[..n] == acts;
    }
  }

  /** Every new row belongs to a file that the recording runner had executed before. */
  lemma RecordedWasExecuted(base: map<string, string>, acts: seq<Act>, name: string) returns (p: nat, q: nat)
    requires name in Run(Begin(base), acts).recorded && name !in base
    ensures var w := Run(Begin(base), acts);
      && p < q < |w.deeds| && w.deeds[q].Recorded? && w.deeds[q].migration == Migration(name, w.recorded[name])
      && w.deeds[p] == Executed(w.deeds[q].runner, w.deeds[q].migration)
  {
    var w := Run(Begin(base), acts);
    InvRun(base, acts);
    assert RowOk(base, w, name);
    q :| 0 <= q < |w.deeds| && w.deeds[q].Recorded? && w.deeds[q].migration == Migration(name, w.recorded[name]);
    assert DeedOk(w.deeds, q);
    p :| 0 <= p < q && p < |w.deeds| && w.deeds[p] == Executed(w.deeds[q].runner, w.deeds[q].migration);
  }

  /** Two runners that both end well agree on the checksum of every file that they share. */
  lemma FinishedRunnersAgree(base: map<string, string>, acts: seq<Act>, i: nat, k: nat, a: Migration, b: Migration)
    requires var w := Run(Begin(base), acts);
      && i < |w.runners| && k < |w.runners| && w.runners[i].phase.Finished? && w.runners[k].phase.Finished?
      && a in w.runners[i].files && b in w.runners[k].files
    ensures a.name == b.name ==> a.checksum == b.checksum
  {
    var w := Run(Begin(base), acts);
    InvRun(base, acts);
    assert RunnerOk(w, i) && RunnerOk(w, k);
    var x :| 0 <= x < |w.runners[i].files| && w.runners[i].files[x] == a;
    var y :| 0 <= y < |w.runners[k].files| && w.runners[k].files[y] == b;
    assert IsRecorded(w.recorded, w.runners[i].files[x]) && IsRecorded(w.recorded, w.runners[k].files[y]);
  }

  /** The error for a bookkeeping row that vanished is never raised, lost replies included. */
  lemma NothingVanishes(base: map<string, string>, acts: seq<Act>, i: nat)
    requires i < |Run(Begin(base), acts).runners|
    ensures Run(Begin(base), acts).runners[i].phase != Stopped(Vanished)
  {
    InvRun(base, acts);
    assert RunnerOk(Run(Begin(base), acts), i);
  }

  // One file list for everybody

  predicate DistinctNames(files: seq<Migration>) {
    forall j, k :: 0 <= j < k < |files| ==> files[j].name != files[k].name
  }

  /** The recorded names are those of the first `n` files. */
  predicate RecordedPrefix(recorded: map<string, string>, files: seq<Migration>, n: nat) {
    && n <= |files|
    && (forall k :: 0 <= k < |files| ==> (files[k].name in recorded <==> k < n))
    && (forall name :: name in recorded ==> exists k :: 0 <= k < n && files[k].name == name)
  }

  predicate SameList(w: World, files: seq<Migration>) {
    forall i :: 0 <= i < |w.runners| ==> w.runners[i].files == files
  }

  predicate LaunchesOnly(acts: seq<Act>, files: seq<Migration>) {
    forall a :: a in acts && a.Launch? ==> a.files == files
  }

  /** What a step of a runner can change. */
  lemma StepShape(w: World, a: Act)
    requires Enabled(w, a) && !a.Launch?
    ensures var v, r := Do(w, a), w.runners[a.runner];
      var m := r.files[r.next];
      && |v.runners| == |w.runners| && v.runners[a.runner].files == r.files
      && v.runners == w.runners[a.runner := v.runners[a.runner]]
      && (v.recorded == w.recorded || (a.Record? && m.name !in w.recorded && v.recorded == w.recorded[m.name := m.checksum]))
      && (v.deeds == w.deeds || v.deeds == w.deeds + [Executed(a.runner, m)] || v.deeds == w.deeds + [Recorded(a.runner, m)])
  {
  }

  lemma OneMoreRecorded(recorded: map<string, string>, files: seq<Migration>, n: nat, checksum: string)
    requires DistinctNames(files) && RecordedPrefix(recorded, files, n) && n < |files|
    ensures RecordedPrefix(recorded[files[n].name := checksum], files, n + 1)
  {
    var recorded' := recorded[files[n].name := checksum];
    forall name | name in recorded'
      ensures exists k :: 0 <= k < n + 1 && files[k].name == name
    {
      if name != files[n].name {
        var k :| 0 <= k < n && files[k].name == name;
      }
    }
  }

  lemma PrefixStep(base: map<string, string>, w: World, a: Act, files: seq<Migration>, n: nat) returns (n': nat)
    requires Inv(base, w) && DistinctNames(files) && SameList(w, files) && RecordedPrefix(w.recorded, files, n)
    requires a.Launch? ==> a.files == files
    ensures SameList(Step(w, a), files) && RecordedPrefix(Step(w, a).recorded, files, n') && n <= n'
  {
    n' := n;
    if Enabled(w, a) && !a.Launch? {
      StepShape(w, a);
      var v, r := Do(w, a), w.runners[a.runner];
      if v.recorded != w.recorded {
        assert RunnerOk(w, a.runner);
        assert files[n].name !in w.recorded;
        assert r.next == n;
        n' := n + 1;
        OneMoreRecorded(w.recorded, files, n, files[n].checksum);
      }
    }
  }

  /** While everybody runs one list, the recorded names are always a prefix of it, and the prefix only grows. */
  lemma {:induction false} RecordedNamesFormPrefix(base: map<string, string>, acts: seq<Act>, files: seq<Migration>, n: nat)
      returns (n': nat)
    requires DistinctNames(files) && LaunchesOnly(acts, files) && RecordedPrefix(base, files, n)
    ensures SameList(Run(Begin(base), acts), files)
    ensures RecordedPrefix(Run(Begin(base), acts).recorded, files, n') && n <= n'
  {
    if acts == [] {
      n' := n;
    } else {
      var m := |acts| - 1;
      assert forall a :: a in acts[..m] ==> a in acts;
      assert acts[m] in acts;
      var k := RecordedNamesFormPrefix(base, acts[..m], files, n);
      InvRun(base, acts[..m]);
      n' := PrefixStep(base, Run(Begin(base), acts[..m]), acts[m], files, k);
    }
  }

  // Running again

  predicate AllRecorded(recorded: map<string, string>, files: seq<Migration>) {
    forall m :: m in files ==> IsRecorded(recorded, m)
  }

  /** Runners launched after `since` for recorded files only look rows up. */
  predicate Quiet(since: World, v: World) {
    && |since.runners| <= |v.runners| && |since.deeds| <= |v.deeds|
    && (forall q :: |since.runners| <= q < |v.runners| && AllRecorded(since.recorded, v.runners[q].files) ==>
          LooksOnly(v.runners[q]))
    && (forall p :: |since.deeds| <= p < |v.deeds| ==>
          NotByRerun(since, v, v.deeds[p]))
  }

  predicate LooksOnly(r: Runner) {
    r.phase.Looking? || r.phase.Finished? || r.phase == Stopped(Broken)
  }

  predicate NotByRerun(since: World, v: World, d: Deed) {
    |since.runners| <= d.runner < |v.runners| ==> !AllRecorded(since.recorded, v.runners[d.runner].files)
  }

  lemma QuietStep(base: map<string, string>, since: World, v: World, a: Act)
    requires Inv(base, v) && Keeps(since.recorded, v.recorded) && Quiet(since, v)
    requires forall p :: 0 <= p < |v.deeds| ==> v.deeds[p].runner < |v.runners|
    ensures Quiet(since, Step(v, a))
    ensures forall p :: 0 <= p < |Step(v, a).deeds| ==> Step(v, a).deeds[p].runner < |Step(v, a).runners|
  {
    var u := Step(v, a);
    if Enabled(v, a) && !a.Launch? {
      var i := a.runner;
      var r := v.runners[i];
      StepShape(v, a);
      assert RunnerOk(v, i);
      assert u.runners[i].files == r.files;
      if i >= |since.runners| && AllRecorded(since.recorded, r.files) {
        assert LooksOnly(r);
        assert r.files[r.next] in r.files;
        assert IsRecorded(v.recorded, r.files[r.next]);
      }
    }
  }

  lemma {:induction false} QuietRun(base: map<string, string>, w: World, more: seq<Act>)
    requires Inv(base, w) && forall p :: 0 <= p < |w.deeds| ==> w.deeds[p].runner < |w.runners|
    ensures var v := Run(w, more);
      && Inv(base, v) && Keeps(w.recorded, v.recorded) && Quiet(w, v)
      && forall p :: 0 <= p < |v.deeds| ==> v.deeds[p].runner < |v.runners|
  {
    if more != [] {
      var m := |more| - 1;
      QuietRun(base, w, more[..m]);
      InvStep(base, Run(w, more[..m]), more[m]);
      QuietStep(base, w, Run(w, more[..m]), more[m]);
    }
  }

  lemma {:induction false} DeedsHaveRunners(base: map<string, string>, acts: seq<Act>)
    ensures var w := Run(Begin(base), acts); forall p :: 0 <= p < |w.deeds| ==> w.deeds[p].runner < |w.runners|
  {
    QuietRun(base, Begin(base), acts);
  }

  /**
   Once a runner has ended well, a later runner over the same files executes nothing, whoever else runs: it
   finds every row with its own checksum, so only a crash can stop it.
   */
  lemma RerunExecutesNothing(base: map<string, string>, acts: seq<Act>, i: nat, more: seq<Act>, q: nat)
    requires var w := Run(Begin(base), acts);
      i < |w.runners| && w.runners[i].phase.Finished? && |w.runners| <= q
    requires var w := Run(Begin(base), acts); var v := Run(w, more);
      q < |v.runners| && forall m :: m in v.runners[q].files ==> m in w.runners[i].files
    ensures var w := Run(Begin(base), acts); var v := Run(w, more);
      && LooksOnly(v.runners[q])
      && forall p :: 0 <= p < |v.deeds| ==> v.deeds[p].runner != q
  {
    var w := Run(Begin(base), acts);
    var v := Run(w, more);
    InvRun(base, acts);
    DeedsHaveRunners(base, acts);
    QuietRun(base, w, more);
    assert RunnerOk(w, i);
    forall m | m in v.runners[q].files
      ensures IsRecorded(w.recorded, m)
    {
      var j :| 0 <= j < |w.runners[i].files| && w.runners[i].files[j] == m;
    }
    DeedsExtend(w, more);
    forall p | 0 <= p < |v.deeds|
      ensures v.deeds[p].runner != q
    {
      if p >= |w.deeds| {
        assert NotByRerun(w, v, v.deeds[p]);
      }
    }
  }

  lemma {:induction false} DeedsExtend(w: World, more: seq<Act>)
    ensures w.deeds <= Run(w, more).deeds
  {
    if more != [] {
      DeedsExtend(w, more[..|more| - 1]);
    }
  }
}
