/** `run_migrations`, step by step; `trace` records the run so far, so what is proved of all runs holds of the object. */
module MigrationRunner {
  import opened Records
  import StoreProtocol
  import opened Environment
  import opened Migrations

  /** The bookkeeping after these files were run with nobody else around: missing rows are added. */
  function Overlay(recorded: map<string, string>, files: seq<Migration>): map<string, string> {
    if files == [] then recorded
    else
      var m := files[|files| - 1];
      var prior := Overlay(recorded, files[..|files| - 1]);
      if m.name in prior then prior else prior[m.name := m.checksum]
  }

  /** What runner `i` does for these files then: files without a row are executed and recorded, in order. */
  function Work(recorded: map<string, string>, files: seq<Migration>, i: nat): seq<Deed> {
    if files == [] then []
    else
      var m := files[|files| - 1];
      var prior := Work(recorded, files[..|files| - 1], i);
      if m.name in recorded then prior else prior + [Executed(i, m), Recorded(i, m)]
  }

  lemma {:induction false} OverlayNames(recorded: map<string, string>, files: seq<Migration>, name: string)
    requires forall k :: 0 <= k < |files| ==> files[k].name != name
    ensures Lookup(Overlay(recorded, files), name) == Lookup(recorded, name)
  {
    if files != [] {
      OverlayNames(recorded, files[..|files| - 1], name);
    }
  }

  predicate ActsFor(a: Act, me: nat) {
    !a.Launch? && a.runner == me
  }

  lemma RecordEffect(w: World, i: nat, reply: Reply)
    requires Enabled(w, Record(i, reply))
    ensures var v, r := Do(w, Record(i, reply)), w.runners[i];
      var m := r.files[r.next];
      && |v.runners| == |w.runners|
      && v.runners[i] == (if reply.Failed? then r.(phase := Stopped(Broken))
                          else if m.name !in w.recorded && reply.Faithful? then Passed(r) else r.(phase := Rechecking))
      && (m.name !in w.recorded ==>
        v.recorded == w.recorded[m.name := m.checksum] && v.deeds == w.deeds + [Recorded(i, m)])
  {
  }

  class Session {
    var world: World
    ghost var base: map<string, string>
    ghost var trace: seq<Act>

    ghost predicate Valid()
      reads this
    {
      world == Run(Begin(base), trace)
    }

    constructor (recorded: map<string, string>)
      ensures Valid() && world == Begin(recorded) && base == recorded && trace == []
    {
      world := Begin(recorded);
      base := recorded;
      trace := [];
    }

    method Atomic(a: Act)
      requires Valid() && Enabled(world, a)
      modifies this
      ensures Valid() && world == Do(old(world), a) && base == old(base) && trace == old(trace) + [a]
    {
      assert (trace + [a])[..|trace|] == trace;
      world := Do(world, a);
      trace := trace + [a];
    }

    /** Other runners start, work and crash. */
    method Others(w: Setting, me: nat)
      requires Valid() && me < |world.runners|
      modifies this
      ensures Valid() && base == old(base) && old(trace) <= trace
      ensures me < |world.runners| && world.runners[me] == old(world).runners[me]
      ensures !w.shared ==> world == old(world)
    {
      var wish: int := *;
      var steps := if wish < 0 || !w.shared then 0 else wish;
      for i := 0 to steps
        invariant Valid() && base == old(base) && old(trace) <= trace
        invariant me < |world.runners| && world.runners[me] == old(world).runners[me]
        invariant i == 0 ==> world == old(world)
      {
        var a: Act := *;
        if Enabled(world, a) && !ActsFor(a, me) {
          Atomic(a);
        }
      }
    }

    /** The runner stands before file `n`, or behind the last one. */
    ghost predicate Before(me: nat, files: seq<Migration>, n: nat)
      reads this
    {
      && me < |world.runners|
      && world.runners[me] == Runner(files, n, if n == |files| then Finished else Looking)
    }

    ghost predicate HasStopped(me: nat, files: seq<Migration>)
      reads this
    {
      me < |world.runners| && world.runners[me].files == files && world.runners[me].phase.Stopped?
    }

    /** `run_migrations`, with the sorted list of embedded files. */
    method RunMigrations(w: Setting, files: seq<Migration>) returns (ok: bool, ghost me: nat)
      requires Valid()
      modifies this
      ensures Valid() && base == old(base) && old(trace) <= trace
      ensures me == |old(world).runners|
      ensures if ok then Before(me, files, |files|) else HasStopped(me, files)
      ensures w == UNDISTURBED && DistinctNames(files) ==> SoloRun(old(world), world, me, files, ok)
    {
      me := |world.runners|;
      var mine := |world.runners|;
      Atomic(Launch(files));
      for n := 0 to |files|
        invariant Valid() && base == old(base) && old(trace) <= trace
        invariant Before(me, files, n)
        invariant w == UNDISTURBED && DistinctNames(files) ==>
          && world.recorded == Overlay(old(world).recorded, files[..n])
          && world.deeds == old(world).deeds + Work(old(world).recorded, files[..n], me)
      {
        ghost var earlier := world;
        ok := RunOne(w, mine, files, n);
        if w == UNDISTURBED && DistinctNames(files) {
          OverlayNames(old(world).recorded, files[..n], files[n].name);
          assert files[..n + 1][..n] == files[..n];
        }
        if !ok {
          return;
        }
      }
      assert files[..|files|] == files;
      ok := true;
    }

    /** One file: look it up; execute and record it when it has no row. */
    method RunOne(w: Setting, me: nat, ghost files: seq<Migration>, ghost n: nat) returns (ok: bool)
      requires Valid() && n < |files| && Before(me, files, n)
      modifies this
      ensures Valid() && base == old(base) && old(trace) <= trace
      ensures if ok then Before(me, files, n + 1) else HasStopped(me, files)
      ensures w == UNDISTURBED ==> SoloFile(old(world), world, me, files, n, ok)
    {
      Others(w, me);
      var down: bool := *;
      if down && w.faulty {
        Atomic(Crash(me));
        return false;
      }
      Atomic(LookUp(me));
      if world.runners[me].phase.Executing? {
        ok := ApplyFile(w, me, files, n);
      } else {
        ok := !world.runners[me].phase.Stopped?;
      }
    }

    /** Execute the file, then record it. */
    method ApplyFile(w: Setting, me: nat, ghost files: seq<Migration>, ghost n: nat) returns (ok: bool)
      requires Valid() && n < |files| && me < |world.runners| && world.runners[me] == Runner(files, n, Executing)
      modifies this
      ensures Valid() && base == old(base) && old(trace) <= trace
      ensures if ok then Before(me, files, n + 1) else HasStopped(me, files)
      ensures w == UNDISTURBED && files[n].name !in old(world).recorded ==>
        && ok
        && world.recorded == old(world).recorded[files[n].name := files[n].checksum]
        && world.deeds == old(world).deeds + [Executed(me, files[n]), Recorded(me, files[n])]
    {
      Others(w, me);
      var down: bool := *;
      if down && w.faulty {
        Atomic(Execute(me, false));
        return false;
      }
      Atomic(Execute(me, true));
      ok := RecordApplied(w, me, files, n);
    }

    /** `record_applied`: insert the row; when that is refused, the row that is there decides. */
    method RecordApplied(w: Setting, me: nat, ghost files: seq<Migration>, ghost n: nat) returns (ok: bool)
      requires Valid() && n < |files| && me < |world.runners| && world.runners[me] == Runner(files, n, Recording)
      modifies this
      ensures Valid() && base == old(base) && old(trace) <= trace
      ensures if ok then Before(me, files, n + 1) else HasStopped(me, files)
      ensures w == UNDISTURBED && files[n].name !in old(world).recorded ==>
        && ok
        && world.recorded == old(world).recorded[files[n].name := files[n].checksum]
        && world.deeds == old(world).deeds + [Recorded(me, files[n])]
    {
      Others(w, me);
      var reached: bool := *;
      if !reached && w.faulty {
        Atomic(Crash(me));
        return false;
      }
      var reply: Reply := *;
      if (!w.faulty && reply.Failed?) || (!w.lossy && reply.ReportedNotApplied?) {
        reply := StoreProtocol.Faithful;
      }
      RecordEffect(world, me, reply);
      Atomic(Record(me, reply));
      if world.runners[me].phase.Rechecking? {
        ok := CompareRecorded(w, me, files, n);
      } else {
        ok := !world.runners[me].phase.Stopped?;
      }
    }

    /** The second lookup, after an insert that was not applied. */
    method CompareRecorded(w: Setting, me: nat, ghost files: seq<Migration>, ghost n: nat) returns (ok: bool)
      requires Valid() && n < |files| && me < |world.runners| && world.runners[me] == Runner(files, n, Rechecking)
      modifies this
      ensures Valid() && base == old(base) && old(trace) <= trace
      ensures if ok then Before(me, files, n + 1) else HasStopped(me, files)
    {
      Others(w, me);
      var down: bool := *;
      if down && w.faulty {
        Atomic(Crash(me));
      } else {
        Atomic(Recheck(me));
      }
      ok := !world.runners[me].phase.Stopped?;
    }
  }

  /** All files with nobody else around: each is done, up to the first one whose row has another checksum. */
  predicate SoloRun(w: World, v: World, me: nat, files: seq<Migration>, ok: bool) {
    && me < |v.runners| && v.runners[me].next <= |files|
    && var n := v.runners[me].next;
      && v.recorded == Overlay(w.recorded, files[..n])
      && v.deeds == w.deeds + Work(w.recorded, files[..n], me)
      && (ok <==> n == |files|)
      && (!ok ==> files[n].name in w.recorded && w.recorded[files[n].name] != files[n].checksum)
  }

  /** One file with nobody else around: a row with its checksum, a row with another one, or no row. */
  predicate SoloFile(w: World, v: World, me: nat, files: seq<Migration>, n: nat, ok: bool)
    requires n < |files|
  {
    var m := files[n];
    if m.name in w.recorded then
      && v.recorded == w.recorded && v.deeds == w.deeds && (ok <==> w.recorded[m.name] == m.checksum)
      && (!ok ==> me < |v.runners| && v.runners[me].next == n)
    else
      && ok
      && v.recorded == w.recorded[m.name := m.checksum]
      && v.deeds == w.deeds + [Executed(me, m), Recorded(me, m)]
  }
}
