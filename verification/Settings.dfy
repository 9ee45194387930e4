/**
 The settings upsert: update if the row exists, else insert if it does not, up to five rounds.

 `log` records every change of one user's row, by whoever made it.
 */
module Settings {
  import opened Wrappers
  import opened Records
  import opened StoreProtocol
  import opened Environment

  datatype SettingsRow = SettingsRow(settings: Bytes, createdAt: int, updatedAt: int)

  datatype Change = Created(row: SettingsRow) | Updated(settings: Bytes, now: int) | Deleted

  datatype SaveFailure = RetriesExhausted | DatabaseFailed

  /** A change takes effect only on a row that is there, a creation only where none is. */
  predicate TakesEffect(row: Option<SettingsRow>, c: Change) {
    if c.Created? then row.None? else row.Some?
  }

  function After(row: Option<SettingsRow>, c: Change): Option<SettingsRow>
    requires TakesEffect(row, c)
  {
    match c
    case Created(r) => Some(r)
    case Updated(settings, now) => Some(row.value.(settings := settings, updatedAt := now))
    case Deleted => None
  }

  function Creations(log: seq<Change>): nat {
    if log == [] then 0 else Creations(log[..|log| - 1]) + if log[|log| - 1].Created? then 1 else 0
  }

  function Deletions(log: seq<Change>): nat {
    if log == [] then 0 else Deletions(log[..|log| - 1]) + if log[|log| - 1].Deleted? then 1 else 0
  }

  /** Creations and deletions alternate, so their difference tells whether the row is there. */
  predicate Balanced(initially: bool, row: Option<SettingsRow>, log: seq<Change>) {
    Creations(log) - Deletions(log) == (if row.Some? then 1 else 0) - (if initially then 1 else 0)
  }

  lemma Snoc(log: seq<Change>, c: Change)
    ensures Creations(log + [c]) == Creations(log) + if c.Created? then 1 else 0
    ensures Deletions(log + [c]) == Deletions(log) + if c.Deleted? then 1 else 0
  {
    assert (log + [c])[..|log|] == log;
  }

  class UsersTable {
    var row: Option<SettingsRow>
    ghost var initially: bool
    ghost var log: seq<Change>

    ghost predicate Valid()
      reads this
    {
      Balanced(initially, row, log)
    }

    constructor (row: Option<SettingsRow>)
      ensures Valid() && this.row == row && log == []
    {
      this.row := row;
      initially := row.Some?;
      log := [];
    }

    method Apply(c: Change)
      requires Valid() && TakesEffect(row, c)
      modifies this
      ensures Valid() && row == After(old(row), c) && log == old(log) + [c] && initially == old(initially)
    {
      Snoc(log, c);
      row := After(row, c);
      log := log + [c];
    }

    /** Other requests change the row any number of times. */
    method Others(w: Setting)
      requires Valid()
      modifies this
      ensures Valid() && initially == old(initially)
      ensures old(log) <= log && old(Creations(log)) <= Creations(log) && old(Deletions(log)) <= Deletions(log)
      ensures !w.shared ==> row == old(row) && log == old(log)
    {
      var wish: int := *;
      var steps := if wish < 0 || !w.shared then 0 else wish;
      for i := 0 to steps
        invariant Valid() && initially == old(initially)
        invariant old(log) <= log && old(Creations(log)) <= Creations(log) && old(Deletions(log)) <= Deletions(log)
        invariant i == 0 ==> row == old(row) && log == old(log)
      {
        var c: Change := *;
        if TakesEffect(row, c) {
          Snoc(log, c);
          Apply(c);
        }
      }
    }

    /** A conditional write; `Some(false)` may also be a lost reply, `None` a failure. */
    method Conditional(w: Setting, c: Change) returns (applied: Option<bool>)
      requires Valid()
      modifies this
      ensures Valid() && initially == old(initially)
      ensures applied.None? ==> w.faulty
      ensures old(Creations(log)) <= Creations(log) && old(Deletions(log)) <= Deletions(log)
      ensures applied.Some? && applied.value ==>
        old(TakesEffect(row, c)) && row == After(old(row), c) && log == old(log) + [c]
      ensures applied.Some? && !applied.value && !w.lossy ==> !old(TakesEffect(row, c)) && row == old(row) && log == old(log)
    {
      var reached: bool := *;
      if !reached && w.faulty {
        return None;
      }
      var reply: Reply := *;
      var effective := TakesEffect(row, c);
      if effective {
        Snoc(log, c);
        Apply(c);
      }
      if reply.Failed? && w.faulty {
        return None;
      }
      return Some(effective && !(reply.ReportedNotApplied? && w.lossy));
    }

    /** A change on record that puts these settings down. */
    ghost predicate Holds(at: nat, settings: Bytes, now: int)
      reads this
    {
      at < |log| && (log[at] == Updated(settings, now) || log[at] == Created(SettingsRow(settings, now, now)))
    }

    /** One round; `Some(false)` when neither statement was applied, as far as the caller can tell. */
    method Round(w: Setting, settings: Bytes, now: int) returns (done: Option<bool>)
      requires Valid()
      modifies this
      ensures Valid() && initially == old(initially)
      ensures old(Creations(log)) <= Creations(log) && old(Deletions(log)) <= Deletions(log)
      ensures done.None? ==> w.faulty
      ensures done.Some? && done.value ==> log != [] && Holds(|log| - 1, settings, now)
      ensures done.Some? && !done.value && !w.lossy ==> row.Some? && Creations(log) > old(Creations(log))
      ensures old(row).Some? && done.Some? && !done.value && !w.lossy ==> Deletions(log) > old(Deletions(log))
      ensures w == UNDISTURBED ==>
        && done.Some? && done.value
        && row == Some(SettingsRow(settings, if old(row).Some? then old(row).value.createdAt else now, now))
    {
      Others(w);
      done := Conditional(w, Updated(settings, now));
      if done.Some? && !done.value {
        Others(w);
        done := Conditional(w, Created(SettingsRow(settings, now, now)));
      }
    }

    /**
     `save_user_settings`; `Ok` carries the stamp of the write. Five rounds in vain mean five creations and four
     deletions by others, so without deletions two rounds are enough. `rounds` counts the rounds that began.
     */
    method SaveUserSettings(w: Setting, settings: Bytes)
      returns (result: Result<int, SaveFailure>, ghost rounds: nat)
      requires Valid()
      modifies this
      ensures Valid() && initially == old(initially)
      ensures result == Err(DatabaseFailed) ==> w.faulty
      ensures result.Ok? ==> log != [] && Holds(|log| - 1, settings, result.value)
      ensures result == Err(RetriesExhausted) && !w.lossy ==>
        Creations(log) >= old(Creations(log)) + 5 && Deletions(log) >= old(Deletions(log)) + 4
      ensures !w.lossy && Deletions(log) == old(Deletions(log)) && result != Err(DatabaseFailed) ==>
        result.Ok? && rounds <= 2
      ensures w == UNDISTURBED ==>
        && rounds == 1 && result.Ok?
        && row == Some(SettingsRow(settings, if old(row).Some? then old(row).value.createdAt else result.value,
                                   result.value))
    {
      var now: int := *;
      rounds := 0;
      for i := 0 to LWT_MAX_RETRIES
        invariant Valid() && initially == old(initially) && rounds == i
        invariant w == UNDISTURBED ==> i == 0 && row == old(row)
        invariant !w.lossy && i > 0 ==>
          && row.Some?
          && Creations(log) >= old(Creations(log)) + i && Deletions(log) >= old(Deletions(log)) + i - 1
        invariant old(Creations(log)) <= Creations(log) && old(Deletions(log)) <= Deletions(log)
      {
        rounds := rounds + 1;
        var done := Round(w, settings, now);
        if done.None? {
          return Err(DatabaseFailed), rounds;
        }
        if done.value {
          return Ok(now), rounds;
        }
      }
      return Err(RetriesExhausted), rounds;
    }
  }
}
