/**
 Issuing the secret of a user: any number of `get_or_create` calls at once, with account deletions in between.

 The log has every change of the table and every secret that a call returned.
 */
module AuthSecrets {
  import opened Wrappers
  import opened Records
  import opened Environment
  import StoreProtocol

  type Reply = StoreProtocol.Reply

  type Secrets = map<string, string>

  /** `since` is the length of the log when the insert was refused, `until` when the row was read again. */
  datatype Phase =
    | Inserting
    | Rereading(since: nat)
    | Returned(secret: string)
    | Vanished(since: nat, until: nat)
    | Broken

  datatype Task = Task(user: string, candidate: string, phase: Phase)

  datatype Event = Issued(user: string, secret: string) | Deleted(user: string) | Answered(user: string, secret: string)

  datatype Action =
    | Begin(user: string, candidate: string)
    | Insert(task: nat, reply: Reply)
    | Reread(task: nat)
    | Delete(user: string)
    | Crash(task: nat)

  datatype State = State(secrets: Secrets, tasks: seq<Task>, log: seq<Event>)

  predicate Enabled(s: State, a: Action) {
    match a
    case Begin(_, _) => true
    case Insert(i, _) => i < |s.tasks| && s.tasks[i].phase.Inserting?
    case Reread(i) => i < |s.tasks| && s.tasks[i].phase.Rereading?
    case Delete(_) => true
    case Crash(i) => i < |s.tasks| && (s.tasks[i].phase.Inserting? || s.tasks[i].phase.Rereading?)
  }

  function Move(s: State, i: nat, phase: Phase): State
    requires i < |s.tasks|
  {
    s.(tasks := s.tasks[i := s.tasks[i].(phase := phase)])
  }

  /** A call ends with a secret. */
  function Answer(s: State, i: nat, secret: string): State
    requires i < |s.tasks|
  {
    Move(s, i, Returned(secret)).(log := s.log + [Answered(s.tasks[i].user, secret)])
  }

  /** `INSERT … IF NOT EXISTS` of the call's own candidate. */
  function Inserted(s: State, i: nat): State
    requires i < |s.tasks|
  {
    var t := s.tasks[i];
    if t.user in s.secrets then s
    else s.(secrets := s.secrets[t.user := t.candidate], log := s.log + [Issued(t.user, t.candidate)])
  }

  function Do(s: State, a: Action): State
    requires Enabled(s, a)
  {
    match a
    case Begin(user, candidate) => s.(tasks := s.tasks + [Task(user, candidate, Inserting)])
    case Insert(i, reply) =>
      var t := Inserted(s, i);
      if reply.Failed? then Move(t, i, Broken)
      else if s.tasks[i].user !in s.secrets && reply.Faithful? then Answer(t, i, s.tasks[i].candidate)
      else Move(t, i, Rereading(|t.log|))
    case Reread(i) =>
      var user := s.tasks[i].user;
      if user in s.secrets then Answer(s, i, s.secrets[user])
      else Move(s, i, Vanished(s.tasks[i].phase.since, |s.log|))
    case Delete(user) => s.(secrets := s.secrets - {user}, log := s.log + [Deleted(user)])
    case Crash(i) => Move(s, i, Broken)
  }

  function Step(s: State, a: Action): State {
    if Enabled(s, a) then Do(s, a) else s
  }

  function Run(s: State, acts: seq<Action>): State {
    if acts == [] then s else Step(Run(s, acts[..|acts| - 1]), acts[|acts| - 1])
  }

  function Start(secrets: Secrets): State {
    State(secrets, [], [])
  }

  // The log tells the table

  function Effect(secrets: Secrets, e: Event): Secrets {
    match e
    case Issued(user, secret) => secrets[user := secret]
    case Deleted(user) => secrets - {user}
    case Answered(_, _) => secrets
  }

  function Replay(base: Secrets, log: seq<Event>): Secrets {
    if log == [] then base else Effect(Replay(base, log[..|log| - 1]), log[|log| - 1])
  }

  /** An issue finds no row; an answer is the row of its moment. */
  predicate EventOk(base: Secrets, log: seq<Event>, p: nat)
    requires p < |log|
  {
    var before := Replay(base, log[..p]);
    match log[p]
    case Issued(user, _) => user !in before
    case Deleted(_) => true
    case Answered(user, secret) => Lookup(before, user) == Some(secret)
  }

  predicate TaskOk(base: Secrets, log: seq<Event>, t: Task) {
    match t.phase
    case Rereading(since) => since <= |log| && t.user in Replay(base, log[..since])
    case Vanished(since, until) =>
      since <= until <= |log| && t.user in Replay(base, log[..since]) && t.user !in Replay(base, log[..until])
    case _ => true
  }

  predicate Inv(base: Secrets, s: State) {
    && s.secrets == Replay(base, s.log)
    && (forall p :: 0 <= p < |s.log| ==> EventOk(base, s.log, p))
    && (forall i :: 0 <= i < |s.tasks| ==> TaskOk(base, s.log, s.tasks[i]))
  }

  lemma LogStep(base: Secrets, s: State, e: Event)
    requires Inv(base, s) && EventOk(base, s.log + [e], |s.log|)
    ensures Inv(base, State(Effect(s.secrets, e), s.tasks, s.log + [e]))
  {
    var log := s.log + [e];
    assert log[..|s.log|] == s.log;
    forall p | 0 <= p < |log|
      ensures EventOk(base, log, p)
    {
      if p < |s.log| {
        assert EventOk(base, s.log, p);
        assert log[..p] == s.log[..p];
      }
    }
    forall i | 0 <= i < |s.tasks|
      ensures TaskOk(base, log, s.tasks[i])
    {
      assert TaskOk(base, s.log, s.tasks[i]);
      LongerLog(base, s.log, e, s.tasks[i]);
    }
  }

  lemma LongerLog(base: Secrets, log: seq<Event>, e: Event, t: Task)
    requires TaskOk(base, log, t)
    ensures TaskOk(base, log + [e], t)
  {
    if t.phase.Rereading? || t.phase.Vanished? {
      assert (log + [e])[..t.phase.since] == log[..t.phase.since];
      if t.phase.Vanished? {
        assert (log + [e])[..t.phase.until] == log[..t.phase.until];
      }
    }
  }

  lemma MoveStep(base: Secrets, s: State, i: nat, phase: Phase)
    requires Inv(base, s) && i < |s.tasks| && TaskOk(base, s.log, s.tasks[i].(phase := phase))
    ensures Inv(base, Move(s, i, phase))
  {
  }

  lemma InsertStep(base: Secrets, s: State, i: nat, reply: Reply)
    requires Inv(base, s) && Enabled(s, Insert(i, reply))
    ensures Inv(base, Do(s, Insert(i, reply)))
  {
    var t := s.tasks[i];
    var u := Inserted(s, i);
    assert s.log[..|s.log|] == s.log && u.log[..|u.log|] == u.log;
    if t.user !in s.secrets {
      assert (s.log + [Issued(t.user, t.candidate)])[..|s.log|] == s.log;
      LogStep(base, s, Issued(t.user, t.candidate));
    }
    if reply.Failed? {
      MoveStep(base, u, i, Broken);
    } else if t.user !in s.secrets && reply.Faithful? {
      AnswerStep(base, u, i, t.candidate);
    } else {
      MoveStep(base, u, i, Rereading(|u.log|));
    }
  }

  lemma AnswerStep(base: Secrets, s: State, i: nat, secret: string)
    requires Inv(base, s) && i < |s.tasks| && Lookup(s.secrets, s.tasks[i].user) == Some(secret)
    ensures Inv(base, Answer(s, i, secret))
  {
    var e := Answered(s.tasks[i].user, secret);
    assert (s.log + [e])[..|s.log|] == s.log;
    LogStep(base, s, e);
    MoveStep(base, State(s.secrets, s.tasks, s.log + [e]), i, Returned(secret));
  }

  lemma InvStep(base: Secrets, s: State, a: Action)
    requires Inv(base, s)
    ensures Inv(base, Step(s, a))
  {
    if !Enabled(s, a) {
    } else if a.Insert? {
      InsertStep(base, s, a.task, a.reply);
    } else if a.Reread? {
      assert TaskOk(base, s.log, s.tasks[a.task]);
      assert s.log[..|s.log|] == s.log;
      var user := s.tasks[a.task].user;
      if user in s.secrets {
        AnswerStep(base, s, a.task, s.secrets[user]);
      } else {
        MoveStep(base, s, a.task, Vanished(s.tasks[a.task].phase.since, |s.log|));
      }
    } else if a.Delete? {
      LogStep(base, s, Deleted(a.user));
    } else if a.Crash? {
      MoveStep(base, s, a.task, Broken);
    }
  }

  lemma {:induction false} InvRun(base: Secrets, acts: seq<Action>)
    ensures Inv(base, Run(Start(base), acts))
  {
    if acts != [] {
      InvRun(base, acts[..|acts| - 1]);
      InvStep(base, Run(Start(base), acts[..|acts| - 1]), acts[|acts| - 1]);
    }
  }

  predicate NotDeleted(log: seq<Event>, user: string, lo: nat, hi: nat) {
    hi <= |log| && forall p :: lo <= p < hi ==> log[p] != Deleted(user)
  }

  /** Between deletions a stored secret does not change. */
  lemma {:induction false} SecretStays(base: Secrets, log: seq<Event>, user: string, lo: nat, hi: nat)
    requires forall p :: 0 <= p < |log| ==> EventOk(base, log, p)
    requires lo <= hi && NotDeleted(log, user, lo, hi) && user in Replay(base, log[..lo])
    ensures Lookup(Replay(base, log[..hi]), user) == Lookup(Replay(base, log[..lo]), user)
    decreases hi
  {
    if lo < hi {
      SecretStays(base, log, user, lo, hi - 1);
      assert log[..hi][..hi - 1] == log[..hi - 1];
      assert EventOk(base, log, hi - 1);
    }
  }

  /** All calls that answer between two deletions of an account give the one stored secret. */
  lemma CallsAgree(base: Secrets, acts: seq<Action>, user: string, p: nat, q: nat)
    requires var log := Run(Start(base), acts).log;
      p <= q < |log| && log[p].Answered? && log[q].Answered? && log[p].user == log[q].user == user
      && NotDeleted(log, user, p, q)
    ensures var log := Run(Start(base), acts).log;
      && log[p].secret == log[q].secret
      && Lookup(Replay(base, log[..q]), user) == Some(log[q].secret)
  {
    var log := Run(Start(base), acts).log;
    InvRun(base, acts);
    assert EventOk(base, log, p) && EventOk(base, log, q);
    SecretStays(base, log, user, p, q);
  }

  /** And while the account is not deleted, that is the secret in the table. */
  lemma AnswerStaysValid(base: Secrets, acts: seq<Action>, user: string, p: nat)
    requires var log := Run(Start(base), acts).log;
      p < |log| && log[p].Answered? && log[p].user == user && NotDeleted(log, user, p, |log|)
    ensures var s := Run(Start(base), acts); Lookup(s.secrets, user) == Some(s.log[p].secret)
  {
    var s := Run(Start(base), acts);
    InvRun(base, acts);
    assert EventOk(base, s.log, p);
    assert s.log[..|s.log|] == s.log;
    SecretStays(base, s.log, user, p, |s.log|);
  }

  /** A call fails for a vanished row only when the account was deleted between its two statements. */
  lemma VanishedMeansDeleted(base: Secrets, acts: seq<Action>, i: nat) returns (p: nat)
    requires var s := Run(Start(base), acts); i < |s.tasks| && s.tasks[i].phase.Vanished?
    ensures var s := Run(Start(base), acts);
      && s.tasks[i].phase.since <= p < s.tasks[i].phase.until && p < |s.log| && s.log[p] == Deleted(s.tasks[i].user)
  {
    var s := Run(Start(base), acts);
    InvRun(base, acts);
    var t := s.tasks[i];
    assert TaskOk(base, s.log, t);
    if NotDeleted(s.log, t.user, t.phase.since, t.phase.until) {
      SecretStays(base, s.log, t.user, t.phase.since, t.phase.until);
      assert false;
    }
    p :| t.phase.since <= p < t.phase.until && s.log[p] == Deleted(t.user);
  }

  predicate ActsFor(a: Action, me: nat) {
    (a.Insert? || a.Reread? || a.Crash?) && a.task == me
  }

  /** The auth table with all calls in flight. */
  class AuthTable {
    var state: State
    ghost var base: Secrets
    ghost var trace: seq<Action>

    ghost predicate Valid()
      reads this
    {
      state == Run(Start(base), trace)
    }

    constructor (secrets: Secrets)
      ensures Valid() && state == Start(secrets) && base == secrets && trace == []
    {
      state := Start(secrets);
      base := secrets;
      trace := [];
    }

    method Atomic(a: Action)
      requires Valid() && Enabled(state, a)
      modifies this
      ensures Valid() && state == Do(old(state), a) && base == old(base) && trace == old(trace) + [a]
    {
      assert (trace + [a])[..|trace|] == trace;
      state := Do(state, a);
      trace := trace + [a];
    }

    method Others(w: Setting, me: nat)
      requires Valid() && me < |state.tasks|
      modifies this
      ensures Valid() && base == old(base) && old(trace) <= trace
      ensures me < |state.tasks| && state.tasks[me] == old(state).tasks[me]
      ensures !w.shared ==> state == old(state)
    {
      var wish: int := *;
      var steps := if wish < 0 || !w.shared then 0 else wish;
      for i := 0 to steps
        invariant Valid() && base == old(base) && old(trace) <= trace
        invariant me < |state.tasks| && state.tasks[me] == old(state).tasks[me]
        invariant i == 0 ==> state == old(state)
      {
        var a: Action := *;
        if Enabled(state, a) && !ActsFor(a, me) {
          Atomic(a);
        }
      }
    }

    /** `get_or_create_user_auth_secret`: insert a random candidate; when that is refused, read what is there. */
    method GetOrCreate(w: Setting, user: string, candidate: string) returns (result: Option<string>)
      requires Valid()
      modifies this
      ensures Valid() && base == old(base) && old(trace) <= trace
      ensures result.Some? ==> state.log != [] && state.log[|state.log| - 1] == Answered(user, result.value)
      ensures result.Some? ==> Lookup(state.secrets, user) == result
      ensures !w.shared && !w.faulty ==>
        && result == Some(if user in old(state).secrets then old(state).secrets[user] else candidate)
        && state.secrets == old(state).secrets[user := result.value]
    {
      var me := |state.tasks|;
      Atomic(Begin(user, candidate));
      Others(w, me);
      var reached: bool := *;
      if !reached && w.faulty {
        Atomic(Crash(me));
        return None;
      }
      var reply: Reply := *;
      if (!w.faulty && reply.Failed?) || (!w.lossy && reply.ReportedNotApplied?) {
        reply := StoreProtocol.Faithful;
      }
      Atomic(Insert(me, reply));
      if state.tasks[me].phase.Rereading? {
        result := ReadBack(w, me, user);
      } else {
        result := if reply.Failed? then None else Some(candidate);
      }
    }

    /** The row existed already: read it. */
    method ReadBack(w: Setting, me: nat, user: string) returns (result: Option<string>)
      requires Valid() && me < |state.tasks| && state.tasks[me].user == user && state.tasks[me].phase.Rereading?
      modifies this
      ensures Valid() && base == old(base) && old(trace) <= trace
      ensures result.Some? ==> state.log != [] && state.log[|state.log| - 1] == Answered(user, result.value)
      ensures result.Some? ==> Lookup(state.secrets, user) == result
      ensures !w.shared && !w.faulty ==> result == Lookup(old(state).secrets, user) && state.secrets == old(state).secrets
    {
      Others(w, me);
      var down: bool := *;
      if down && w.faulty {
        Atomic(Crash(me));
        return None;
      }
      result := Lookup(state.secrets, user);
      Atomic(Reread(me));
    }
  }
}
