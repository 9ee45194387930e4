/** Five is exact: six calls on a key, one of which loses to each of the others and gives up. */
module RetryWitness {
  import opened Wrappers
  import opened Records
  import opened StoreProtocol
  import opened StoreTheorems

  function SaveOf(id: nat, key: string, payload: Payload): Call {
    Call(id, key, payload, None)
  }

  /** The loser reads, another call reads and writes, then the loser tries to write. */
  function Round(n: nat, key: string, payload: Payload): seq<Action> {
    [ReadRow(0), Begin(1, SaveOf(n + 1, key, payload)), ReadRow(1), Cas(1, 0, Faithful), Cas(0, 0, Faithful)]
  }

  function Rounds(n: nat, key: string, payload: Payload): seq<Action> {
    if n == 0 then [Begin(0, SaveOf(0, key, payload))] else Rounds(n - 1, key, payload) + Round(n - 1, key, payload)
  }

  predicate OnlyWrites(h: seq<Event>) {
    forall p :: 0 <= p < |h| ==> h[p].Wrote?
  }

  /** The loser has failed `n` times and tries again; the other lane is free. */
  predicate Losing(s: State, n: nat, key: string, payload: Payload) {
    && |s.slots| == 2 && |s.calls| == n + 1
    && s.slots[0].Busy? && |s.slots[0].windows| == n
    && s.slots[0] == Busy(SaveOf(0, key, payload), None, None, s.slots[0].windows)
    && s.slots[1] == Idle
    && (forall i :: 0 <= i <= n ==> s.calls[i].key == key)
    && OnlyWrites(s.history)
  }

  /** The state after the first four actions of a round. */
  ghost function AfterOther(s: State, n: nat, key: string, payload: Payload): State {
    var begun := Step(Step(s, ReadRow(0)), Begin(1, SaveOf(n + 1, key, payload)));
    Step(Step(begun, ReadRow(1)), Cas(1, 0, Faithful))
  }

  /** By then the other call has written. */
  lemma OtherWrites(s: State, n: nat, key: string, payload: Payload)
    requires Losing(s, n, key, payload) && n < LWT_MAX_RETRIES
    ensures var t := AfterOther(s, n, key, payload);
      && |t.slots| == 2 && t.slots[1] == Idle && t.calls == s.calls + [SaveOf(n + 1, key, payload)]
      && t.slots[0] == Busy(SaveOf(0, key, payload), None, Some(Reading(View(s.rows, key), |s.history|)), s.slots[0].windows)
      && key in t.rows && t.rows[key].version == VersionOf(s.rows, key) + 1
      && OnlyWrites(t.history)
  {
    var call := SaveOf(n + 1, key, payload);
    var s1 := Step(s, ReadRow(0));
    var s2 := Step(s1, Begin(1, call));
    assert s2.slots[1] == Busy(call, None, None, []);
    QuickAttempt(s2, 1, call, 0);
  }

  lemma RunRound(s: State, n: nat, key: string, payload: Payload)
    ensures Run(s, Round(n, key, payload))
         == Step(AfterOther(s, n, key, payload), Cas(0, 0, Faithful))
  {
    var acts := Round(n, key, payload);
    RunSnoc(s, [], acts[0]);
    RunSnoc(s, acts[..1], acts[1]);
    RunSnoc(s, acts[..2], acts[2]);
    RunSnoc(s, acts[..3], acts[3]);
    RunSnoc(s, acts[..4], acts[4]);
    assert acts[..1] == [acts[0]] && acts[..2] == acts[..1] + [acts[1]] && acts[..3] == acts[..2] + [acts[2]];
    assert acts[..4] == acts[..3] + [acts[3]] && acts == acts[..4] + [acts[4]];
  }

  /** A round costs the loser one attempt. */
  lemma LoseOnce(s: State, n: nat, key: string, payload: Payload)
    requires Losing(s, n, key, payload) && n < LWT_MAX_RETRIES
    ensures var t := Run(s, Round(n, key, payload));
      && |t.calls| == n + 2 && OnlyWrites(t.history) && (forall i :: 0 <= i <= n + 1 ==> t.calls[i].key == key)
      && if n + 1 < LWT_MAX_RETRIES then Losing(t, n + 1, key, payload) else 0 in t.outcomes && t.outcomes[0].Exhausted?
  {
    RunRound(s, n, key, payload);
    OtherWrites(s, n, key, payload);
  }

  lemma LoserBegins(rows: Table, key: string, payload: Payload)
    ensures Losing(Run(Start(rows, 2), [Begin(0, SaveOf(0, key, payload))]), 0, key, payload)
  {
    var s, a := Start(rows, 2), Begin(0, SaveOf(0, key, payload));
    assert Run(s, []) == s && [] + [a] == [a];
    RunSnoc(s, [], a);
    assert Step(s, a).slots[0] == Busy(SaveOf(0, key, payload), None, None, []);
  }

  lemma {:induction false} LosingRun(rows: Table, n: nat, key: string, payload: Payload)
    requires n < LWT_MAX_RETRIES
    ensures Losing(Run(Start(rows, 2), Rounds(n, key, payload)), n, key, payload)
  {
    if n == 0 {
      LoserBegins(rows, key, payload);
    } else {
      var prior := Rounds(n - 1, key, payload);
      LosingRun(rows, n - 1, key, payload);
      LoseOnce(Run(Start(rows, 2), prior), n - 1, key, payload);
      RunConcat(Start(rows, 2), prior, Round(n - 1, key, payload));
    }
  }

  /** From any table, for any key: six calls, no delete, no lost reply, and the first call gives up. */
  lemma SixCallersCanStarveOne(rows: Table, key: string, payload: Payload) returns (acts: seq<Action>)
    ensures !LosesReplies(acts)
    ensures var s := Run(Start(rows, 2), acts);
      && OnlyWrites(s.history) && |s.calls| == 6 && (forall i :: 0 <= i < 6 ==> s.calls[i].key == key)
      && 0 in s.outcomes && s.outcomes[0].Exhausted?
  {
    var first, last := Rounds(4, key, payload), Round(4, key, payload);
    acts := first + last;
    LosingRun(rows, 4, key, payload);
    LoseOnce(Run(Start(rows, 2), first), 4, key, payload);
    RunConcat(Start(rows, 2), first, last);
    FaithfulRounds(4, key, payload);
    forall a | a in acts && a.Cas?
      ensures a.reply.Faithful?
    {
      assert a in first || a in last;
    }
  }

  lemma {:induction false} FaithfulRounds(n: nat, key: string, payload: Payload)
    ensures forall a :: a in Rounds(n, key, payload) && a.Cas? ==> a.reply.Faithful?
  {
    if n > 0 {
      FaithfulRounds(n - 1, key, payload);
    }
  }
}
