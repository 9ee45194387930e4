/**
 The token cache in front of the auth table: requests, account deletions, invalidation and expiry, in any order.

 A token is base64 over `secret:user`; decoding it is a parameter. The log has every change of the table, every
 verified token, every cache insertion and every cache hit, with the time of the cache's clock.
 */
module AuthCache {
  import opened Wrappers
  import opened Records
  import opened Environment

  const AUTH_CACHE_TTL_SECS: nat := 60
  const MAX_AUTH_HEADER_LEN: nat := 256
  const BEARER := "Bearer "

  /** Base64 and UTF-8 decoding of a token, `None` when it fails or the text is too long. */
  datatype Decoder = Decoder(decode: string -> Option<string>)

  datatype Credentials = Credentials(secret: string, user: string)

  /** `split_once(':')`. */
  function SplitOnce(s: string): Option<Credentials> {
    if s == "" then None
    else if s[0] == ':' then Some(Credentials("", s[1..]))
    else
      match SplitOnce(s[1..])
      case None => None
      case Some(c) => Some(Credentials([s[0]] + c.secret, c.user))
  }

  /** It splits at the first colon. */
  lemma {:induction false} SplitsAtFirstColon(s: string, secret: string, user: string)
    ensures SplitOnce(s) == Some(Credentials(secret, user)) <==> ':' !in secret && s == secret + ":" + user
  {
    if s == "" {
    } else if s[0] == ':' {
      assert s == ":" + s[1..];
      if secret != "" && s == secret + ":" + user {
        assert secret[0] == s[0];
      }
    } else {
      if secret != "" {
        SplitsAtFirstColon(s[1..], secret[1..], user);
        assert secret == [secret[0]] + secret[1..];
        assert s == [s[0]] + s[1..];
        if s == secret + ":" + user {
          assert s[1..] == secret[1..] + ":" + user;
        }
      }
    }
  }

  /** What a token claims, when it is well-formed. */
  function Claims(d: Decoder, token: string): Option<Credentials> {
    match d.decode(token)
    case None => None
    case Some(text) =>
      match SplitOnce(text)
      case None => None
      case Some(c) => if c.user == "" || c.secret == "" then None else Some(c)
  }

  /** The token is the encoding of `secret:user`: no colon in the secret, neither part empty. */
  predicate Encodes(d: Decoder, token: string, secret: string, user: string) {
    d.decode(token) == Some(secret + ":" + user) && ':' !in secret && secret != "" && user != ""
  }

  lemma ClaimsExactly(d: Decoder, token: string, secret: string, user: string)
    ensures Claims(d, token) == Some(Credentials(secret, user)) <==> Encodes(d, token, secret, user)
  {
    if d.decode(token).Some? {
      SplitsAtFirstColon(d.decode(token).value, secret, user);
    }
  }

  datatype Entry = Entry(user: string, at: nat)

  datatype Phase = Looking | Verifying | Verified(user: string) | Granted(user: string) | Denied

  datatype Request = Request(token: string, phase: Phase)

  datatype Event =
    | Issued(user: string, secret: string)
    | Deleted(user: string)
    | Matched(token: string, user: string)
    | Inserted(token: string, user: string, at: nat)
    | Hit(token: string, user: string, at: nat, now: nat)

  datatype Action =
    | Arrive(token: string)
    | Look(request: nat)
    | Verify(request: nat, broken: bool)
    | Insert(request: nat)
    | Evict(token: string)
    | Tick
    | Issue(user: string, secret: string)
    | Delete(user: string)

  datatype State = State(secrets: map<string, string>, cache: map<string, Entry>, now: nat, requests: seq<Request>,
                         log: seq<Event>)

  predicate InPhase(s: State, i: nat, p: Phase) {
    i < |s.requests| && s.requests[i].phase == p
  }

  predicate Enabled(s: State, a: Action) {
    match a
    case Arrive(_) => true
    case Look(i) => InPhase(s, i, Looking)
    case Verify(i, _) => InPhase(s, i, Verifying)
    case Insert(i) => i < |s.requests| && s.requests[i].phase.Verified?
    case Evict(_) => true
    case Tick => true
    case Issue(user, _) => user !in s.secrets
    case Delete(_) => true
  }

  function Move(s: State, i: nat, p: Phase): State
    requires i < |s.requests|
  {
    s.(requests := s.requests[i := s.requests[i].(phase := p)])
  }

  predicate Live(s: State, token: string) {
    token in s.cache && s.cache[token].at <= s.now < s.cache[token].at + AUTH_CACHE_TTL_SECS
  }

  /** The stored secret of the claimed user is the claimed one. */
  predicate Matches(d: Decoder, secrets: map<string, string>, token: string) {
    Claims(d, token).Some? && Lookup(secrets, Claims(d, token).value.user) == Some(Claims(d, token).value.secret)
  }

  /** A token matches exactly when it encodes the secret that the table holds for the user that it encodes. */
  lemma MatchesExactly(d: Decoder, secrets: map<string, string>, token: string, user: string)
    ensures Matches(d, secrets, token) && Claims(d, token).value.user == user
      <==> user in secrets && Encodes(d, token, secrets[user], user)
  {
    if user in secrets {
      ClaimsExactly(d, token, secrets[user], user);
    }
  }

  function Do(d: Decoder, s: State, a: Action): State
    requires Enabled(s, a)
  {
    match a
    case Arrive(token) => s.(requests := s.requests + [Request(token, Looking)])
    case Look(i) =>
      var token := s.requests[i].token;
      if Live(s, token) then
        var e := s.cache[token];
        Move(s, i, Granted(e.user)).(log := s.log + [Hit(token, e.user, e.at, s.now)])
      else Move(s, i, Verifying)
    case Verify(i, broken) =>
      var token := s.requests[i].token;
      if broken || !Matches(d, s.secrets, token) then Move(s, i, Denied)
      else
        var user := Claims(d, token).value.user;
        Move(s, i, Verified(user)).(log := s.log + [Matched(token, user)])
    case Insert(i) =>
      var token, user := s.requests[i].token, s.requests[i].phase.user;
      Move(s, i, Granted(user))
        .(cache := s.cache[token := Entry(user, s.now)], log := s.log + [Inserted(token, user, s.now)])
    case Evict(token) => s.(cache := s.cache - {token})
    case Tick => s.(now := s.now + 1)
    case Issue(user, secret) => s.(secrets := s.secrets[user := secret], log := s.log + [Issued(user, secret)])
    case Delete(user) => s.(secrets := s.secrets - {user}, log := s.log + [Deleted(user)])
  }

  function Step(d: Decoder, s: State, a: Action): State {
    if Enabled(s, a) then Do(d, s, a) else s
  }

  function Run(d: Decoder, s: State, acts: seq<Action>): State {
    if acts == [] then s else Step(d, Run(d, s, acts[..|acts| - 1]), acts[|acts| - 1])
  }

  function Start(secrets: map<string, string>): State {
    State(secrets, map[], 0, [], [])
  }

  // The log tells the table

  function Effect(secrets: map<string, string>, e: Event): map<string, string> {
    match e
    case Issued(user, secret) => secrets[user := secret]
    case Deleted(user) => secrets - {user}
    case _ => secrets
  }

  function Replay(base: map<string, string>, log: seq<Event>): map<string, string> {
    if log == [] then base else Effect(Replay(base, log[..|log| - 1]), log[|log| - 1])
  }

  predicate MatchedBefore(log: seq<Event>, token: string, user: string, p: nat) {
    exists q :: 0 <= q < p && q < |log| && log[q] == Matched(token, user)
  }

  predicate InsertedBefore(log: seq<Event>, token: string, user: string, at: nat, p: nat) {
    exists q :: 0 <= q < p && q < |log| && log[q] == Inserted(token, user, at)
  }

  /** A match compares with the table of its moment; an insertion follows a match; a hit follows an insertion in time. */
  predicate EventOk(d: Decoder, base: map<string, string>, log: seq<Event>, p: nat)
    requires p < |log|
  {
    match log[p]
    case Matched(token, user) => Matches(d, Replay(base, log[..p]), token) && Claims(d, token).value.user == user
    case Inserted(token, user, _) => MatchedBefore(log, token, user, p)
    case Hit(token, user, at, now) => InsertedBefore(log, token, user, at, p) && at <= now < at + AUTH_CACHE_TTL_SECS
    case _ => true
  }

  predicate RequestOk(log: seq<Event>, r: Request) {
    r.phase.Verified? ==> MatchedBefore(log, r.token, r.phase.user, |log|)
  }

  predicate CacheOk(log: seq<Event>, cache: map<string, Entry>) {
    forall t :: t in cache ==> InsertedBefore(log, t, cache[t].user, cache[t].at, |log|)
  }

  predicate Inv(d: Decoder, base: map<string, string>, s: State) {
    && s.secrets == Replay(base, s.log)
    && (forall p :: 0 <= p < |s.log| ==> EventOk(d, base, s.log, p))
    && (forall i :: 0 <= i < |s.requests| ==> RequestOk(s.log, s.requests[i]))
    && CacheOk(s.log, s.cache)
  }

  lemma MatchedStays(log: seq<Event>, e: Event, token: string, user: string, p: nat)
    requires MatchedBefore(log, token, user, p)
    ensures MatchedBefore(log + [e], token, user, p) && MatchedBefore(log + [e], token, user, p + 1)
  {
    var q :| 0 <= q < p && q < |log| && log[q] == Matched(token, user);
    assert (log + [e])[q] == Matched(token, user);
  }

  lemma InsertedStays(log: seq<Event>, e: Event, token: string, user: string, at: nat, p: nat)
    requires InsertedBefore(log, token, user, at, p)
    ensures InsertedBefore(log + [e], token, user, at, p) && InsertedBefore(log + [e], token, user, at, p + 1)
  {
    var q :| 0 <= q < p && q < |log| && log[q] == Inserted(token, user, at);
    assert (log + [e])[q] == Inserted(token, user, at);
  }

  lemma EventStays(d: Decoder, base: map<string, string>, log: seq<Event>, e: Event, p: nat)
    requires p < |log| && EventOk(d, base, log, p)
    ensures EventOk(d, base, log + [e], p)
  {
    assert (log + [e])[..p] == log[..p];
    match log[p] {
      case Inserted(token, user, _) => MatchedStays(log, e, token, user, p);
      case Hit(token, user, at, _) => InsertedStays(log, e, token, user, at, p);
      case _ =>
    }
  }

  lemma EventsStay(d: Decoder, base: map<string, string>, log: seq<Event>, e: Event)
    requires forall p :: 0 <= p < |log| ==> EventOk(d, base, log, p)
    requires EventOk(d, base, log + [e], |log|)
    ensures forall p :: 0 <= p < |log + [e]| ==> EventOk(d, base, log + [e], p)
  {
    forall p | 0 <= p < |log + [e]|
      ensures EventOk(d, base, log + [e], p)
    {
      if p < |log| {
        EventStays(d, base, log, e, p);
      }
    }
  }

  lemma RequestStays(log: seq<Event>, e: Event, r: Request)
    requires RequestOk(log, r)
    ensures RequestOk(log + [e], r)
  {
    if r.phase.Verified? {
      MatchedStays(log, e, r.token, r.phase.user, |log|);
    }
  }

  lemma CacheStays(log: seq<Event>, e: Event, cache: map<string, Entry>)
    requires CacheOk(log, cache)
    ensures CacheOk(log + [e], cache)
  {
    forall t | t in cache
      ensures InsertedBefore(log + [e], t, cache[t].user, cache[t].at, |log + [e]|)
    {
      InsertedStays(log, e, t, cache[t].user, cache[t].at, |log|);
    }
  }

  /** One more event on record. */
  lemma LogStep(d: Decoder, base: map<string, string>, s: State, e: Event)
    requires Inv(d, base, s) && EventOk(d, base, s.log + [e], |s.log|)
    ensures Inv(d, base, s.(secrets := Effect(s.secrets, e), log := s.log + [e]))
  {
    assert Replay(base, s.log + [e]) == Effect(s.secrets, e) by {
      assert (s.log + [e])[..|s.log|] == s.log;
    }
    EventsStay(d, base, s.log, e);
    forall i | 0 <= i < |s.requests|
      ensures RequestOk(s.log + [e], s.requests[i])
    {
      RequestStays(s.log, e, s.requests[i]);
    }
    CacheStays(s.log, e, s.cache);
  }

  lemma MoveStep(d: Decoder, base: map<string, string>, s: State, i: nat, p: Phase)
    requires Inv(d, base, s) && i < |s.requests| && RequestOk(s.log, s.requests[i].(phase := p))
    ensures Inv(d, base, Move(s, i, p))
  {
  }

  lemma LookStep(d: Decoder, base: map<string, string>, s: State, i: nat)
    requires Inv(d, base, s) && Enabled(s, Look(i))
    ensures Inv(d, base, Do(d, s, Look(i)))
  {
    var token := s.requests[i].token;
    if Live(s, token) {
      var e := s.cache[token];
      var hit := Hit(token, e.user, e.at, s.now);
      InsertedStays(s.log, hit, token, e.user, e.at, |s.log|);
      LogStep(d, base, s, hit);
      MoveStep(d, base, s.(log := s.log + [hit]), i, Granted(e.user));
    } else {
      MoveStep(d, base, s, i, Verifying);
    }
  }

  lemma VerifyStep(d: Decoder, base: map<string, string>, s: State, i: nat, broken: bool)
    requires Inv(d, base, s) && Enabled(s, Verify(i, broken))
    ensures Inv(d, base, Do(d, s, Verify(i, broken)))
  {
    var token := s.requests[i].token;
    if broken || !Matches(d, s.secrets, token) {
      MoveStep(d, base, s, i, Denied);
    } else {
      var user := Claims(d, token).value.user;
      var e := Matched(token, user);
      assert (s.log + [e])[..|s.log|] == s.log;
      LogStep(d, base, s, e);
      assert (s.log + [e])[|s.log|] == e;
      MoveStep(d, base, s.(log := s.log + [e]), i, Verified(user));
    }
  }

  lemma InsertStep(d: Decoder, base: map<string, string>, s: State, i: nat)
    requires Inv(d, base, s) && Enabled(s, Insert(i))
    ensures Inv(d, base, Do(d, s, Insert(i)))
  {
    var token, user := s.requests[i].token, s.requests[i].phase.user;
    var e := Inserted(token, user, s.now);
    assert RequestOk(s.log, s.requests[i]);
    MatchedStays(s.log, e, token, user, |s.log|);
    LogStep(d, base, s, e);
    var t := s.(log := s.log + [e]);
    MoveStep(d, base, t, i, Granted(user));
    assert t.log[|s.log|] == e;
  }

  lemma InvStep(d: Decoder, base: map<string, string>, s: State, a: Action)
    requires Inv(d, base, s)
    ensures Inv(d, base, Step(d, s, a))
  {
    if !Enabled(s, a) {
    } else if a.Look? {
      LookStep(d, base, s, a.request);
    } else if a.Verify? {
      VerifyStep(d, base, s, a.request, a.broken);
    } else if a.Insert? {
      InsertStep(d, base, s, a.request);
    } else if a.Issue? {
      LogStep(d, base, s, Issued(a.user, a.secret));
    } else if a.Delete? {
      LogStep(d, base, s, Deleted(a.user));
    }
  }

  lemma {:induction false} InvRun(d: Decoder, base: map<string, string>, acts: seq<Action>)
    ensures Inv(d, base, Run(d, Start(base), acts))
  {
    if acts != [] {
      InvRun(d, base, acts[..|acts| - 1]);
      InvStep(d, base, Run(d, Start(base), acts[..|acts| - 1]), acts[|acts| - 1]);
    }
  }

  /**
   A cache hit gives exactly the user that the token encodes. The secret that the token encodes was the stored one
   at an earlier step `m`, and the entry was inserted after that, at step `i`, less than 60 s before the hit.
   */
  lemma HitWasVerified(d: Decoder, base: map<string, string>, acts: seq<Action>, p: nat) returns (m: nat, i: nat)
    requires var log := Run(d, Start(base), acts).log; p < |log| && log[p].Hit?
    ensures var log := Run(d, Start(base), acts).log;
      && m < i < p
      && log[m] == Matched(log[p].token, log[p].user)
      && var secrets := Replay(base, log[..m]);
      && log[p].user in secrets && Encodes(d, log[p].token, secrets[log[p].user], log[p].user)
      && log[i] == Inserted(log[p].token, log[p].user, log[p].at)
      && log[p].at <= log[p].now < log[p].at + 60
  {
    InvRun(d, base, acts);
    var log := Run(d, Start(base), acts).log;
    assert EventOk(d, base, log, p);
    i :| 0 <= i < p && i < |log| && log[i] == Inserted(log[p].token, log[p].user, log[p].at);
    assert EventOk(d, base, log, i);
    m :| 0 <= m < i && m < |log| && log[m] == Matched(log[p].token, log[p].user);
    assert EventOk(d, base, log, m);
    MatchesExactly(d, Replay(base, log[..m]), log[p].token, log[p].user);
  }

  // Revocation

  predicate NoneVerified(requests: seq<Request>, user: string) {
    forall i :: 0 <= i < |requests| ==> requests[i].phase != Verified(user)
  }

  /** No cache entry of this user is young enough to be served. */
  predicate NoneLive(s: State, user: string) {
    forall t :: t in s.cache && s.cache[t].user == user ==> s.cache[t].at + 60 <= s.now
  }

  /** No secret, no live cache entry and no verification under way for this user. */
  predicate Revoked(s: State, user: string) {
    user !in s.secrets && NoneVerified(s.requests, user) && NoneLive(s, user)
  }

  predicate Issues(acts: seq<Action>, user: string) {
    exists a :: a in acts && a.Issue? && a.user == user
  }

  lemma RevokedStep(d: Decoder, s: State, a: Action, user: string)
    requires Revoked(s, user) && !(a.Issue? && a.user == user)
    ensures Revoked(Step(d, s, a), user)
    ensures forall i :: 0 <= i < |Step(d, s, a).requests| && Step(d, s, a).requests[i].phase == Granted(user) ==>
      InPhase(s, i, Granted(user))
  {
  }

  /** Once nothing of a user is left, its tokens open nothing until a new secret is issued, whatever else runs. */
  lemma {:induction false} RevokedStays(d: Decoder, s: State, more: seq<Action>, user: string, i: nat)
    requires Revoked(s, user) && !Issues(more, user)
    ensures Revoked(Run(d, s, more), user)
    ensures InPhase(Run(d, s, more), i, Granted(user)) ==> InPhase(s, i, Granted(user))
  {
    if more != [] {
      var n := |more| - 1;
      assert forall a :: a in more[..n] ==> a in more;
      assert more[n] in more;
      RevokedStays(d, s, more[..n], user, i);
      RevokedStep(d, Run(d, s, more[..n]), more[n], user);
    }
  }

  /** What is left of a user in the cache dates from `since` or before, and nothing can be added. */
  predicate Fading(s: State, user: string, since: nat) {
    && user !in s.secrets && NoneVerified(s.requests, user)
    && forall t :: t in s.cache && s.cache[t].user == user ==> s.cache[t].at <= since
  }

  lemma FadingStep(d: Decoder, s: State, a: Action, user: string, since: nat)
    requires Fading(s, user, since) && !(a.Issue? && a.user == user)
    ensures Fading(Step(d, s, a), user, since)
    ensures var log := Step(d, s, a).log;
      && s.log <= log && |log| <= |s.log| + 1
      && HitsEnd(log, |s.log|, user, since + AUTH_CACHE_TTL_SECS)
  {
  }

  predicate HitsEnd(log: seq<Event>, n: nat, user: string, end: nat) {
    forall p :: n <= p < |log| && log[p].Hit? && log[p].user == user ==> log[p].now < end
  }

  lemma {:induction false} FadingRun(d: Decoder, s: State, more: seq<Action>, user: string, since: nat)
    requires Fading(s, user, since) && !Issues(more, user)
    ensures Fading(Run(d, s, more), user, since)
    ensures s.log <= Run(d, s, more).log && HitsEnd(Run(d, s, more).log, |s.log|, user, since + AUTH_CACHE_TTL_SECS)
  {
    if more != [] {
      var n := |more| - 1;
      assert forall a :: a in more[..n] ==> a in more;
      assert more[n] in more;
      FadingRun(d, s, more[..n], user, since);
      FadingStep(d, Run(d, s, more[..n]), more[n], user, since);
    }
  }

  predicate Timely(s: State) {
    forall t :: t in s.cache ==> s.cache[t].at <= s.now
  }

  lemma {:induction false} TimelyRun(d: Decoder, base: map<string, string>, acts: seq<Action>)
    ensures Timely(Run(d, Start(base), acts))
  {
    if acts != [] {
      TimelyRun(d, base, acts[..|acts| - 1]);
    }
  }

  /**
   Invalidation is only best effort, but without a secret and without a verification under way no token of a
   user is accepted for 60 s or longer, until a new secret is issued.
   */
  lemma DeletedTokensExpire(d: Decoder, base: map<string, string>, acts: seq<Action>, more: seq<Action>, user: string)
    requires var s := Run(d, Start(base), acts); user !in s.secrets && NoneVerified(s.requests, user)
    requires !Issues(more, user)
    ensures var s := Run(d, Start(base), acts);
      HitsEnd(Run(d, s, more).log, |s.log|, user, s.now + 60)
  {
    TimelyRun(d, base, acts);
    var s := Run(d, Start(base), acts);
    FadingRun(d, s, more, user, s.now);
  }

  /** The user's tokens open nothing from here on, whatever runs, until a new secret is issued. */
  ghost predicate Closed(d: Decoder, s: State, user: string) {
    forall more: seq<Action>, i: nat ::
      !Issues(more, user) && InPhase(Run(d, s, more), i, Granted(user)) ==> InPhase(s, i, Granted(user))
  }

  /** A live entry lets the next request with its token through. */
  lemma LiveOpens(d: Decoder, s: State, token: string)
    requires Live(s, token)
    ensures InPhase(Run(d, s, [Arrive(token), Look(|s.requests|)]), |s.requests|, Granted(s.cache[token].user))
  {
    var i := |s.requests|;
    assert Run(d, s, []) == s && [Arrive(token), Look(i)][..1] == [Arrive(token)];
    assert Run(d, s, [Arrive(token)]) == Step(d, s, Arrive(token)) by {
      assert [Arrive(token)][..0] == [];
    }
  }

  /** And so does a verification under way. */
  lemma VerifiedOpens(d: Decoder, s: State, i: nat, user: string)
    requires InPhase(s, i, Verified(user))
    ensures InPhase(Run(d, s, [Insert(i)]), i, Granted(user))
  {
    assert [Insert(i)][..0] == [] && Run(d, s, []) == s;
  }

  /** The tokens of a user without a secret open nothing, exactly when no verification is under way and no entry is live. */
  lemma ClosedExactly(d: Decoder, s: State, user: string)
    requires user !in s.secrets && Timely(s)
    ensures Closed(d, s, user) <==> NoneVerified(s.requests, user) && NoneLive(s, user)
  {
    if NoneVerified(s.requests, user) && NoneLive(s, user) {
      forall more: seq<Action>, i: nat | !Issues(more, user) && InPhase(Run(d, s, more), i, Granted(user))
        ensures InPhase(s, i, Granted(user))
      {
        RevokedStays(d, s, more, user, i);
      }
    } else if !NoneVerified(s.requests, user) {
      var i: nat :| i < |s.requests| && s.requests[i].phase == Verified(user);
      var more := [Insert(i)];
      VerifiedOpens(d, s, i, user);
      assert !Issues(more, user) && InPhase(Run(d, s, more), i, Granted(user)) && !InPhase(s, i, Granted(user));
    } else {
      var t :| t in s.cache && s.cache[t].user == user && s.now < s.cache[t].at + AUTH_CACHE_TTL_SECS;
      var i: nat, more := |s.requests|, [Arrive(t), Look(|s.requests|)];
      LiveOpens(d, s, t);
      assert !Issues(more, user) && InPhase(Run(d, s, more), i, Granted(user)) && !InPhase(s, i, Granted(user));
    }
  }

  /**
   A verification under way outlives the deletion of the account and the eviction of all its entries: it is let
   through and fills the cache again, so the next request with the token is a cache hit.
   */
  lemma VerificationOutlivesInvalidation(d: Decoder, token: string)
    requires Claims(d, token).Some?
    ensures var c := Claims(d, token).value;
      var s := Run(d, Start(map[c.user := c.secret]),
                   [Arrive(token), Look(0), Verify(0, false), Delete(c.user), Evict(token)]);
      var t := Run(d, s, [Insert(0), Arrive(token), Look(1)]);
      && c.user !in s.secrets && s.cache == map[] && !NoneVerified(s.requests, c.user)
      && c.user !in t.secrets && InPhase(t, 0, Granted(c.user)) && InPhase(t, 1, Granted(c.user))
      && t.log != [] && t.log[|t.log| - 1] == Hit(token, c.user, 0, 0)
  {
    var c := Claims(d, token).value;
    var s0 := Start(map[c.user := c.secret]);
    var before := [Arrive(token), Look(0), Verify(0, false)];
    var s3 := State(map[c.user := c.secret], map[], 0, [Request(token, Verified(c.user))], [Matched(token, c.user)]);
    assert Run(d, s0, before) == s3 by {
      RunThree(d, s0, before[0], before[1], before[2]);
    }
    var s5 := State(map[], map[], 0, s3.requests, s3.log + [Deleted(c.user)]);
    assert Run(d, s0, before + [Delete(c.user)] + [Evict(token)]) == s5 by {
      RunSnoc(d, s0, before, Delete(c.user));
      RunSnoc(d, s0, before + [Delete(c.user)], Evict(token));
      assert Step(d, s3, Delete(c.user)) == s5;
      assert s5.cache - {token} == s5.cache;
    }
    assert before + [Delete(c.user)] + [Evict(token)]
        == [Arrive(token), Look(0), Verify(0, false), Delete(c.user), Evict(token)];
    assert s5.requests[0].phase == Verified(c.user);
    RunThree(d, s5, Insert(0), Arrive(token), Look(1));
  }

  lemma RunSnoc(d: Decoder, s: State, acts: seq<Action>, a: Action)
    ensures Run(d, s, acts + [a]) == Step(d, Run(d, s, acts), a)
  {
    assert (acts + [a])[..|acts|] == acts;
  }

  lemma RunThree(d: Decoder, s: State, a: Action, b: Action, c: Action)
    ensures Run(d, s, [a, b, c]) == Step(d, Step(d, Step(d, s, a), b), c)
  {
    RunSnoc(d, s, [], a);
    RunSnoc(d, s, [a], b);
    RunSnoc(d, s, [a, b], c);
    assert [] + [a] == [a] && [a] + [b] == [a, b] && [a, b] + [c] == [a, b, c];
  }

  lemma {:induction false} RunConcat(d: Decoder, s: State, a: seq<Action>, b: seq<Action>)
    ensures Run(d, s, a + b) == Run(d, Run(d, s, a), b)
  {
    if b == [] {
      assert a + b == a;
    } else {
      RunConcat(d, s, a, b[..|b| - 1]);
      assert (a + b)[..|a + b| - 1] == a + b[..|b| - 1];
    }
  }

  // An invalidation among other requests

  /** Entries of the user are among these tokens, and no other one can be added. */
  predicate Confined(s: State, user: string, tokens: set<string>) {
    && user !in s.secrets && NoneVerified(s.requests, user)
    && forall t :: t in s.cache && s.cache[t].user == user ==> t in tokens
  }

  /** No secret and no verification at first, and no new secret since. */
  predicate Finished(s: State, user: string, since: seq<Action>) {
    user !in s.secrets && NoneVerified(s.requests, user) && !Issues(since, user)
  }

  lemma {:induction false} ConfinedRun(d: Decoder, s: State, more: seq<Action>, user: string, tokens: set<string>)
    requires Confined(s, user, tokens) && !Issues(more, user)
    ensures Confined(Run(d, s, more), user, tokens)
  {
    if more != [] {
      var n := |more| - 1;
      assert forall a :: a in more[..n] ==> a in more;
      assert more[n] in more;
      ConfinedRun(d, s, more[..n], user, tokens);
      ConfinedStep(d, Run(d, s, more[..n]), more[n], user, tokens);
    }
  }

  lemma ConfinedStep(d: Decoder, s: State, a: Action, user: string, tokens: set<string>)
    requires Confined(s, user, tokens) && !(a.Issue? && a.user == user)
    ensures Confined(Step(d, s, a), user, tokens)
  {
  }

  // The middleware itself

  predicate ActsFor(a: Action, me: nat) {
    (a.Look? || a.Verify? || a.Insert?) && a.request == me
  }

  /** The token of a header, with or without the scheme. */
  function TokenOf(header: string): string {
    if BEARER <= header then header[|BEARER|..] else header
  }

  /** The token encodes this user with the secret that the table held for the user at some step. */
  predicate WasStored(d: Decoder, base: map<string, string>, log: seq<Event>, token: string, user: string) {
    exists m :: 0 <= m <= |log| && StoredAt(d, base, log, token, user, m)
  }

  predicate StoredAt(d: Decoder, base: map<string, string>, log: seq<Event>, token: string, user: string, m: nat)
    requires m <= |log|
  {
    var secrets := Replay(base, log[..m]);
    user in secrets && Encodes(d, token, secrets[user], user)
  }

  /** Whoever was let through, by a hit or after an insertion, had the stored secret before. */
  lemma LetThrough(d: Decoder, base: map<string, string>, s: State, token: string, user: string, at: nat)
    requires Inv(d, base, s) && InsertedBefore(s.log, token, user, at, |s.log|)
    ensures WasStored(d, base, s.log, token, user)
  {
    var q :| 0 <= q < |s.log| && s.log[q] == Inserted(token, user, at);
    assert EventOk(d, base, s.log, q);
    var p :| 0 <= p < q && s.log[p] == Matched(token, user);
    assert EventOk(d, base, s.log, p);
    MatchesExactly(d, Replay(base, s.log[..p]), token, user);
    assert StoredAt(d, base, s.log, token, user, p);
  }

  lemma MoreOfTrace(d: Decoder, base: map<string, string>, early: seq<Action>, late: seq<Action>)
    requires early <= late
    ensures Run(d, Start(base), late) == Run(d, Run(d, Start(base), early), late[|early|..])
  {
    assert late == early + late[|early|..];
    RunConcat(d, Start(base), early, late[|early|..]);
  }

  /** Nothing issued from `n` on means nothing issued in any later part. */
  lemma SplitIssues(n: nat, early: seq<Action>, middle: seq<Action>, late: seq<Action>, user: string)
    requires n <= |early| && early <= middle <= late && !Issues(late[n..], user)
    ensures !Issues(early[n..], user) && !Issues(middle[|early|..], user) && !Issues(late[|middle|..], user)
  {
    assert forall k :: n <= k < |late| ==> late[n..][k - n] == late[k];
    assert forall k :: n <= k < |late| ==> late[k] in late[n..];
    assert forall k :: n <= k < |early| ==> early[k] == late[k];
    assert forall k :: |early| <= k < |middle| ==> middle[k] == late[k];
  }

  function EntriesOf(cache: map<string, Entry>, user: string): set<string> {
    set t | t in cache && cache[t].user == user
  }

  /** Exactly the user whose stored secret the token encodes is let through, unless the database fails. */
  ghost predicate VerdictOk(d: Decoder, secrets: map<string, string>, token: string, user: Option<string>, faulty: bool) {
    && (user.Some? ==> user.value in secrets && Encodes(d, token, secrets[user.value], user.value))
    && forall u :: u in secrets && Encodes(d, token, secrets[u], u) ==> user == Some(u) || (faulty && user.None?)
  }

  lemma VerdictExactly(d: Decoder, secrets: map<string, string>, token: string)
    ensures VerdictOk(d, secrets, token,
                      if Matches(d, secrets, token) then Some(Claims(d, token).value.user) else None, false)
    ensures VerdictOk(d, secrets, token, None, true)
  {
    forall u | u in secrets && Encodes(d, token, secrets[u], u)
      ensures Matches(d, secrets, token) && Claims(d, token).value.user == u
    {
      MatchesExactly(d, secrets, token, u);
    }
    if Matches(d, secrets, token) {
      MatchesExactly(d, secrets, token, Claims(d, token).value.user);
    }
  }

  /** The shared cache and the auth table, with all requests in flight. */
  class AuthService {
    const d: Decoder
    var state: State
    ghost var base: map<string, string>
    ghost var trace: seq<Action>

    ghost predicate Valid()
      reads this
    {
      state == Run(d, Start(base), trace)
    }

    constructor (d: Decoder, secrets: map<string, string>)
      ensures Valid() && state == Start(secrets) && base == secrets && trace == [] && this.d == d
    {
      this.d := d;
      state := Start(secrets);
      base := secrets;
      trace := [];
    }

    method Atomic(a: Action)
      requires Valid() && Enabled(state, a)
      modifies this
      ensures Valid() && state == Do(d, old(state), a) && base == old(base) && trace == old(trace) + [a]
    {
      assert (trace + [a])[..|trace|] == trace;
      state := Do(d, state, a);
      trace := trace + [a];
    }

    /** Other requests, deletions, expiry and the clock. */
    method Others(w: Setting, me: Option<nat>)
      requires Valid() && (me.Some? ==> me.value < |state.requests|)
      modifies this
      ensures Valid() && base == old(base) && old(trace) <= trace
      ensures me.Some? ==> me.value < |state.requests| && state.requests[me.value] == old(state).requests[me.value]
      ensures !w.shared ==> state == old(state)
    {
      var wish: int := *;
      var steps := if wish < 0 || !w.shared then 0 else wish;
      for i := 0 to steps
        invariant Valid() && base == old(base) && old(trace) <= trace
        invariant me.Some? ==> me.value < |state.requests| && state.requests[me.value] == old(state).requests[me.value]
        invariant i == 0 ==> state == old(state)
      {
        var a: Action := *;
        if Enabled(state, a) && !(me.Some? && ActsFor(a, me.value)) {
          Atomic(a);
        }
      }
    }

    /** `auth_middleware`: the user that the request may act for, or none. */
    method AuthMiddleware(w: Setting, header: Option<string>) returns (user: Option<string>)
      requires Valid()
      modifies this
      ensures Valid() && base == old(base) && old(trace) <= trace
      ensures header.None? || header.value == "" || |header.value| > 256 ==> user.None? && state == old(state)
      ensures user.Some? ==>
        var token := if "Bearer " <= header.value then header.value[7..] else header.value;
        WasStored(d, base, state.log, token, user.value)
      ensures !w.shared && header.Some? && 0 < |header.value| <= 256 ==>
        var token := if "Bearer " <= header.value then header.value[7..] else header.value;
        Decided(d, old(state), state, token, user, w.faulty)
    {
      if header.None? || header.value == "" || |header.value| > MAX_AUTH_HEADER_LEN {
        return None;
      }
      var token := TokenOf(header.value);
      var me := |state.requests|;
      Atomic(Arrive(token));
      Others(w, Some(me));
      if Live(state, token) {
        var cached := ServeHit(me, token);
        return Some(cached);
      }
      Atomic(Look(me));
      user := VerifyToken(w, me, token);
    }

    /** A live entry is enough. */
    method ServeHit(me: nat, token: string) returns (user: string)
      requires Valid() && InPhase(state, me, Looking) && state.requests[me].token == token && Live(state, token)
      modifies this
      ensures Valid() && base == old(base) && old(trace) <= trace
      ensures user == old(state.cache[token].user)
      ensures state.secrets == old(state.secrets) && state.cache == old(state.cache)
      ensures WasStored(d, base, state.log, token, user)
    {
      ghost var at := state.cache[token].at;
      user := state.cache[token].user;
      InvRun(d, base, trace);
      InsertedStays(state.log, Hit(token, user, at, state.now), token, user, at, |state.log|);
      Atomic(Look(me));
      InvRun(d, base, trace);
      LetThrough(d, base, state, token, user, at);
    }

    /** `verify_token`, and the insertion after a match. */
    method VerifyToken(w: Setting, me: nat, token: string) returns (user: Option<string>)
      requires Valid() && InPhase(state, me, Verifying) && state.requests[me].token == token
      modifies this
      ensures Valid() && base == old(base) && old(trace) <= trace
      ensures user.Some? ==> WasStored(d, base, state.log, token, user.value)
      ensures !w.shared ==>
        && state.secrets == old(state.secrets)
        && (user.None? ==> state.cache == old(state.cache))
        && (user.Some? ==> state.cache == old(state.cache)[token := Entry(user.value, state.now)])
        && VerdictOk(d, old(state.secrets), token, user, w.faulty)
    {
      Others(w, Some(me));
      var down: bool := *;
      VerdictExactly(d, state.secrets, token);
      Atomic(Verify(me, down && w.faulty));
      if state.requests[me].phase.Denied? {
        return None;
      }
      user := Some(state.requests[me].phase.user);
      Others(w, Some(me));
      Atomic(Insert(me));
      assert state.log[|state.log| - 1] == Inserted(token, user.value, state.now);
      InvRun(d, base, trace);
      LetThrough(d, base, state, token, user.value, state.now);
    }

    /** `invalidate_user_cache`: collect the user's tokens, then evict them one by one. */
    method InvalidateUserCache(w: Setting, user: string)
      requires Valid()
      modifies this
      ensures Valid() && base == old(base) && old(trace) <= trace
      ensures !w.shared ==> state == old(state).(cache := state.cache)
      ensures !w.shared ==>
        state.cache == map t | t in old(state.cache) && old(state.cache)[t].user != user :: old(state.cache)[t]
      ensures Finished(old(state), user, trace[|old(trace)|..]) ==> Confined(state, user, {})
    {
      var toEvict := EntriesOf(state.cache, user);
      ghost var gone: set<string> := {};
      assert state.cache - gone == state.cache;
      while toEvict != {}
        invariant Valid() && base == old(base) && old(trace) <= trace
        invariant gone + toEvict == EntriesOf(old(state.cache), user)
        invariant !w.shared ==> state == old(state).(cache := old(state.cache) - gone)
        invariant Finished(old(state), user, trace[|old(trace)|..]) ==> Confined(state, user, toEvict)
        decreases toEvict
      {
        var token :| token in toEvict;
        ghost var sofar := trace;
        Atomic(Evict(token));
        assert old(state.cache) - gone - {token} == old(state.cache) - (gone + {token});
        toEvict, gone := toEvict - {token}, gone + {token};
        ghost var evicted, until := state, trace;
        Others(w, None);
        if Finished(old(state), user, trace[|old(trace)|..]) {
          SplitIssues(|old(trace)|, sofar, until, trace, user);
          MoreOfTrace(d, base, until, trace);
          ConfinedRun(d, evicted, trace[|until|..], user, toEvict);
        }
      }
    }

    /**
     The account goes, then its cache entries. With nobody else at work the user's tokens open nothing from then on
     exactly when no verification was under way; with others, they open nothing when none was under way and no
     new secret was issued meanwhile.
     */
    method DeleteAccount(w: Setting, user: string)
      requires Valid()
      modifies this
      ensures Valid() && base == old(base) && old(trace) <= trace
      ensures !w.shared ==> (Closed(d, state, user) <==> NoneVerified(old(state).requests, user))
      ensures NoneVerified(old(state).requests, user) && !Issues(trace[|old(trace)|..], user) ==> Closed(d, state, user)
    {
      Atomic(Delete(user));
      ghost var deleted, start := state, trace;
      Others(w, None);
      ghost var listed, until := state, trace;
      InvalidateUserCache(w, user);
      TimelyRun(d, base, trace);
      if !w.shared {
        ClosedExactly(d, state, user);
      }
      if NoneVerified(old(state).requests, user) && !Issues(trace[|old(trace)|..], user) {
        SplitIssues(|old(trace)|, start, until, trace, user);
        MoreOfTrace(d, base, start, until);
        ConfinedRun(d, deleted, until[|start|..], user, deleted.cache.Keys);
        ClosedExactly(d, state, user);
      }
    }
  }

  /** One request with nobody else at work. */
  ghost predicate Decided(d: Decoder, s: State, t: State, token: string, user: Option<string>, faulty: bool) {
    && t.secrets == s.secrets
    && if token in s.cache && s.cache[token].at <= s.now < s.cache[token].at + 60 then
         user == Some(s.cache[token].user) && t.cache == s.cache
       else
         && (user.None? ==> t.cache == s.cache)
         && (user.Some? ==> t.cache == s.cache[token := Entry(user.value, t.now)])
         && VerdictOk(d, s.secrets, token, user, faulty)
  }
}
