/**
 * Single-use execution tokens (`CapabilityTokenManager`). The signature is
 * ideal: a token is either signed with some secret or garbage. Times are
 * milliseconds; an id in use is never drawn again.
 */
module CapabilityTokens {

  const CAPABILITY_TTL_MS := 60 * 1000
  const MAX_TOKEN_LENGTH := 4096

  /** The five fields that an execution must agree with. */
  datatype Binding = Binding(taskId: string, invocationId: string, intentDigest: string,
                             sessionFingerprint: string, policyVersion: string)
  datatype Claims = Claims(tokenId: string, binding: Binding, scope: string, issuedAt: int, expiresAt: int)

  datatype Token = Garbage | Signed(secret: int, claims: Claims, length: nat)
  datatype Error = Invalid | Expired | BindingMismatch | Replayed
  datatype Verdict = Ok(claims: Claims) | Err(error: Error)

  datatype Stored = Stored(claims: Claims, consumed: bool)
  datatype State = State(issued: map<string, Stored>, externalConsumed: set<string>)

  function Min(a: int, b: int): int { if a <= b then a else b }

  function NewClaims(tokenId: string, binding: Binding, scope: string, ttlMs: int, now: int): Claims
  {
    Claims(tokenId, binding, scope, now, now + Min(ttlMs, CAPABILITY_TTL_MS))
  }

  function Issue(s: State, claims: Claims): State
  {
    s.(issued := s.issued[claims.tokenId := Stored(claims, false)])
  }

  function SignatureVerdict(secret: int, token: Token, expected: Binding, now: int): Verdict
  {
    if token.Garbage? || token.length > MAX_TOKEN_LENGTH || token.secret != secret then Err(Invalid)
    else if now >= token.claims.expiresAt then Err(Expired)
    else if token.claims.binding != expected then Err(BindingMismatch)
    else Ok(token.claims)
  }

  /** An expired token is forgotten as a side effect. */
  function AfterSignature(secret: int, s: State, token: Token, expected: Binding, now: int): State
  {
    if SignatureVerdict(secret, token, expected, now) == Err(Expired)
    then s.(issued := s.issued - {token.claims.tokenId}) else s
  }

  function Verify(secret: int, s: State, token: Token, expected: Binding, consume: bool, now: int): (State, Verdict)
  {
    var after, verdict := AfterSignature(secret, s, token, expected, now), SignatureVerdict(secret, token, expected, now);
    if verdict.Err? then (after, verdict)
    else
      var id := verdict.claims.tokenId;
      if id !in after.issued || after.issued[id].consumed then (after, Err(Replayed))
      else if consume then (after.(issued := after.issued[id := after.issued[id].(consumed := true)]), verdict)
      else (after, verdict)
  }

  function VerifyExternal(secret: int, s: State, token: Token, expected: Binding, consume: bool, now: int): (State, Verdict)
  {
    var after, verdict := AfterSignature(secret, s, token, expected, now), SignatureVerdict(secret, token, expected, now);
    if verdict.Err? then (after, verdict)
    else
      var id := verdict.claims.tokenId;
      if id in after.externalConsumed then (after, Err(Replayed))
      else if consume then (after.(externalConsumed := after.externalConsumed + {id}), verdict)
      else (after, verdict)
  }

  function RevokeTask(s: State, taskId: string): State
  {
    s.(issued := map id | id in s.issued && s.issued[id].claims.binding.taskId != taskId :: s.issued[id])
  }

  class CapabilityTokenManager {
    const secret: int
    var issued: map<string, Stored>
    var externalConsumed: set<string>

    ghost function Contents(): State
      reads this
    {
      State(issued, externalConsumed)
    }

    constructor (secret: int)
      ensures this.secret == secret && Contents() == State(map[], {})
    {
      this.secret, issued, externalConsumed := secret, map[], {};
    }

    /** `length` is the length of the encoded token. */
    method IssueToken(tokenId: string, binding: Binding, scope: string, ttlMs: int, now: int, length: nat)
      returns (token: Token)
      modifies this
      ensures var claims := NewClaims(tokenId, binding, scope, ttlMs, now);
              Contents() == Issue(old(Contents()), claims) && token == Signed(secret, claims, length)
    {
      var complete := Claims(tokenId, binding, scope, now, now + Min(ttlMs, CAPABILITY_TTL_MS));
      issued := issued[tokenId := Stored(complete, false)];
      token := Signed(secret, complete, length);
    }

    method VerifySignature(token: Token, expected: Binding, now: int) returns (verdict: Verdict)
      modifies this
      ensures verdict == SignatureVerdict(secret, token, expected, now)
      ensures Contents() == AfterSignature(secret, old(Contents()), token, expected, now)
    {
      if token.Garbage? || token.length > MAX_TOKEN_LENGTH || token.secret != secret {
        return Err(Invalid);
      }
      var claims := token.claims;
      if now >= claims.expiresAt {
        issued := issued - {claims.tokenId};
        return Err(Expired);
      }
      if claims.binding != expected {
        return Err(BindingMismatch);
      }
      return Ok(claims);
    }

    method VerifyToken(token: Token, expected: Binding, consume: bool, now: int) returns (verdict: Verdict)
      modifies this
      ensures (Contents(), verdict) == Verify(secret, old(Contents()), token, expected, consume, now)
    {
      verdict := VerifySignature(token, expected, now);
      if verdict.Err? {
        return;
      }
      var id := verdict.claims.tokenId;
      if id !in issued || issued[id].consumed {
        return Err(Replayed);
      }
      if consume {
        issued := issued[id := issued[id].(consumed := true)];
      }
    }

    method VerifyExternalToken(token: Token, expected: Binding, consume: bool, now: int) returns (verdict: Verdict)
      modifies this
      ensures (Contents(), verdict) == VerifyExternal(secret, old(Contents()), token, expected, consume, now)
    {
      verdict := VerifySignature(token, expected, now);
      if verdict.Err? {
        return;
      }
      var id := verdict.claims.tokenId;
      if id in externalConsumed {
        return Err(Replayed);
      }
      if consume {
        externalConsumed := externalConsumed + {id};
      }
    }

    method Revoke(taskId: string)
      modifies this
      ensures Contents() == RevokeTask(old(Contents()), taskId)
    {
      var remaining := issued.Keys;
      ghost var done := {};
      while remaining != {}
        invariant remaining !! done && remaining + done == old(issued).Keys
        invariant remaining <= issued.Keys
        invariant issued == map id | id in old(issued) &&
                    (id in remaining || old(issued)[id].claims.binding.taskId != taskId) :: old(issued)[id]
        invariant externalConsumed == old(externalConsumed)
        decreases remaining
      {
        var tokenId :| tokenId in remaining;
        if issued[tokenId].claims.binding.taskId == taskId {
          issued := issued - {tokenId};
        }
        remaining, done := remaining - {tokenId}, done + {tokenId};
      }
    }
  }

  // ----- Whole runs of one manager -----

  datatype Event =
    /** A token is issued under the secret, by this manager (`here`) or by another holder of the secret. */
    | IssueEvent(here: bool, tokenId: string, binding: Binding, scope: string, ttlMs: int, now: int)
    | VerifyEvent(token: Token, expected: Binding, external: bool, consume: bool, now: int)
    | RevokeEvent(taskId: string)

  /** What happened: each event with the verdict it got (the new claims for an issue). */
  datatype Step = Step(event: Event, verdict: Verdict)
  datatype Run = Run(state: State, log: seq<Step>)

  /** The step let a token pass. */
  predicate Passing(step: Step)
  {
    step.event.VerifyEvent? && step.verdict.Ok?
  }

  /** The step used a token up, here or as the external verifier. */
  predicate Consuming(step: Step, external: bool)
  {
    Passing(step) && step.event.consume && step.event.external == external
  }

  const EMPTY := Run(State(map[], {}), [])

  /** The state after an event and the step that is logged. */
  function Next(secret: int, s: State, e: Event): (State, Step)
  {
    match e
    case IssueEvent(here, tokenId, binding, scope, ttlMs, now) =>
      var claims := NewClaims(tokenId, binding, scope, ttlMs, now);
      (if here then Issue(s, claims) else s, Step(e, Ok(claims)))
    case VerifyEvent(token, expected, external, consume, now) =>
      var (state, verdict) := if external then VerifyExternal(secret, s, token, expected, consume, now)
                              else Verify(secret, s, token, expected, consume, now);
      (state, Step(e, verdict))
    case RevokeEvent(taskId) =>
      (RevokeTask(s, taskId), Step(e, Err(Invalid)))
  }

  function Execute(secret: int, events: seq<Event>): (r: Run)
    ensures |r.log| == |events|
    decreases |events|
  {
    if events == [] then EMPTY
    else
      var before := Execute(secret, events[..|events| - 1]);
      var (state, step) := Next(secret, before.state, events[|events| - 1]);
      Run(state, before.log + [step])
  }

  /**
   * What a log says has happened. `minted` holds the claims of every token under
   * the secret, `own` the ids issued here, `revoked` those of them whose task
   * was revoked since, `forgotten` the ids that were found expired.
   */
  datatype Past = Past(minted: map<string, Claims>, own: set<string>, used: set<string>, usedExternally: set<string>,
                       revoked: set<string>, forgotten: set<string>)

  function After(past: Past, step: Step): Past
  {
    match step.event
    case IssueEvent(here, tokenId, binding, scope, ttlMs, now) =>
      past.(minted := past.minted[tokenId := NewClaims(tokenId, binding, scope, ttlMs, now)],
            own := past.own + if here then {tokenId} else {})
    case VerifyEvent(token, _, external, consume, _) =>
      if token.Garbage? then past
      else
        var id := token.claims.tokenId;
        if step.verdict == Err(Expired) then past.(forgotten := past.forgotten + {id})
        else if Consuming(step, true) then past.(usedExternally := past.usedExternally + {id})
        else if Consuming(step, false) then past.(used := past.used + {id})
        else past
    case RevokeEvent(taskId) =>
      past.(revoked := past.revoked
                       + set id | id in past.own && id in past.minted && past.minted[id].binding.taskId == taskId)
  }

  function PastOf(log: seq<Step>): Past
  {
    if log == [] then Past(map[], {}, {}, {}, {}, {}) else After(PastOf(log[..|log| - 1]), log[|log| - 1])
  }

  /** Fresh ids, and no forged signature: a token under the secret carries claims that some holder of it issued. */
  predicate Possible(secret: int, past: Past, e: Event)
  {
    match e
    case IssueEvent(_, tokenId, _, _, _, _) => tokenId !in past.minted
    case VerifyEvent(token, _, _, _, _) =>
      token.Signed? && token.secret == secret ==>
        token.claims.tokenId in past.minted && past.minted[token.claims.tokenId] == token.claims
    case RevokeEvent(_) => true
  }

  predicate Legal(secret: int, events: seq<Event>)
    decreases |events|
  {
    events != [] ==>
      var earlier := events[..|events| - 1];
      Legal(secret, earlier) && Possible(secret, PastOf(Execute(secret, earlier).log), events[|events| - 1])
  }

  /** The token is genuine, for the five fields asked about, and in time. */
  predicate Fits(secret: int, e: Event)
    requires e.VerifyEvent?
  {
    && e.token.Signed? && e.token.secret == secret && e.token.length <= MAX_TOKEN_LENGTH
    && e.now < e.token.claims.expiresAt && e.token.claims.binding == e.expected
  }

  /** A channel still lets a token pass: any token it has not consumed; locally only one issued here and not withdrawn. */
  predicate IsOpen(past: Past, id: string, external: bool)
  {
    if external then id !in past.usedExternally
    else id in past.own && id !in past.used && id !in past.revoked && id !in past.forgotten
  }

  /** What an event gives, read off the past alone. */
  function Answer(secret: int, past: Past, e: Event): Verdict
  {
    match e
    case IssueEvent(_, tokenId, binding, scope, ttlMs, now) => Ok(NewClaims(tokenId, binding, scope, ttlMs, now))
    case VerifyEvent(token, expected, external, _, now) =>
      if Fits(secret, e) && !IsOpen(past, token.claims.tokenId, external) then Err(Replayed)
      else SignatureVerdict(secret, token, expected, now)
    case RevokeEvent(_) => Err(Invalid)
  }

  /** What the state remembers of the past. */
  ghost predicate Remembers(s: State, past: Past)
  {
    && (forall id :: id in past.minted ==> past.minted[id].tokenId == id)
    && past.used <= past.own <= past.minted.Keys
    && past.usedExternally + past.revoked + past.forgotten <= past.minted.Keys
    && s.issued.Keys == past.own - past.revoked - past.forgotten
    && (forall id :: id in s.issued ==> s.issued[id] == Stored(past.minted[id], id in past.used))
    && s.externalConsumed == past.usedExternally
  }

  lemma IssueIsSound(secret: int, s: State, past: Past, e: Event)
    requires e.IssueEvent? && Remembers(s, past) && Possible(secret, past, e)
    ensures var (state, step) := Next(secret, s, e);
            step.verdict == Answer(secret, past, e) && Remembers(state, After(past, step))
  {
    var (state, step) := Next(secret, s, e);
    assert After(past, step).minted.Keys == past.minted.Keys + {e.tokenId};
  }

  lemma VerifyIsSound(secret: int, s: State, past: Past, e: Event)
    requires e.VerifyEvent? && Remembers(s, past) && Possible(secret, past, e)
    ensures var (state, step) := Next(secret, s, e);
            step.verdict == Answer(secret, past, e) && Remembers(state, After(past, step))
  {
    var (state, step) := Next(secret, s, e);
    if step.verdict == Err(Expired) {
      assert state.issued.Keys == s.issued.Keys - {e.token.claims.tokenId};
    } else if Consuming(step, false) {
      assert state.issued.Keys == s.issued.Keys;
    }
  }

  lemma RevokeIsSound(secret: int, s: State, past: Past, e: Event)
    requires e.RevokeEvent? && Remembers(s, past)
    ensures var (state, step) := Next(secret, s, e);
            step.verdict == Answer(secret, past, e) && Remembers(state, After(past, step))
  {
  }

  lemma NextIsSound(secret: int, s: State, past: Past, e: Event)
    requires Remembers(s, past) && Possible(secret, past, e)
    ensures var (state, step) := Next(secret, s, e);
            step.verdict == Answer(secret, past, e) && Remembers(state, After(past, step))
  {
    match e
    case IssueEvent(_, _, _, _, _, _) => IssueIsSound(secret, s, past, e);
    case RevokeEvent(_) => RevokeIsSound(secret, s, past, e);
    case VerifyEvent(_, _, _, _, _) => VerifyIsSound(secret, s, past, e);
  }

  lemma {:induction false} RunRemembers(secret: int, events: seq<Event>)
    requires Legal(secret, events)
    ensures var r := Execute(secret, events);
            Remembers(r.state, PastOf(r.log))
    decreases |events|
  {
    if events != [] {
      var n := |events| - 1;
      RunRemembers(secret, events[..n]);
      var before, log := Execute(secret, events[..n]), Execute(secret, events).log;
      NextIsSound(secret, before.state, PastOf(before.log), events[n]);
      assert log[..n] == before.log;
    }
  }

  /** In every run, what each event gives is exactly what the steps before it determine. */
  lemma {:induction false} StepSound(secret: int, events: seq<Event>, j: nat)
    requires Legal(secret, events) && j < |events|
    ensures var log := Execute(secret, events).log;
            && log[j].event == events[j] && log[j].verdict == Answer(secret, PastOf(log[..j]), events[j])
            && Possible(secret, PastOf(log[..j]), events[j]) && PastOf(log[..j]).own <= PastOf(log[..j]).minted.Keys
    decreases |events|
  {
    var n := |events| - 1;
    var before, log := Execute(secret, events[..n]), Execute(secret, events).log;
    if j == n {
      RunRemembers(secret, events[..n]);
      NextIsSound(secret, before.state, PastOf(before.log), events[n]);
      assert log[..n] == before.log;
    } else {
      StepSound(secret, events[..n], j);
      assert log[..j] == before.log[..j] && log[j] == before.log[j];
    }
  }

  /** In every run, a verification passes exactly if the token fits and its channel is open for it. */
  lemma PassesIff(secret: int, events: seq<Event>, j: nat)
    requires Legal(secret, events) && j < |events| && events[j].VerifyEvent?
    ensures var log := Execute(secret, events).log;
            && log[j].event == events[j]
            && (Passing(log[j]) <==>
                  Fits(secret, events[j]) && IsOpen(PastOf(log[..j]), events[j].token.claims.tokenId, events[j].external))
            && (Passing(log[j]) ==> log[j].verdict == Ok(events[j].token.claims))
  {
    StepSound(secret, events, j);
  }

  /** Signed with this manager's secret, and not overlong. */
  predicate Genuine(secret: int, token: Token)
  {
    token.Signed? && token.secret == secret && token.length <= MAX_TOKEN_LENGTH
  }

  /**
   * In every run, why a token is refused: it is not genuine; it is genuine and its time is over; it
   * is in time but for other fields; or it fits, and its channel is closed for it.
   */
  lemma RefusedIff(secret: int, events: seq<Event>, j: nat)
    requires Legal(secret, events) && j < |events| && events[j].VerifyEvent?
    ensures var log, e := Execute(secret, events).log, events[j];
            var verdict, genuine := log[j].verdict, Genuine(secret, e.token);
            && (verdict == Err(Invalid) <==> !genuine)
            && (verdict == Err(Expired) <==> genuine && e.now >= e.token.claims.expiresAt)
            && (verdict == Err(BindingMismatch) <==>
                  genuine && e.now < e.token.claims.expiresAt && e.token.claims.binding != e.expected)
            && (verdict == Err(Replayed) <==>
                  && genuine && e.now < e.token.claims.expiresAt && e.token.claims.binding == e.expected
                  && !IsOpen(PastOf(log[..j]), e.token.claims.tokenId, e.external))
  {
    StepSound(secret, events, j);
  }

  /** A verification forgets exactly the token asked about, and only if it is genuine and its time is over. */
  lemma ForgetsIff(secret: int, s: State, e: Event, id: string)
    requires e.VerifyEvent? && id in s.issued
    ensures id !in Next(secret, s, e).0.issued <==>
              Genuine(secret, e.token) && e.now >= e.token.claims.expiresAt && id == e.token.claims.tokenId
    ensures id in Next(secret, s, e).0.issued ==> Next(secret, s, e).0.issued[id].claims == s.issued[id].claims
  {
  }

  /** A token is in time for the life it was asked for, but for a minute at most. */
  lemma InTimeIff(tokenId: string, binding: Binding, scope: string, ttlMs: int, issued: int, now: int)
    ensures now < NewClaims(tokenId, binding, scope, ttlMs, issued).expiresAt
            <==> now < issued + ttlMs && now < issued + 60 * 1000
  {
  }

  // ----- Reading the log -----

  lemma PastOfNext(log: seq<Step>, i: nat)
    requires i < |log|
    ensures PastOf(log[..i + 1]) == After(PastOf(log[..i]), log[i])
  {
    assert log[..i + 1][..i] == log[..i];
  }

  /** The event issues a token with these claims, `here` or by another holder of the secret. */
  predicate Issues(e: Event, claims: Claims, here: bool)
  {
    e.IssueEvent? && (here ==> e.here) && claims == NewClaims(e.tokenId, e.binding, e.scope, e.ttlMs, e.now)
  }

  lemma {:induction false} IssuedAt(secret: int, events: seq<Event>, j: nat, id: string)
    requires Legal(secret, events) && j <= |events|
    requires id in PastOf(Execute(secret, events).log[..j]).minted
    ensures var past := PastOf(Execute(secret, events).log[..j]);
            exists i :: 0 <= i < j && Issues(events[i], past.minted[id], id in past.own)
    decreases j
  {
    var log := Execute(secret, events).log;
    if j > 0 {
      var n := j - 1;
      StepSound(secret, events, n);
      PastOfNext(log, n);
      if events[n].IssueEvent? && events[n].tokenId == id {
        assert Issues(events[n], PastOf(log[..j]).minted[id], id in PastOf(log[..j]).own);
      } else {
        IssuedAt(secret, events, n, id);
      }
    }
  }

  /** What happened to a token is not undone. */
  ghost predicate Lasting(a: Past, b: Past)
  {
    && a.minted.Keys <= b.minted.Keys && (forall id :: id in a.minted ==> b.minted[id] == a.minted[id])
    && a.own <= b.own && a.used <= b.used && a.usedExternally <= b.usedExternally
    && a.revoked <= b.revoked && a.forgotten <= b.forgotten
  }

  lemma StepLasts(secret: int, past: Past, step: Step)
    requires Possible(secret, past, step.event)
    ensures Lasting(past, After(past, step))
  {
  }

  lemma LastsFurther(a: Past, b: Past, c: Past)
    requires Lasting(a, b) && Lasting(b, c)
    ensures Lasting(a, c)
  {
  }

  lemma {:induction false} PastLasts(secret: int, events: seq<Event>, i: nat, j: nat)
    requires Legal(secret, events) && i <= j <= |events|
    ensures var log := Execute(secret, events).log;
            Lasting(PastOf(log[..i]), PastOf(log[..j]))
    decreases j
  {
    if i < j {
      var log := Execute(secret, events).log;
      PastLasts(secret, events, i, j - 1);
      StepSound(secret, events, j - 1);
      PastOfNext(log, j - 1);
      StepLasts(secret, PastOf(log[..j - 1]), log[j - 1]);
      LastsFurther(PastOf(log[..i]), PastOf(log[..j - 1]), PastOf(log[..j]));
    }
  }

  lemma UsedAfter(secret: int, events: seq<Event>, i: nat, j: nat, external: bool)
    requires Legal(secret, events) && i < j <= |events| && Consuming(Execute(secret, events).log[i], external)
    ensures events[i].VerifyEvent? && events[i].external == external && events[i].token.Signed?
    ensures var past, id := PastOf(Execute(secret, events).log[..j]), events[i].token.claims.tokenId;
            if external then id in past.usedExternally else id in past.used
  {
    StepSound(secret, events, i);
    PastOfNext(Execute(secret, events).log, i);
    PastLasts(secret, events, i + 1, j);
  }

  // ----- What holds in every run -----

  /** A token that was consumed never passes again on that channel. */
  lemma ConsumedOnce(secret: int, events: seq<Event>, i: nat, j: nat)
    requires Legal(secret, events) && i < j < |events|
    ensures var log := Execute(secret, events).log;
            Passing(log[j]) && Consuming(log[i], log[j].event.external) ==>
              log[i].verdict.claims.tokenId != log[j].verdict.claims.tokenId
  {
    var log := Execute(secret, events).log;
    if Passing(log[j]) && Consuming(log[i], log[j].event.external) {
      PassedOpen(secret, events, j);
      PassedOpen(secret, events, i);
      UsedAfter(secret, events, i, j, events[j].external);
    }
  }

  lemma PassedOpen(secret: int, events: seq<Event>, j: nat)
    requires Legal(secret, events) && j < |events| && Passing(Execute(secret, events).log[j])
    ensures var log, e := Execute(secret, events).log, events[j];
            && e.VerifyEvent? && e.token.Signed? && log[j].event == e && log[j].verdict == Ok(e.token.claims)
            && IsOpen(PastOf(log[..j]), e.token.claims.tokenId, e.external)
  {
    StepSound(secret, events, j);
  }

  /**
   * What passes was issued earlier for exactly the five fields asked about, and
   * its time is not over; locally it was issued by this very manager, as the
   * external verifier by any holder of the secret, so also when this manager
   * never issues anything.
   */
  lemma PassesOnlyAsIssued(secret: int, events: seq<Event>, j: nat)
    requires Legal(secret, events) && j < |events|
    ensures var log := Execute(secret, events).log;
            Passing(log[j]) ==>
              exists i :: 0 <= i < j && Issues(events[i], log[j].verdict.claims, !log[j].event.external)
                && events[i].binding == log[j].event.expected
                && log[j].event.now < events[i].now + Min(events[i].ttlMs, CAPABILITY_TTL_MS)
  {
    var log := Execute(secret, events).log;
    StepSound(secret, events, j);
    if Passing(log[j]) {
      var id := events[j].token.claims.tokenId;
      IssuedAt(secret, events, j, id);
      var i :| 0 <= i < j && Issues(events[i], PastOf(log[..j]).minted[id], id in PastOf(log[..j]).own);
      assert Issues(events[i], log[j].verdict.claims, !log[j].event.external);
    }
  }

  /** After its task was revoked, a token issued here before passes no local verification. */
  lemma RevokedNeverPasses(secret: int, events: seq<Event>, i: nat, j: nat, k: nat)
    requires Legal(secret, events) && i < j < k < |events|
    requires events[i].IssueEvent? && events[i].here && events[j] == RevokeEvent(events[i].binding.taskId)
    ensures var log := Execute(secret, events).log;
            Passing(log[k]) && !log[k].event.external ==> log[k].verdict.claims.tokenId != events[i].tokenId
  {
    var log := Execute(secret, events).log;
    StepSound(secret, events, i);
    PastOfNext(log, i);
    PastLasts(secret, events, i + 1, j);
    StepSound(secret, events, j);
    PastOfNext(log, j);
    PastLasts(secret, events, j + 1, k);
    StepSound(secret, events, k);
  }

  // ----- Where the promise ends -----

  /**
   * Once consumed, a token passes again exactly on the other channel, and
   * there exactly if that channel is still open for it and the token still
   * fits: the two channels count apart.
   */
  lemma SecondUseIff(secret: int, events: seq<Event>, i: nat, j: nat)
    requires Legal(secret, events) && i < j < |events| && events[i].VerifyEvent? && events[j].VerifyEvent?
    requires Consuming(Execute(secret, events).log[i], events[i].external)
    requires events[i].token.Signed? && events[j].token.Signed?
    requires events[j].token.claims.tokenId == events[i].token.claims.tokenId
    ensures var log := Execute(secret, events).log;
            Passing(log[j]) <==>
              && events[j].external != events[i].external
              && Fits(secret, events[j])
              && IsOpen(PastOf(log[..j]), events[j].token.claims.tokenId, events[j].external)
  {
    PassesIff(secret, events, j);
    UsedAfter(secret, events, i, j, events[i].external);
  }

  /** Such a second use happens: one manager lets a token be consumed once on each channel. */
  lemma ConsumedOnBothChannels(secret: int, binding: Binding)
    ensures var token := Signed(secret, NewClaims("cap", binding, "once", 1000, 0), 100);
            var events := [IssueEvent(true, "cap", binding, "once", 1000, 0),
                           VerifyEvent(token, binding, false, true, 1), VerifyEvent(token, binding, true, true, 2)];
            var log := Execute(secret, events).log;
            Legal(secret, events) && Consuming(log[1], false) && Consuming(log[2], true)
            && log[1].verdict == log[2].verdict
  {
    var claims := NewClaims("cap", binding, "once", 1000, 0);
    var token := Signed(secret, claims, 100);
    var e0, e1, e2 := IssueEvent(true, "cap", binding, "once", 1000, 0),
                      VerifyEvent(token, binding, false, true, 1), VerifyEvent(token, binding, true, true, 2);
    assert [e0][..0] == [] && [e0, e1][..1] == [e0] && [e0, e1, e2][..2] == [e0, e1];
    assert Execute(secret, [e0]).log == [Step(e0, Ok(claims))];
    assert PastOf([Step(e0, Ok(claims))]).minted == map["cap" := claims] by {
      assert [Step(e0, Ok(claims))][..0] == [];
    }
    var log1 := Execute(secret, [e0, e1]).log;
    assert log1[..1] == [Step(e0, Ok(claims))];
    assert PastOf(log1).minted == map["cap" := claims];
    assert Legal(secret, [e0]) && Legal(secret, [e0, e1]);
  }

  /** Fresh ids matter: issuing again under the id of a consumed token lets that token pass exactly as far as it fits. */
  lemma ReusedIdReplays(secret: int, s: State, token: Token, again: Claims, expected: Binding, consume: bool, now: int)
    requires token.Signed? && token.claims.tokenId in s.issued && s.issued[token.claims.tokenId].consumed
    requires again.tokenId == token.claims.tokenId
    ensures Verify(secret, s, token, expected, consume, now).1.Err?
    ensures Verify(secret, Issue(s, again), token, expected, consume, now).1.Ok?
            <==> Fits(secret, VerifyEvent(token, expected, false, consume, now))
  {
    assert Issue(s, again).issued[token.claims.tokenId] == Stored(again, false);
  }
}
