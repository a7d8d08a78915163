/**
 * Approval requests and what deciding them gives (`ApprovalManager`). Request
 * and token ids are drawn fresh; display fields are left out.
 */
module Approvals {
  import opened Options
  import Scopes = ApprovalScopes
  import Tokens = CapabilityTokens

  const APPROVAL_TTL_MS := 10 * 60 * 1000

  datatype Risk = R0 | R1 | R2 | R3 | R4 | R5
  datatype Choice = Reject | CancelTask | ApproveOnce | ApproveTask

  datatype Session = Session(taskId: string, fingerprint: string, deadline: int)
  datatype Intent = Intent(invocationId: string, digest: string)
  datatype Policy = Policy(decisionId: string, version: string, risk: Risk, allowsTaskScope: bool)

  datatype Request = Request(taskId: string, intent: Intent, policy: Policy, interactive: bool,
                             fingerprint: string, allowed: set<Choice>, expiresAt: int)
  datatype Entry = Entry(request: Request, resolved: bool)
  datatype Decision = Decision(requestId: string, digest: string, choice: Choice)

  datatype Error = SchemaError | Stale | DecisionMismatch | ChoiceDenied

  datatype Result =
    | Created
    | Expired
    | Declined(choice: Choice)
    | Handoff(choice: Choice)
    | Approved(choice: Choice, token: Tokens.Token)
    | Superseded
    | TaskRevoked
    | TokenAnswer(verdict: Tokens.Verdict)
    | Unchanged
    | Failed(error: Error)

  datatype State = State(requests: map<string, Entry>, grants: Scopes.Grants, tokens: Tokens.State)

  function Min(a: int, b: int): int { if a <= b then a else b }

  predicate IdChar(c: char)
  {
    'A' <= c <= 'Z' || 'a' <= c <= 'z' || '0' <= c <= '9' || c == '_' || c == '-'
  }

  predicate ValidId(id: string) { 8 <= |id| <= 160 && forall i :: 0 <= i < |id| ==> IdChar(id[i]) }

  /** The request schema's demands on the fields that matter here. */
  predicate SchemaAccepts(session: Session, intent: Intent, policy: Policy)
  {
    && ValidId(session.taskId) && ValidId(intent.invocationId) && ValidId(policy.decisionId)
    && |intent.digest| == 64 && |session.fingerprint| == 64
  }

  function AllowedChoices(interactive: bool, policy: Policy): set<Choice>
  {
    {Reject, CancelTask}
    + (if policy.risk != R5 then {ApproveOnce} else {})
    + (if !interactive && policy.allowsTaskScope && policy.risk != R4 then {ApproveTask} else {})
  }

  function NewRequest(session: Session, intent: Intent, policy: Policy, interactive: bool, now: int): Request
  {
    Request(session.taskId, intent, policy, interactive, session.fingerprint,
            AllowedChoices(interactive, policy), Min(now + APPROVAL_TTL_MS, session.deadline))
  }

  function GrantKey(r: Request): string
  {
    Scopes.Key(r.taskId, r.intent.digest, r.fingerprint, r.policy.version)
  }

  function BindingOf(r: Request): Tokens.Binding
  {
    Tokens.Binding(r.taskId, r.intent.invocationId, r.intent.digest, r.fingerprint, r.policy.version)
  }

  function TokenFor(secret: int, r: Request, choice: Choice, tokenId: string, now: int, length: nat): Tokens.Token
  {
    Tokens.Signed(secret,
                  Tokens.NewClaims(tokenId, BindingOf(r), if choice == ApproveTask then "task_exact_match" else "once",
                                   Tokens.CAPABILITY_TTL_MS, now), length)
  }

  function Create(s: State, id: string, session: Session, intent: Intent, policy: Policy, interactive: bool, now: int)
    : (State, Result)
  {
    if !SchemaAccepts(session, intent, policy) then (s, Failed(SchemaError))
    else (s.(requests := s.requests[id := Entry(NewRequest(session, intent, policy, interactive, now), false)]), Created)
  }

  function Settled(s: State, id: string): State
    requires id in s.requests
  {
    s.(requests := s.requests[id := s.requests[id].(resolved := true)])
  }

  function Resolve(secret: int, s: State, session: Session, d: Decision, tokenId: string, now: int, length: nat)
    : (State, Result)
  {
    if d.requestId !in s.requests || s.requests[d.requestId].resolved then (s, Failed(Stale))
    else
      var r := s.requests[d.requestId].request;
      if r.taskId != session.taskId || d.digest != r.intent.digest then (s, Failed(DecisionMismatch))
      else if r.fingerprint != session.fingerprint then (s, Failed(Stale))
      else if now >= r.expiresAt then (Settled(s, d.requestId), Expired)
      else if d.choice !in r.allowed then (s, Failed(ChoiceDenied))
      else
        var settled := Settled(s, d.requestId);
        if d.choice == Reject || d.choice == CancelTask then (settled, Declined(d.choice))
        else if r.interactive then (settled, Handoff(d.choice))
        else
          var token := TokenFor(secret, r, d.choice, tokenId, now, length);
          (settled.(grants := if d.choice == ApproveTask then Scopes.Granted(s.grants, GrantKey(r), d.requestId) else s.grants,
                    tokens := Tokens.Issue(s.tokens, token.claims)),
           Approved(d.choice, token))
  }

  function Expire(s: State, session: Session, id: string): (State, Result)
  {
    if id !in s.requests || s.requests[id].resolved || s.requests[id].request.taskId != session.taskId then (s, Unchanged)
    else (Settled(s, id), Expired)
  }

  function Supersede(s: State, session: Session, id: string, digest: string): (State, Result)
  {
    if id !in s.requests || s.requests[id].resolved || s.requests[id].request.taskId != session.taskId
       || s.requests[id].request.intent.digest != digest then (s, Failed(Stale))
    else (Settled(s, id), Superseded)
  }

  function RevokeTask(s: State, taskId: string): State
  {
    State(map id | id in s.requests ::
            if s.requests[id].request.taskId == taskId then s.requests[id].(resolved := true) else s.requests[id],
          Scopes.Revoked(s.grants, taskId), Tokens.RevokeTask(s.tokens, taskId))
  }

  /** `hasTaskGrant`. */
  predicate HasTaskGrant(s: State, session: Session, intent: Intent, policy: Policy)
  {
    Scopes.Key(session.taskId, intent.digest, session.fingerprint, policy.version) in s.grants
  }

  class ApprovalManager {
    const capabilities: Tokens.CapabilityTokenManager
    const scopes: Scopes.ApprovalScopeStore
    var requests: map<string, Entry>

    ghost function Contents(): State
      reads this, capabilities, scopes
    {
      State(requests, scopes.grants, capabilities.Contents())
    }

    constructor (capabilities: Tokens.CapabilityTokenManager, scopes: Scopes.ApprovalScopeStore)
      ensures this.capabilities == capabilities && this.scopes == scopes && requests == map[]
    {
      this.capabilities, this.scopes, requests := capabilities, scopes, map[];
    }

    method TaskGrant(session: Session, intent: Intent, policy: Policy) returns (granted: bool)
      ensures granted == HasTaskGrant(Contents(), session, intent, policy)
    {
      var request := scopes.Get(session.taskId, intent.digest, session.fingerprint, policy.version);
      granted := request.Some?;
    }

    method CreateRequest(id: string, session: Session, intent: Intent, policy: Policy, interactive: bool, now: int)
      returns (result: Result)
      modifies this
      ensures (Contents(), result) == Create(old(Contents()), id, session, intent, policy, interactive, now)
    {
      var expiry := Min(now + APPROVAL_TTL_MS, session.deadline);
      var allowed := {Reject, CancelTask};
      if policy.risk != R5 {
        allowed := allowed + {ApproveOnce};
      }
      if !interactive && policy.allowsTaskScope && policy.risk != R4 {
        allowed := allowed + {ApproveTask};
      }
      assert allowed == AllowedChoices(interactive, policy);
      if !SchemaAccepts(session, intent, policy) {
        return Failed(SchemaError);
      }
      var request := Request(session.taskId, intent, policy, interactive, session.fingerprint, allowed, expiry);
      requests := requests[id := Entry(request, false)];
      return Created;
    }

    method ResolveRequest(session: Session, decision: Decision, tokenId: string, now: int, length: nat)
      returns (result: Result)
      modifies this, capabilities, scopes
      ensures (Contents(), result) ==
              Resolve(capabilities.secret, old(Contents()), session, decision, tokenId, now, length)
    {
      var id := decision.requestId;
      if id !in requests || requests[id].resolved {
        return Failed(Stale);
      }
      var request := requests[id].request;
      if request.taskId != session.taskId || decision.digest != request.intent.digest {
        return Failed(DecisionMismatch);
      }
      if request.fingerprint != session.fingerprint {
        return Failed(Stale);
      }
      if now >= request.expiresAt {
        requests := requests[id := requests[id].(resolved := true)];
        return Expired;
      }
      if decision.choice !in request.allowed {
        return Failed(ChoiceDenied);
      }
      requests := requests[id := requests[id].(resolved := true)];
      if decision.choice == Reject || decision.choice == CancelTask {
        return Declined(decision.choice);
      }
      if request.interactive {
        return Handoff(decision.choice);
      }
      if decision.choice == ApproveTask {
        scopes.Grant(session.taskId, request.intent.digest, request.fingerprint, request.policy.version, id);
      }
      var binding := Tokens.Binding(session.taskId, request.intent.invocationId, request.intent.digest,
                                    request.fingerprint, request.policy.version);
      var scope := if decision.choice == ApproveTask then "task_exact_match" else "once";
      var capability := capabilities.IssueToken(tokenId, binding, scope, Tokens.CAPABILITY_TTL_MS, now, length);
      return Approved(decision.choice, capability);
    }

    method ExpireRequest(session: Session, id: string) returns (result: Result)
      modifies this
      ensures (Contents(), result) == Expire(old(Contents()), session, id)
    {
      if id !in requests || requests[id].resolved || requests[id].request.taskId != session.taskId {
        return Unchanged;
      }
      requests := requests[id := requests[id].(resolved := true)];
      return Expired;
    }

    method SupersedeRequest(session: Session, id: string, digest: string) returns (result: Result)
      modifies this
      ensures (Contents(), result) == Supersede(old(Contents()), session, id, digest)
    {
      if id !in requests || requests[id].resolved || requests[id].request.taskId != session.taskId
         || requests[id].request.intent.digest != digest {
        return Failed(Stale);
      }
      requests := requests[id := requests[id].(resolved := true)];
      return Superseded;
    }

    method Revoke(taskId: string)
      modifies this, capabilities, scopes
      ensures Contents() == RevokeTask(old(Contents()), taskId)
    {
      capabilities.Revoke(taskId);
      scopes.RevokeTask(taskId);
      var remaining := requests.Keys;
      while remaining != {}
        invariant remaining <= requests.Keys == old(requests).Keys
        invariant forall id :: id in requests ==>
                    requests[id] == if id !in remaining && old(requests)[id].request.taskId == taskId
                                    then old(requests)[id].(resolved := true) else old(requests)[id]
        invariant scopes.grants == Scopes.Revoked(old(scopes.grants), taskId)
        invariant capabilities.Contents() == Tokens.RevokeTask(old(capabilities.Contents()), taskId)
        decreases remaining
      {
        var id :| id in remaining;
        if requests[id].request.taskId == taskId {
          requests := requests[id := requests[id].(resolved := true)];
        }
        remaining := remaining - {id};
      }
    }
  }

  // ----- Whole runs -----

  datatype Event =
    | CreateEvent(id: string, session: Session, intent: Intent, policy: Policy, interactive: bool, now: int)
    | ResolveEvent(session: Session, decision: Decision, tokenId: string, now: int, length: nat)
    | ExpireEvent(session: Session, id: string)
    | SupersedeEvent(session: Session, id: string, digest: string)
    | RevokeEvent(taskId: string)
    | TokenEvent(event: Tokens.Event)   // whatever else is done with the token manager

  datatype Step = Step(event: Event, result: Result)
  datatype Run = Run(state: State, log: seq<Step>)

  const EMPTY := Run(State(map[], map[], Tokens.State(map[], {})), [])

  function Next(secret: int, s: State, e: Event): (State, Step)
  {
    var (state, result) :=
      match e
      case CreateEvent(id, session, intent, policy, interactive, now) => Create(s, id, session, intent, policy, interactive, now)
      case ResolveEvent(session, decision, tokenId, now, length) => Resolve(secret, s, session, decision, tokenId, now, length)
      case ExpireEvent(session, id) => Expire(s, session, id)
      case SupersedeEvent(session, id, digest) => Supersede(s, session, id, digest)
      case RevokeEvent(taskId) => (RevokeTask(s, taskId), TaskRevoked)
      case TokenEvent(event) =>
        var (tokens, step) := Tokens.Next(secret, s.tokens, event);
        (s.(tokens := tokens), TokenAnswer(step.verdict));
    (state, Step(e, result))
  }

  function Execute(secret: int, events: seq<Event>): (r: Run)
    ensures |r.log| == |events|
    decreases |events|
  {
    if events == [] then EMPTY
    else
      var before := Execute(secret, events[..|events| - 1]);
      var (state, step) := Next(secret, before.state, events[|events| - 1]);
      Run(state, before.log + [step])
  }

  /** The request that a step decided on its own: approved, declined, handed off, expired or superseded. */
  predicate Decides(step: Step, id: string)
  {
    match step.event
    case ResolveEvent(_, d, _, _, _) =>
      d.requestId == id && (step.result.Approved? || step.result.Handoff? || step.result.Declined? || step.result.Expired?)
    case ExpireEvent(_, other) => other == id && step.result.Expired?
    case SupersedeEvent(_, other, _) => other == id && step.result.Superseded?
    case _ => false
  }

  /**
   * What a log says has happened: the requests made, those decided or revoked since, and those
   * approved task-wide whose grant was not revoked since.
   */
  datatype Past = Past(created: map<string, Request>, closed: set<string>, active: set<string>)

  /** Revoking `taskId` reaches the request's grant. */
  predicate Reaches(taskId: string, r: Request)
  {
    taskId + ":" <= GrantKey(r)
  }

  function After(past: Past, step: Step): Past
  {
    match step.event
    case CreateEvent(id, session, intent, policy, interactive, now) =>
      if step.result.Created?
      then past.(created := past.created[id := NewRequest(session, intent, policy, interactive, now)]) else past
    case RevokeEvent(taskId) =>
      past.(closed := past.closed + (set id | id in past.created && past.created[id].taskId == taskId),
            active := set id | id in past.active && !(id in past.created && Reaches(taskId, past.created[id])))
    case ResolveEvent(_, d, _, _, _) =>
      var closed := if Decides(step, d.requestId) then past.closed + {d.requestId} else past.closed;
      past.(closed := closed,
            active := if step.result.Approved? && step.result.choice == ApproveTask then past.active + {d.requestId} else past.active)
    case ExpireEvent(_, id) => if Decides(step, id) then past.(closed := past.closed + {id}) else past
    case SupersedeEvent(_, id, _) => if Decides(step, id) then past.(closed := past.closed + {id}) else past
    case TokenEvent(_) => past
  }

  function PastOf(log: seq<Step>): Past
  {
    if log == [] then Past(map[], {}, {}) else After(PastOf(log[..|log| - 1]), log[|log| - 1])
  }

  /** The event draws this token id: for a decision, which may need one, or for a token issued without approval. */
  predicate Draws(e: Event, tokenId: string)
  {
    match e
    case ResolveEvent(_, _, id, _, _) => id == tokenId
    case TokenEvent(event) => event.IssueEvent? && event.tokenId == tokenId
    case _ => false
  }

  ghost predicate DrawsFresh(earlier: seq<Event>, e: Event)
  {
    forall j, id :: 0 <= j < |earlier| && Draws(e, id) ==> !Draws(earlier[j], id)
  }

  /** Request and token ids are fresh. */
  ghost predicate Legal(secret: int, events: seq<Event>)
    decreases |events|
  {
    events != [] ==>
      var earlier, e := events[..|events| - 1], events[|events| - 1];
      && Legal(secret, earlier)
      && (e.CreateEvent? ==> e.id !in PastOf(Execute(secret, earlier).log).created)
      && DrawsFresh(earlier, e)
  }

  /** The decision is about a request that was made, is still open and is for the same task, session and digest. */
  predicate Concerns(past: Past, e: Event)
  {
    && e.ResolveEvent?
    && var id := e.decision.requestId;
       && id in past.created && id !in past.closed
       && var r := past.created[id];
          && r.taskId == e.session.taskId && r.fingerprint == e.session.fingerprint
          && r.intent.digest == e.decision.digest
  }

  /** ... and it comes in time, with a choice that was offered. */
  predicate Acceptable(past: Past, e: Event)
  {
    && Concerns(past, e)
    && var r := past.created[e.decision.requestId];
       e.now < r.expiresAt && e.decision.choice in AllowedChoices(r.interactive, r.policy)
  }

  predicate Approves(choice: Choice) { choice == ApproveOnce || choice == ApproveTask }

  /** Exactly when a decision gives a capability, and which; exactly when it is handed off, declined or late. */
  predicate ResolveIsExact(secret: int, past: Past, step: Step)
  {
    var e, result := step.event, step.result;
    && (result.Approved? <==>
          Acceptable(past, e) && Approves(e.decision.choice) && !past.created[e.decision.requestId].interactive)
    && (result.Approved? ==>
          && result.choice == e.decision.choice
          && result.token == TokenFor(secret, past.created[e.decision.requestId], result.choice, e.tokenId, e.now, e.length))
    && (result.Handoff? <==>
          Acceptable(past, e) && Approves(e.decision.choice) && past.created[e.decision.requestId].interactive)
    && (result.Declined? <==> Acceptable(past, e) && !Approves(e.decision.choice))
    && (e.ResolveEvent? ==>
          (result.Expired? <==> Concerns(past, e) && e.now >= past.created[e.decision.requestId].expiresAt))
  }

  /** Exactly what the other steps do, given the past. */
  predicate OthersAreExact(past: Past, step: Step)
  {
    match step.event
    case CreateEvent(_, session, intent, policy, _, _) => step.result.Created? <==> SchemaAccepts(session, intent, policy)
    case ExpireEvent(session, id) =>
      step.result.Expired? <==> id in past.created && id !in past.closed && past.created[id].taskId == session.taskId
    case SupersedeEvent(session, id, digest) =>
      step.result.Superseded? <==>
        id in past.created && id !in past.closed && past.created[id].taskId == session.taskId
        && past.created[id].intent.digest == digest
    case _ => true
  }

  /** What a step is, given the past. */
  predicate StepIsSound(secret: int, past: Past, step: Step)
  {
    ResolveIsExact(secret, past, step) && OthersAreExact(past, step)
  }

  predicate IsMade(r: Request)
  {
    ValidId(r.taskId) && |r.intent.digest| == 64 && |r.fingerprint| == 64 && r.allowed == AllowedChoices(r.interactive, r.policy)
  }

  predicate AllowsTask(r: Request)
  {
    !r.interactive && r.policy.risk != R4 && r.policy.allowsTaskScope
  }

  ghost predicate RemembersRequests(s: State, past: Past)
  {
    && s.requests.Keys == past.created.Keys && past.closed <= past.created.Keys
    && (forall id :: id in s.requests ==> s.requests[id] == Entry(past.created[id], id in past.closed))
    && (forall id :: id in past.created ==> IsMade(past.created[id]))
  }

  /** The grants are exactly those of the active requests. */
  ghost predicate RemembersGrants(grants: Scopes.Grants, past: Past)
  {
    && past.active <= past.closed <= past.created.Keys
    && (forall id :: id in past.active ==> AllowsTask(past.created[id]) && GrantKey(past.created[id]) in grants)
    && (forall key :: key in grants ==> grants[key] in past.active && key == GrantKey(past.created[grants[key]]))
  }

  /** What the state remembers of the past. */
  ghost predicate Remembers(s: State, past: Past)
  {
    RemembersRequests(s, past) && RemembersGrants(s.grants, past)
  }

  lemma SettleKeeps(s: State, past: Past, id: string)
    requires Remembers(s, past) && id in s.requests
    ensures Remembers(Settled(s, id), past.(closed := past.closed + {id}))
  {
  }

  lemma GrantKeeps(s: State, past: Past, id: string)
    requires Remembers(s, past) && id in past.closed && AllowsTask(past.created[id])
    ensures Remembers(s.(grants := Scopes.Granted(s.grants, GrantKey(past.created[id]), id)),
                      past.(active := past.active + {id}))
  {
  }

  lemma TokensDoNotMatter(s: State, past: Past, tokens: Tokens.State)
    requires Remembers(s, past)
    ensures Remembers(s.(tokens := tokens), past)
  {
  }

  lemma CreateIsSound(secret: int, s: State, past: Past, e: Event)
    requires e.CreateEvent? && e.id !in past.created && Remembers(s, past)
    ensures var (state, step) := Next(secret, s, e);
            StepIsSound(secret, past, step) && Remembers(state, After(past, step))
  {
    if SchemaAccepts(e.session, e.intent, e.policy) {
      MadeKeeps(s, past, e.id, NewRequest(e.session, e.intent, e.policy, e.interactive, e.now));
    }
  }

  lemma MadeKeeps(s: State, past: Past, id: string, r: Request)
    requires id !in past.created && Remembers(s, past) && IsMade(r)
    ensures Remembers(s.(requests := s.requests[id := Entry(r, false)]), past.(created := past.created[id := r]))
  {
    assert s.requests[id := Entry(r, false)].Keys == s.requests.Keys + {id};
    assert id !in past.closed && id !in past.active;
  }

  lemma ResolveFits(secret: int, s: State, past: Past, e: Event)
    requires e.ResolveEvent? && Remembers(s, past)
    ensures StepIsSound(secret, past, Next(secret, s, e).1)
  {
    var id := e.decision.requestId;
    if id in s.requests {
      assert IsMade(past.created[id]) && s.requests[id] == Entry(past.created[id], id in past.closed);
    }
  }

  lemma ResolveIsSound(secret: int, s: State, past: Past, e: Event)
    requires e.ResolveEvent? && Remembers(s, past)
    ensures var (state, step) := Next(secret, s, e);
            StepIsSound(secret, past, step) && Remembers(state, After(past, step))
  {
    var id := e.decision.requestId;
    var (state, step) := Next(secret, s, e);
    ResolveFits(secret, s, past, e);
    if Decides(step, id) {
      var settled, closed := Settled(s, id), past.(closed := past.closed + {id});
      SettleKeeps(s, past, id);
      if step.result.Approved? {
        TokensDoNotMatter(settled, closed, state.tokens);
        if step.result.choice == ApproveTask {
          GrantKeeps(settled.(tokens := state.tokens), closed, id);
        }
      }
    } else {
      assert state == s && After(past, step) == past;
    }
  }

  lemma CloseIsSound(secret: int, s: State, past: Past, e: Event)
    requires (e.ExpireEvent? || e.SupersedeEvent?) && Remembers(s, past)
    ensures var (state, step) := Next(secret, s, e);
            StepIsSound(secret, past, step) && Remembers(state, After(past, step))
  {
    var (state, step) := Next(secret, s, e);
    if Decides(step, e.id) {
      SettleKeeps(s, past, e.id);
    }
  }

  lemma RevokeIsSound(secret: int, s: State, past: Past, e: Event)
    requires e.RevokeEvent? && Remembers(s, past)
    ensures var (state, step) := Next(secret, s, e);
            StepIsSound(secret, past, step) && Remembers(state, After(past, step))
  {
  }

  lemma NextIsSound(secret: int, s: State, past: Past, e: Event)
    requires Remembers(s, past) && (e.CreateEvent? ==> e.id !in past.created)
    ensures var (state, step) := Next(secret, s, e);
            StepIsSound(secret, past, step) && Remembers(state, After(past, step))
  {
    match e
    case CreateEvent(_, _, _, _, _, _) => CreateIsSound(secret, s, past, e);
    case ResolveEvent(_, _, _, _, _) => ResolveIsSound(secret, s, past, e);
    case ExpireEvent(_, _) => CloseIsSound(secret, s, past, e);
    case SupersedeEvent(_, _, _) => CloseIsSound(secret, s, past, e);
    case RevokeEvent(_) => RevokeIsSound(secret, s, past, e);
    case TokenEvent(_) => TokensDoNotMatter(s, past, Next(secret, s, e).0.tokens);
  }

  lemma {:induction false} RunRemembers(secret: int, events: seq<Event>)
    requires Legal(secret, events)
    ensures var r := Execute(secret, events);
            Remembers(r.state, PastOf(r.log))
    decreases |events|
  {
    if events != [] {
      var n := |events| - 1;
      RunRemembers(secret, events[..n]);
      var before, log := Execute(secret, events[..n]), Execute(secret, events).log;
      NextIsSound(secret, before.state, PastOf(before.log), events[n]);
      assert log[..n] == before.log;
    }
  }

  /** Every step of every run is sound, given all the steps before it. */
  lemma {:induction false} StepSound(secret: int, events: seq<Event>, j: nat)
    requires Legal(secret, events) && j < |events|
    ensures var log := Execute(secret, events).log;
            && StepIsSound(secret, PastOf(log[..j]), log[j])
            && log[j].event == events[j]
            && (events[j].CreateEvent? ==> events[j].id !in PastOf(log[..j]).created)
            && PastOf(log[..j]).active <= PastOf(log[..j]).created.Keys
    decreases |events|
  {
    var n := |events| - 1;
    var before, log := Execute(secret, events[..n]), Execute(secret, events).log;
    if j == n {
      RunRemembers(secret, events[..n]);
      NextIsSound(secret, before.state, PastOf(before.log), events[n]);
      assert log[..n] == before.log;
    } else {
      StepSound(secret, events[..n], j);
      assert log[..j] == before.log[..j] && log[j] == before.log[j];
    }
  }

  // ----- Reading the log -----

  lemma {:induction false} ClosedIn(log: seq<Step>, i: nat, id: string)
    requires i < |log|
    requires Decides(log[i], id)
             || (log[i].event.RevokeEvent? && id in PastOf(log[..i]).created
                 && PastOf(log[..i]).created[id].taskId == log[i].event.taskId)
    ensures id in PastOf(log).closed
    decreases |log|
  {
    var n := |log| - 1;
    if i < n {
      assert log[..n][..i] == log[..i];
      ClosedIn(log[..n], i, id);
    }
  }

  lemma {:induction false} CreatedAt(log: seq<Step>, id: string)
    requires id in PastOf(log).created
    ensures exists i :: 0 <= i < |log| && log[i].event.CreateEvent? && log[i].event.id == id && log[i].result.Created?
              && var e := log[i].event;
                 PastOf(log).created[id] == NewRequest(e.session, e.intent, e.policy, e.interactive, e.now)
    decreases |log|
  {
    var n := |log| - 1;
    var last := log[n];
    if !(last.event.CreateEvent? && last.event.id == id && last.result.Created?) {
      CreatedAt(log[..n], id);
      var i :| 0 <= i < n && log[..n][i].event.CreateEvent? && log[..n][i].event.id == id && log[..n][i].result.Created?
               && var e := log[..n][i].event;
                  PastOf(log[..n]).created[id] == NewRequest(e.session, e.intent, e.policy, e.interactive, e.now);
      assert log[i] == log[..n][i];
    }
  }

  /** A request is decided at most once in a run, so it yields at most one capability. */
  lemma DecidedOnce(secret: int, events: seq<Event>, i: nat, j: nat, id: string)
    requires Legal(secret, events) && i < j < |events|
    ensures var log := Execute(secret, events).log;
            Decides(log[i], id) ==> !Decides(log[j], id)
  {
    var log := Execute(secret, events).log;
    StepSound(secret, events, j);
    if Decides(log[i], id) {
      ClosedIn(log[..j], i, id);
    }
  }

  /** Once its task is revoked, a request made before is never decided. */
  lemma RevokedIsNeverDecided(secret: int, events: seq<Event>, i: nat, j: nat, k: nat, id: string)
    requires Legal(secret, events) && i < j < k < |events|
    ensures var log := Execute(secret, events).log;
            log[i].event.CreateEvent? && log[i].result.Created? && log[i].event.id == id
            && log[j].event == RevokeEvent(log[i].event.session.taskId)
            ==> !Decides(log[k], id)
  {
    var log := Execute(secret, events).log;
    if log[i].event.CreateEvent? && log[i].result.Created? && log[i].event.id == id
       && log[j].event == RevokeEvent(log[i].event.session.taskId) {
      StepSound(secret, events, k);
      CreatedStays(secret, events, i, j);
      assert log[..k][..j] == log[..j];
      ClosedIn(log[..k], j, id);
    }
  }

  lemma {:induction false} CreatedStays(secret: int, events: seq<Event>, i: nat, j: nat)
    requires Legal(secret, events) && i < j <= |events|
    requires var log := Execute(secret, events).log;
             log[i].event.CreateEvent? && log[i].result.Created?
    ensures var log := Execute(secret, events).log;
            var e := log[i].event;
            e.id in PastOf(log[..j]).created
            && PastOf(log[..j]).created[e.id] == NewRequest(e.session, e.intent, e.policy, e.interactive, e.now)
    decreases |events|, j
  {
    var log := Execute(secret, events).log;
    var n := |events| - 1;
    var before := Execute(secret, events[..n]);
    if j <= n {
      assert log[..j] == before.log[..j];
      assert log[i] == before.log[i];
      CreatedStays(secret, events[..n], i, j);
    } else {
      assert log[..j] == log && log[..n] == before.log;
      if i < n {
        assert log[i] == before.log[i];
        assert before.log[..n] == before.log;
        CreatedStays(secret, events[..n], i, n);
      }
    }
  }

  /**
   * A capability comes from a request of the same run that was made for the same task and session,
   * is not interactive, allows the choice and has not run out; a task-wide one never from an R4
   * request, a single one never from an R5 request. It is bound to the request's fields.
   */
  lemma ApprovedOnlyAsRequested(secret: int, events: seq<Event>, j: nat)
    requires Legal(secret, events) && j < |events|
    ensures var log := Execute(secret, events).log;
            log[j].result.Approved? ==>
              exists i :: 0 <= i < j && log[i].event.CreateEvent? && log[i].result.Created?
                && log[j].event.ResolveEvent? && log[i].event.id == log[j].event.decision.requestId
                && GoodApproval(secret, log[i].event, log[j])
  {
    var log := Execute(secret, events).log;
    StepSound(secret, events, j);
    if log[j].result.Approved? {
      CreatedAt(log[..j], log[j].event.decision.requestId);
      var i :| 0 <= i < j && log[..j][i].event.CreateEvent? && log[..j][i].event.id == log[j].event.decision.requestId
               && log[..j][i].result.Created?
               && var e := log[..j][i].event;
                  PastOf(log[..j]).created[e.id] == NewRequest(e.session, e.intent, e.policy, e.interactive, e.now);
      assert log[..j][i] == log[i];
      CoversApproval(secret, PastOf(log[..j]), log[i].event, log[j]);
    }
  }

  lemma CoversApproval(secret: int, past: Past, e: Event, step: Step)
    requires StepIsSound(secret, past, step) && step.event.ResolveEvent? && step.result.Approved? && e.CreateEvent?
    requires e.id == step.event.decision.requestId && e.id in past.created
    requires past.created[e.id] == NewRequest(e.session, e.intent, e.policy, e.interactive, e.now)
    ensures GoodApproval(secret, e, step)
  {
  }

  /** The approval `step` is covered by the request that `e` made. */
  predicate GoodApproval(secret: int, e: Event, step: Step)
    requires e.CreateEvent? && step.event.ResolveEvent? && step.result.Approved?
  {
    var choice, d := step.result.choice, step.event;
    && !e.interactive && choice == d.decision.choice
    && (choice == ApproveOnce || choice == ApproveTask)
    && (choice == ApproveOnce ==> e.policy.risk != R5)
    && (choice == ApproveTask ==> e.policy.risk != R4 && e.policy.allowsTaskScope)
    && d.session.taskId == e.session.taskId && d.session.fingerprint == e.session.fingerprint
    && d.decision.digest == e.intent.digest
    && d.now < e.now + APPROVAL_TTL_MS && d.now < e.session.deadline
    && step.result.token.Signed? && step.result.token.secret == secret
    && var claims := step.result.token.claims;
       && claims.binding == Tokens.Binding(e.session.taskId, e.intent.invocationId, e.intent.digest,
                                           e.session.fingerprint, e.policy.version)
       && claims.expiresAt == d.now + Tokens.CAPABILITY_TTL_MS
       && claims.scope == (if choice == ApproveTask then "task_exact_match" else "once")
  }

  /** A grant of a state that remembers its past stems from a decided, non-interactive, non-R4 request. */
  predicate IsApprovedGrant(s: State, key: string)
    requires key in s.grants
  {
    var id := s.grants[key];
    && id in s.requests && s.requests[id].resolved
    && var request := s.requests[id].request;
       && key == GrantKey(request) && ValidId(request.taskId) && !request.interactive
       && request.policy.risk != R4 && request.policy.allowsTaskScope
  }

  lemma GrantIsApproved(s: State, past: Past, key: string)
    requires Remembers(s, past) && key in s.grants
    ensures IsApprovedGrant(s, key)
  {
  }

  /** In every reachable state each grant stems from a task-wide approval of a non-interactive, non-R4 request. */
  lemma GrantsAreApproved(secret: int, events: seq<Event>, key: string)
    requires Legal(secret, events) && key in Execute(secret, events).state.grants
    ensures IsApprovedGrant(Execute(secret, events).state, key)
  {
    RunRemembers(secret, events);
    var r := Execute(secret, events);
    GrantIsApproved(r.state, PastOf(r.log), key);
  }

  /** After revoking a task of a reachable state, none of its grants is left and all others are as before. */
  lemma RevokeIsExact(secret: int, events: seq<Event>, taskId: string, key: string)
    requires Legal(secret, events) && ValidId(taskId) && key in Execute(secret, events).state.grants
    ensures var s := Execute(secret, events).state;
            var after := RevokeTask(s, taskId);
            && s.grants[key] in s.requests
            && (key in after.grants <==> s.requests[s.grants[key]].request.taskId != taskId)
            && (key in after.grants ==> after.grants[key] == s.grants[key])
  {
    GrantsAreApproved(secret, events, key);
    RevokeSparesOthers(Execute(secret, events).state, taskId, key);
  }

  lemma RevokeSparesOthers(s: State, taskId: string, key: string)
    requires ValidId(taskId) && key in s.grants && IsApprovedGrant(s, key)
    ensures var after := RevokeTask(s, taskId);
            && (key in after.grants <==> s.requests[s.grants[key]].request.taskId != taskId)
            && (key in after.grants ==> after.grants[key] == s.grants[key])
  {
    var r := s.requests[s.grants[key]].request;
    ValidHasNoColon(taskId);
    ValidHasNoColon(r.taskId);
    Scopes.RevokedIff(s.grants, taskId, r.taskId, r.intent.digest, r.fingerprint, r.policy.version);
  }

  lemma ValidHasNoColon(id: string)
    requires ValidId(id)
    ensures ':' !in id
  {
  }

  /**
   * In every run a decision gives a capability exactly if its request was made before, was neither
   * decided nor revoked since, is for the same task, session and digest, has time left, offers the
   * choice, and is not interactive. Which choices a request offers is read off its risk.
   */
  lemma ApprovedIff(secret: int, events: seq<Event>, j: nat)
    requires Legal(secret, events) && j < |events| && events[j].ResolveEvent?
    ensures var log := Execute(secret, events).log;
            var past, e := PastOf(log[..j]), events[j];
            && log[j].event == e
            && (log[j].result.Approved? <==>
                  Acceptable(past, e) && Approves(e.decision.choice) && !past.created[e.decision.requestId].interactive)
  {
    StepSound(secret, events, j);
  }

  // ----- Task-wide grants -----

  /** The request is for this very task, digest, session and policy version. */
  predicate IsFor(r: Request, session: Session, intent: Intent, policy: Policy)
  {
    && r.taskId == session.taskId && r.intent.digest == intent.digest
    && r.fingerprint == session.fingerprint && r.policy.version == policy.version
  }

  /** Some active request is for this very action. */
  ghost predicate IsGranted(past: Past, session: Session, intent: Intent, policy: Policy)
  {
    exists id :: id in past.active && id in past.created && IsFor(past.created[id], session, intent, policy)
  }

  lemma SameKeyIff(r: Request, session: Session, intent: Intent, policy: Policy)
    requires IsMade(r) && ValidId(session.taskId) && |intent.digest| == 64 && |session.fingerprint| == 64
    ensures GrantKey(r) == Scopes.Key(session.taskId, intent.digest, session.fingerprint, policy.version)
            <==> IsFor(r, session, intent, policy)
  {
    ValidHasNoColon(r.taskId);
    ValidHasNoColon(session.taskId);
    if GrantKey(r) == Scopes.Key(session.taskId, intent.digest, session.fingerprint, policy.version) {
      Scopes.KeysOfOneShape(r.taskId, r.intent.digest, r.fingerprint, r.policy.version,
                            session.taskId, intent.digest, session.fingerprint, policy.version);
    }
  }

  /**
   * In every reachable state an action counts as granted exactly if a request for this very task,
   * digest, session and policy version was approved task-wide and its grant was not revoked since.
   * (Every task id is a valid id, and digests and fingerprints have 64 characters.)
   */
  lemma HasTaskGrantIff(secret: int, events: seq<Event>, session: Session, intent: Intent, policy: Policy)
    requires Legal(secret, events)
    requires ValidId(session.taskId) && |intent.digest| == 64 && |session.fingerprint| == 64
    ensures var r := Execute(secret, events);
            var past := PastOf(r.log);
            HasTaskGrant(r.state, session, intent, policy) <==> IsGranted(past, session, intent, policy)
  {
    RunRemembers(secret, events);
    GrantedIff(Execute(secret, events).state, PastOf(Execute(secret, events).log), session, intent, policy);
  }

  lemma GrantedIff(s: State, past: Past, session: Session, intent: Intent, policy: Policy)
    requires Remembers(s, past)
    requires ValidId(session.taskId) && |intent.digest| == 64 && |session.fingerprint| == 64
    ensures HasTaskGrant(s, session, intent, policy) <==> IsGranted(past, session, intent, policy)
  {
    var key := Scopes.Key(session.taskId, intent.digest, session.fingerprint, policy.version);
    if key in s.grants {
      SameKeyIff(past.created[s.grants[key]], session, intent, policy);
    }
    if id :| id in past.active && id in past.created && IsFor(past.created[id], session, intent, policy) {
      SameKeyIff(past.created[id], session, intent, policy);
    }
  }

  /** The step approved the request task-wide. */
  predicate ApprovesTaskWide(step: Step, id: string)
  {
    step.event.ResolveEvent? && step.event.decision.requestId == id && step.result.Approved? && step.result.choice == ApproveTask
  }

  /** The step revoked a task whose id reaches the request's grant. */
  predicate RevokesGrant(step: Step, r: Request)
  {
    step.event.RevokeEvent? && Reaches(step.event.taskId, r)
  }

  lemma PastOfNext(log: seq<Step>, i: nat)
    requires i < |log|
    ensures PastOf(log[..i + 1]) == After(PastOf(log[..i]), log[i])
  {
    assert log[..i + 1][..i] == log[..i];
  }

  lemma IdIsFresh(secret: int, events: seq<Event>, j: nat)
    requires Legal(secret, events) && j < |events|
    ensures var log := Execute(secret, events).log;
            log[j].event.CreateEvent? ==> log[j].event.id !in PastOf(log[..j]).created
  {
    StepSound(secret, events, j);
  }

  /** A request that was made stays as it was made. */
  lemma {:induction false} MadeLasts(secret: int, events: seq<Event>, i: nat, j: nat, id: string)
    requires Legal(secret, events) && i <= j <= |events|
    requires id in PastOf(Execute(secret, events).log[..i]).created
    ensures var log := Execute(secret, events).log;
            && id in PastOf(log[..j]).created
            && PastOf(log[..j]).created[id] == PastOf(log[..i]).created[id]
    decreases j
  {
    if i < j {
      MadeLasts(secret, events, i, j - 1, id);
      IdIsFresh(secret, events, j - 1);
      var log := Execute(secret, events).log;
      PastOfNext(log, j - 1);
      MadeStays(PastOf(log[..j - 1]), log[j - 1], id);
    }
  }

  lemma MadeStays(past: Past, step: Step, id: string)
    requires id in past.created && (step.event.CreateEvent? ==> step.event.id != id)
    ensures id in After(past, step).created && After(past, step).created[id] == past.created[id]
  {
  }

  /** Step `i` approved the request task-wide, and no step after it, up to `j`, revoked its grant. */
  ghost predicate ApprovedAt(log: seq<Step>, j: nat, i: nat, id: string, r: Request)
    requires j <= |log|
  {
    i < j && ApprovesTaskWide(log[i], id) && forall k :: i < k < j ==> !RevokesGrant(log[k], r)
  }

  lemma ApprovedWasMade(secret: int, events: seq<Event>, i: nat, j: nat, id: string)
    requires Legal(secret, events) && i < j <= |events| && ApprovesTaskWide(Execute(secret, events).log[i], id)
    ensures id in PastOf(Execute(secret, events).log[..i]).created
    ensures id in PastOf(Execute(secret, events).log[..j]).created
  {
    StepSound(secret, events, i);
    MadeLasts(secret, events, i, j, id);
  }

  /** One step's effect on an active request that was made before. */
  lemma ActiveStep(past: Past, step: Step, id: string)
    requires id in past.created
    requires step.event.CreateEvent? ==> step.event.id != id
    ensures id in After(past, step).active <==>
              ApprovesTaskWide(step, id) || (id in past.active && !RevokesGrant(step, past.created[id]))
  {
  }

  /** A request is active exactly if some step approved it task-wide and no later one revoked its grant. */
  lemma {:induction false} ActiveIff(secret: int, events: seq<Event>, j: nat, id: string)
    requires Legal(secret, events) && j <= |events| && id in PastOf(Execute(secret, events).log[..j]).created
    ensures var log := Execute(secret, events).log;
            var past := PastOf(log[..j]);
            id in past.active <==> exists i :: ApprovedAt(log, j, i, id, past.created[id])
    decreases j
  {
    var log := Execute(secret, events).log;
    if j > 0 {
      var n := j - 1;
      StepSound(secret, events, n);
      PastOfNext(log, n);
      if id in PastOf(log[..n]).created {
        MadeLasts(secret, events, n, j, id);
        ActiveIff(secret, events, n, id);
        ActiveStep(PastOf(log[..n]), log[n], id);
        ApprovedAtNext(log, n, j, id, PastOf(log[..n]).created[id]);
      } else {
        forall i: nat
          ensures !ApprovedAt(log, j, i, id, PastOf(log[..j]).created[id])
        {
          if ApprovedAt(log, j, i, id, PastOf(log[..j]).created[id]) {
            ApprovedWasMade(secret, events, i, i + 1, id);
            MadeLasts(secret, events, i, n, id);
          }
        }
      }
    }
  }

  lemma ApprovedAtNext(log: seq<Step>, n: nat, j: nat, id: string, r: Request)
    requires j == n + 1 <= |log|
    ensures (exists i :: ApprovedAt(log, j, i, id, r)) <==>
              ApprovesTaskWide(log[n], id) || ((exists i :: ApprovedAt(log, n, i, id, r)) && !RevokesGrant(log[n], r))
  {
    if ApprovesTaskWide(log[n], id) {
      assert ApprovedAt(log, j, n, id, r);
    }
    if i: nat :| ApprovedAt(log, n, i, id, r) {
      if !RevokesGrant(log[n], r) {
        assert ApprovedAt(log, j, i, id, r);
      }
    }
    if i: nat :| ApprovedAt(log, j, i, id, r) {
      if i < n {
        assert ApprovedAt(log, n, i, id, r);
      }
    }
  }

  // ----- What becomes of a capability -----

  /**
   * The step withdraws the token with these claims from local use: its task is revoked, at the
   * approval manager or at the token manager, it is used up, or it is found to have run out.
   */
  predicate Withdraws(step: Step, claims: Tokens.Claims)
  {
    match step.event
    case RevokeEvent(taskId) => taskId == claims.binding.taskId
    case TokenEvent(RevokeEvent(taskId)) => taskId == claims.binding.taskId
    case TokenEvent(VerifyEvent(token, _, external, consume, _)) =>
      && token.Signed? && token.claims.tokenId == claims.tokenId && step.result.TokenAnswer?
      && (step.result.verdict == Tokens.Err(Tokens.Expired) || (step.result.verdict.Ok? && consume && !external))
    case _ => false
  }

  /** The token manager has the token, if at all, with these claims, and can let it pass exactly if it is not withdrawn. */
  predicate Keeps(s: Tokens.State, claims: Tokens.Claims, open: bool)
  {
    var id := claims.tokenId;
    && (id in s.issued ==> s.issued[id].claims == claims)
    && (id in s.issued && !s.issued[id].consumed <==> open)
  }

  lemma TokenStep(secret: int, s: Tokens.State, e: Tokens.Event, claims: Tokens.Claims, open: bool)
    requires Keeps(s, claims, open) && (e.IssueEvent? ==> e.tokenId != claims.tokenId)
    ensures var (after, step) := Tokens.Next(secret, s, e);
            Keeps(after, claims, open && !Withdraws(Step(TokenEvent(e), TokenAnswer(step.verdict)), claims))
  {
  }

  lemma CapabilityStep(secret: int, s: State, e: Event, claims: Tokens.Claims, open: bool)
    requires Keeps(s.tokens, claims, open) && !Draws(e, claims.tokenId)
    ensures var (after, step) := Next(secret, s, e);
            Keeps(after.tokens, claims, open && !Withdraws(step, claims))
  {
    if e.TokenEvent? {
      TokenStep(secret, s.tokens, e.event, claims, open);
    }
  }

  /** No step after `i`, up to `k`, withdraws the token. */
  ghost predicate NotWithdrawn(log: seq<Step>, i: nat, k: nat, claims: Tokens.Claims)
    requires k <= |log|
  {
    forall j :: i < j < k ==> !Withdraws(log[j], claims)
  }

  lemma {:induction false} LogAt(secret: int, events: seq<Event>, k: nat)
    requires k <= |events|
    ensures Execute(secret, events[..k]).log == Execute(secret, events).log[..k]
    decreases |events|
  {
    var n := |events| - 1;
    if k <= n {
      LogAt(secret, events[..n], k);
      assert events[..n][..k] == events[..k];
    } else {
      assert events[..k] == events;
    }
  }

  /** The step at `n` leads from the state before it to the state after it. */
  lemma StepAt(secret: int, events: seq<Event>, n: nat)
    requires n < |events|
    ensures var (after, step) := Next(secret, Execute(secret, events[..n]).state, events[n]);
            Execute(secret, events[..n + 1]).state == after && Execute(secret, events).log[n] == step
  {
    assert events[..n + 1][..n] == events[..n];
    LogAt(secret, events, n + 1);
    assert Execute(secret, events[..n + 1]).log[n] == Execute(secret, events).log[n];
  }

  lemma {:induction false} DrawnOnce(secret: int, events: seq<Event>, i: nat, j: nat, id: string)
    requires Legal(secret, events) && i < j < |events| && Draws(events[i], id)
    ensures !Draws(events[j], id)
    decreases |events|
  {
    var n := |events| - 1;
    if j < n {
      DrawnOnce(secret, events[..n], i, j, id);
    } else {
      assert events[..n][i] == events[i];
    }
  }

  lemma ApprovalKeeps(secret: int, s: State, e: Event)
    ensures var (after, step) := Next(secret, s, e);
            step.result.Approved? ==>
              && e.ResolveEvent? && step.result.token.Signed?
              && step.result.token.claims.tokenId == e.tokenId
              && Keeps(after.tokens, step.result.token.claims, true)
  {
  }

  /** Right after the approval, the token manager has the token. */
  lemma CapabilityKeptAtFirst(secret: int, events: seq<Event>, i: nat)
    requires i < |events| && Execute(secret, events).log[i].result.Approved?
    ensures var token := Execute(secret, events).log[i].result.token;
            && token.Signed? && events[i].ResolveEvent? && events[i].tokenId == token.claims.tokenId
            && Keeps(Execute(secret, events[..i + 1]).state.tokens, token.claims, true)
  {
    StepAt(secret, events, i);
    ApprovalKeeps(secret, Execute(secret, events[..i]).state, events[i]);
  }

  lemma {:induction false} CapabilityKept(secret: int, events: seq<Event>, i: nat, k: nat, claims: Tokens.Claims)
    requires Legal(secret, events) && i < k <= |events| && Draws(events[i], claims.tokenId)
    requires Keeps(Execute(secret, events[..i + 1]).state.tokens, claims, true)
    ensures Keeps(Execute(secret, events[..k]).state.tokens, claims, NotWithdrawn(Execute(secret, events).log, i, k, claims))
    decreases k
  {
    var n := k - 1;
    if i < n {
      CapabilityKept(secret, events, i, n, claims);
      DrawnOnce(secret, events, i, n, claims.tokenId);
      StepAt(secret, events, n);
      CapabilityStep(secret, Execute(secret, events[..n]).state, events[n], claims,
                     NotWithdrawn(Execute(secret, events).log, i, n, claims));
    }
  }

  /**
   * In every run, whatever is done with approvals and tokens in between: the capability of an
   * approval passes local verification exactly if it is not overlong, 60 seconds have not gone by
   * since the approval, it is for the request's own five fields, and no step since has revoked its
   * task, used it up or found it expired.
   */
  lemma CapabilityPassesIff(secret: int, events: seq<Event>, i: nat, k: nat, expected: Tokens.Binding, consume: bool, now: int)
    requires Legal(secret, events) && i < k <= |events| && Execute(secret, events).log[i].result.Approved?
    ensures var log := Execute(secret, events).log;
            var token, past := log[i].result.token, PastOf(log[..i]);
            && events[i].ResolveEvent? && events[i].decision.requestId in past.created && token.Signed?
            && var r := past.created[events[i].decision.requestId];
               Tokens.Verify(secret, Execute(secret, events[..k]).state.tokens, token, expected, consume, now).1.Ok?
               <==> && events[i].length <= Tokens.MAX_TOKEN_LENGTH && now < events[i].now + 60 * 1000
                    && expected == Tokens.Binding(r.taskId, r.intent.invocationId, r.intent.digest, r.fingerprint, r.policy.version)
                    && NotWithdrawn(log, i, k, token.claims)
  {
    CapabilityKeptAtFirst(secret, events, i);
    CapabilityKept(secret, events, i, k, Execute(secret, events).log[i].result.token.claims);
    StepSound(secret, events, i);
  }

  /** So once its task is revoked at the approval manager, a capability never passes local verification again. */
  lemma RevokedCapabilityNeverPasses(secret: int, events: seq<Event>, i: nat, j: nat, k: nat,
                                     expected: Tokens.Binding, consume: bool, now: int)
    requires Legal(secret, events) && i < j < k <= |events| && Execute(secret, events).log[i].result.Approved?
    ensures events[i].ResolveEvent?
    ensures events[j] == RevokeEvent(events[i].session.taskId) ==>
              Tokens.Verify(secret, Execute(secret, events[..k]).state.tokens, Execute(secret, events).log[i].result.token,
                            expected, consume, now).1.Err?
  {
    CapabilityPassesIff(secret, events, i, k, expected, consume, now);
    StepSound(secret, events, i);
    StepSound(secret, events, j);
  }

  /** A request can be decided until ten minutes have gone by since it was made, or its session's deadline has come. */
  lemma TimeLeftIff(session: Session, intent: Intent, policy: Policy, interactive: bool, made: int, now: int)
    ensures now < NewRequest(session, intent, policy, interactive, made).expiresAt
            <==> now < made + 10 * 60 * 1000 && now < session.deadline
  {
  }

  // ----- What the risk levels allow -----

  /** A request offers task-wide approval exactly if it is not interactive, its policy lists that scope and it is not R4. */
  lemma TaskScopeIff(interactive: bool, policy: Policy)
    ensures ApproveTask in AllowedChoices(interactive, policy)
            <==> !interactive && policy.allowsTaskScope && policy.risk != R4
    ensures ApproveOnce in AllowedChoices(interactive, policy) <==> policy.risk != R5
    ensures Reject in AllowedChoices(interactive, policy) && CancelTask in AllowedChoices(interactive, policy)
  {
  }

  lemma LegalFirst(secret: int, e: Event)
    ensures Legal(secret, [e])
  {
    var events := [e];
    assert events[..|events| - 1] == [];
    assert Legal(secret, []) && PastOf(Execute(secret, []).log).created == map[];
  }

  /** So a policy that listed the task-wide scope for an R5 action would get it approved. */
  lemma R5TaskApproval(secret: int, session: Session, intent: Intent, policy: Policy, now: int, length: nat)
    requires SchemaAccepts(session, intent, policy) && policy.risk == R5 && policy.allowsTaskScope
    requires now < session.deadline
    ensures var events := [CreateEvent("approval", session, intent, policy, false, now),
                           ResolveEvent(session, Decision("approval", intent.digest, ApproveTask), "cap", now, length)];
            Legal(secret, events) && Execute(secret, events).log[1].result.Approved?
  {
    var e0, e1 := CreateEvent("approval", session, intent, policy, false, now),
                  ResolveEvent(session, Decision("approval", intent.digest, ApproveTask), "cap", now, length);
    assert [e0][..0] == [] && [e0, e1][..1] == [e0];
    TaskScopeIff(false, policy);
    LegalFirst(secret, e0);
  }
}
