/**
 * The at-most-once ledger of `ExecutionRuntime.execute`. A call runs without
 * interruption up to the executor and again from the moment the executor
 * settles; between those two points any other calls may come. Results are opaque.
 */
module ExecutionLedger {
  import opened Options

  datatype Entry<R> = Entry(intentDigest: string, result: Option<R>)

  /** A call that waits for its executor. */
  datatype Pending = Pending(invocationId: string, mutates: bool, attempts: nat)

  datatype State<R> = State(ledger: map<string, Entry<R>>, pending: map<nat, Pending>)

  datatype Error = InvocationMismatch | InProgress | SetupFailed | ResultInvalid

  datatype Output<R> =
    | Started(invocationId: string, attempt: nat)  // the executor is called
    | Returned(result: R)
    | Threw(error: Error)
    | Nothing                                      // no call waits for such an executor

  /** How an executor settles; a failure says whether it came before anything was started. */
  datatype Settlement = Completed | FailedBeforeStart | FailedLater

  datatype Event<R> =
    /** `execute` is called; `setup` tells whether preparing the evidence writer succeeds. */
    | Begin(call: nat, invocationId: string, intentDigest: string, mutates: bool, setup: bool)
    /** The executor of a call settles; `result` is what the call makes of it, `None` if the result schema rejects it. */
    | Settle(call: nat, settlement: Settlement, aborted: bool, result: Option<R>)

  predicate Retries(p: Pending, settlement: Settlement, aborted: bool)
  {
    !p.mutates && p.attempts == 1 && settlement == FailedBeforeStart && !aborted
  }

  function BeginCall<R>(s: State<R>, call: nat, id: string, digest: string, mutates: bool, setup: bool)
    : (State<R>, Output<R>)
  {
    if id in s.ledger then
      var previous := s.ledger[id];
      if previous.intentDigest != digest then (s, Threw(InvocationMismatch))
      else if previous.result.Some? then (s, Returned(previous.result.value))
      else (s, Threw(InProgress))
    else
      var entered := s.(ledger := s.ledger[id := Entry(digest, None)]);
      if !setup then (entered, Threw(SetupFailed))
      else (entered.(pending := s.pending[call := Pending(id, mutates, 1)]), Started(id, 1))
  }

  function SettleCall<R>(s: State<R>, call: nat, settlement: Settlement, aborted: bool, result: Option<R>)
    : (State<R>, Output<R>)
    requires call in s.pending && s.pending[call].invocationId in s.ledger
  {
    var p := s.pending[call];
    if Retries(p, settlement, aborted)
    then (s.(pending := s.pending[call := p.(attempts := 2)]), Started(p.invocationId, 2))
    else
      var finished := s.(pending := s.pending - {call});
      match result
      case None => (finished, Threw(ResultInvalid))
      case Some(r) =>
        (finished.(ledger := s.ledger[p.invocationId := s.ledger[p.invocationId].(result := Some(r))]), Returned(r))
  }

  class ExecutionRuntime<R> {
    var ledger: map<string, Entry<R>>
    var pending: map<nat, Pending>

    ghost function Contents(): State<R>
      reads this
    {
      State(ledger, pending)
    }

    constructor ()
      ensures Contents() == State(map[], map[])
    {
      ledger, pending := map[], map[];
    }

    /** `execute` up to its first await. */
    method Execute(call: nat, invocationId: string, intentDigest: string, mutates: bool, setup: bool)
      returns (output: Output<R>)
      modifies this
      ensures (Contents(), output) == BeginCall(old(Contents()), call, invocationId, intentDigest, mutates, setup)
    {
      if invocationId in ledger {
        var previous := ledger[invocationId];
        if previous.intentDigest != intentDigest {
          return Threw(InvocationMismatch);
        }
        if previous.result.Some? {
          return Returned(previous.result.value);
        }
        return Threw(InProgress);
      }
      ledger := ledger[invocationId := Entry(intentDigest, None)];
      if !setup {
        return Threw(SetupFailed);
      }
      pending := pending[call := Pending(invocationId, mutates, 1)];
      return Started(invocationId, 1);
    }

    /** The rest of `execute`, when the executor settles. */
    method Resume(call: nat, settlement: Settlement, aborted: bool, result: Option<R>) returns (output: Output<R>)
      requires call in pending && pending[call].invocationId in ledger
      modifies this
      ensures (Contents(), output) == SettleCall(old(Contents()), call, settlement, aborted, result)
    {
      var p := pending[call];
      var mayRetryUnstartedRead := !p.mutates && p.attempts == 1 && settlement == FailedBeforeStart && !aborted;
      if mayRetryUnstartedRead {
        pending := pending[call := p.(attempts := 2)];
        return Started(p.invocationId, 2);
      }
      pending := pending - {call};
      match result {
        case None => return Threw(ResultInvalid);
        case Some(r) =>
          ledger := ledger[p.invocationId := ledger[p.invocationId].(result := Some(r))];
          return Returned(r);
      }
    }
  }

  // ----- All interleavings -----

  /** A step names the invocation it is about. */
  datatype Step<R> = Step(event: Event<R>, invocationId: string, output: Output<R>)
  datatype Run<R> = Run(state: State<R>, log: seq<Step<R>>)

  /** An executor settles only for a call that waits for it. */
  predicate Enabled<R>(s: State<R>, e: Event<R>)
  {
    e.Settle? ==> e.call in s.pending && s.pending[e.call].invocationId in s.ledger
  }

  function Next<R>(s: State<R>, e: Event<R>): (State<R>, Step<R>)
  {
    match e
    case Begin(call, id, digest, mutates, setup) =>
      var (state, output) := BeginCall(s, call, id, digest, mutates, setup);
      (state, Step(e, id, output))
    case Settle(call, settlement, aborted, result) =>
      if !Enabled(s, e) then (s, Step(e, "", Nothing))
      else
        var (state, output) := SettleCall(s, call, settlement, aborted, result);
        (state, Step(e, s.pending[call].invocationId, output))
  }

  function Execute<R>(events: seq<Event<R>>): (r: Run<R>)
    ensures |r.log| == |events|
    decreases |events|
  {
    if events == [] then Run(State(map[], map[]), [])
    else
      var before := Execute(events[..|events| - 1]);
      var (state, step) := Next(before.state, events[|events| - 1]);
      Run(state, before.log + [step])
  }

  /** Who started an invocation, with what, how often, whether its executor is under way, and the result if there is one. */
  datatype History<R> = History(
    call: nat, intentDigest: string, mutates: bool, starts: nat, waiting: bool, stored: Option<R>)
  datatype Past<R> = Past(calls: set<nat>, histories: map<string, History<R>>)

  function Grown<R>(h: History<R>, output: Output<R>): History<R>
  {
    if output.Started? then h.(starts := h.starts + 1, waiting := true)
    else if output.Returned? then h.(waiting := false, stored := Some(output.result))
    else h.(waiting := false)
  }

  ghost function After<R>(past: Past<R>, step: Step<R>): Past<R>
  {
    var id := step.invocationId;
    match step.event
    case Begin(call, _, digest, mutates, _) =>
      Past(past.calls + {call},
           if id in past.histories then past.histories
           else past.histories[id := Grown(History(call, digest, mutates, 0, false, None), step.output)])
    case Settle(call, _, _, _) =>
      if id !in past.histories then past
      else past.(histories := past.histories[id := Grown(past.histories[id], step.output)])
  }

  ghost function PastOf<R>(log: seq<Step<R>>): Past<R>
  {
    if log == [] then Past({}, map[]) else After(PastOf(log[..|log| - 1]), log[|log| - 1])
  }

  /** Calls are numbered afresh, and executors settle when they are waited for. */
  ghost predicate Legal<R>(events: seq<Event<R>>)
    decreases |events|
  {
    events != [] ==>
      var earlier, e := events[..|events| - 1], events[|events| - 1];
      && Legal(earlier)
      && Enabled(Execute(earlier).state, e)
      && (e.Begin? ==> e.call !in PastOf(Execute(earlier).log).calls)
  }

  /** What a call gives, read off the past of its invocation. */
  function CallAnswer<R>(histories: map<string, History<R>>, id: string, digest: string, setup: bool): Output<R>
  {
    if id !in histories then (if setup then Started(id, 1) else Threw(SetupFailed))
    else if digest != histories[id].intentDigest then Threw(InvocationMismatch)
    else if histories[id].stored.Some? then Returned(histories[id].stored.value)
    else Threw(InProgress)
  }

  /** What an executor's settling gives, read off the past of its invocation. */
  function SettleAnswer<R>(h: History<R>, id: string, settlement: Settlement, aborted: bool, result: Option<R>): Output<R>
  {
    if !h.mutates && h.starts == 1 && settlement == FailedBeforeStart && !aborted then Started(id, 2)
    else if result.Some? then Returned(result.value)
    else Threw(ResultInvalid)
  }

  /** Exactly what a step is, given the past. */
  ghost predicate StepIsSound<R>(past: Past<R>, step: Step<R>)
  {
    var id := step.invocationId;
    match step.event
    case Begin(_, invocationId, digest, _, setup) =>
      invocationId == id && step.output == CallAnswer(past.histories, id, digest, setup)
    case Settle(call, settlement, aborted, result) =>
      && id in past.histories
      && var h := past.histories[id];
         && h.call == call && h.waiting && h.starts >= 1 && h.stored.None?
         && step.output == SettleAnswer(h, id, settlement, aborted, result)
  }

  /** What the state remembers of one invocation. */
  ghost predicate RemembersOne<R>(s: State<R>, h: History<R>, id: string)
  {
    && id in s.ledger && s.ledger[id] == Entry(h.intentDigest, h.stored)
    && (h.waiting <==> h.call in s.pending && s.pending[h.call].invocationId == id)
    && (h.waiting ==> s.pending[h.call] == Pending(id, h.mutates, h.starts) && h.starts >= 1 && h.stored.None?)
  }

  /** What the state remembers of the past. */
  ghost predicate Remembers<R>(s: State<R>, past: Past<R>)
  {
    && s.ledger.Keys == past.histories.Keys
    && (forall id :: id in past.histories ==> RemembersOne(s, past.histories[id], id))
    && (forall id :: id in past.histories ==> past.histories[id].call in past.calls)
    && (forall call :: call in s.pending ==>
          var id := s.pending[call].invocationId;
          id in past.histories && past.histories[id].call == call)
  }

  lemma BeginIsSound<R>(s: State<R>, past: Past<R>, e: Event<R>)
    requires e.Begin? && Remembers(s, past) && e.call !in past.calls
    ensures var (state, step) := Next(s, e);
            StepIsSound(past, step) && Remembers(state, After(past, step))
  {
    var (state, step) := Next(s, e);
    var later := After(past, step);
    if e.invocationId in past.histories {
      assert RemembersOne(s, past.histories[e.invocationId], e.invocationId);
      assert later.histories == past.histories && state == s;
    } else {
      forall id | id in later.histories
        ensures RemembersOne(state, later.histories[id], id)
      {
        if id != e.invocationId {
          assert RemembersOne(s, past.histories[id], id);
        }
      }
    }
  }

  lemma SettleIsSound<R>(s: State<R>, past: Past<R>, e: Event<R>)
    requires e.Settle? && Remembers(s, past) && Enabled(s, e)
    ensures var (state, step) := Next(s, e);
            StepIsSound(past, step) && Remembers(state, After(past, step))
  {
    var own := s.pending[e.call].invocationId;
    assert RemembersOne(s, past.histories[own], own);
    var (state, step) := Next(s, e);
    var later := After(past, step);
    forall id | id in later.histories
      ensures RemembersOne(state, later.histories[id], id)
    {
      assert RemembersOne(s, past.histories[id], id);
    }
  }

  lemma {:induction false} RunRemembers<R>(events: seq<Event<R>>)
    requires Legal(events)
    ensures var r := Execute(events);
            Remembers(r.state, PastOf(r.log))
    decreases |events|
  {
    if events != [] {
      LastIsSound(events);
    }
  }

  lemma LastIsSound<R>(events: seq<Event<R>>)
    requires Legal(events) && events != []
    ensures var r := Execute(events);
            && Remembers(r.state, PastOf(r.log))
            && StepIsSound(PastOf(r.log[..|events| - 1]), r.log[|events| - 1])
    decreases |events|, 0
  {
    var n := |events| - 1;
    var before, log := Execute(events[..n]), Execute(events).log;
    RunRemembers(events[..n]);
    if events[n].Begin? {
      BeginIsSound(before.state, PastOf(before.log), events[n]);
    } else {
      SettleIsSound(before.state, PastOf(before.log), events[n]);
    }
    assert log[..n] == before.log;
  }

  /** Every step of every interleaving is exactly the one that the steps before it determine. */
  lemma {:induction false} StepSound<R>(events: seq<Event<R>>, j: nat)
    requires Legal(events) && j < |events|
    ensures var log := Execute(events).log;
            StepIsSound(PastOf(log[..j]), log[j])
    decreases |events|
  {
    var n := |events| - 1;
    if j == n {
      LastIsSound(events);
    } else {
      var before, log := Execute(events[..n]), Execute(events).log;
      StepSound(events[..n], j);
      assert log[..j] == before.log[..j] && log[j] == before.log[j];
    }
  }

  // ----- Reading the log -----

  predicate Starts<R>(step: Step<R>, id: string)
  {
    step.output.Started? && step.invocationId == id
  }

  /** The step stored a result for the invocation. */
  predicate Stores<R>(step: Step<R>, id: string)
  {
    step.event.Settle? && step.output.Returned? && step.invocationId == id
  }

  /** The step is the first call of its invocation. */
  predicate IsFirstCall<R>(step: Step<R>)
  {
    step.event.Begin? && (step.output.Started? || step.output == Threw(SetupFailed))
  }

  /** Histories of a log prefix and a longer one agree on who and what; a result stays, and so does the lack of a chance to get one. */
  ghost predicate Extends<R>(a: Past<R>, b: Past<R>, id: string)
  {
    id in a.histories ==>
      && id in b.histories
      && var x, y := a.histories[id], b.histories[id];
         && x.call == y.call && x.intentDigest == y.intentDigest && x.mutates == y.mutates && x.starts <= y.starts
         && (x.stored.Some? ==> y.stored == x.stored)
         && (!x.waiting ==> y == x)
  }

  lemma StepExtends<R>(past: Past<R>, step: Step<R>, id: string)
    requires StepIsSound(past, step)
    ensures Extends(past, After(past, step), id)
  {
  }

  lemma ExtendsFurther<R>(a: Past<R>, b: Past<R>, c: Past<R>, id: string)
    requires Extends(a, b, id) && Extends(b, c, id)
    ensures Extends(a, c, id)
  {
  }

  lemma PastOfNext<R>(log: seq<Step<R>>, i: nat)
    requires i < |log|
    ensures PastOf(log[..i + 1]) == After(PastOf(log[..i]), log[i])
  {
    assert log[..i + 1][..i] == log[..i];
  }

  lemma {:induction false} HistoryGrows<R>(events: seq<Event<R>>, id: string, i: nat, j: nat)
    requires Legal(events) && i <= j <= |events|
    ensures var log := Execute(events).log;
            Extends(PastOf(log[..i]), PastOf(log[..j]), id)
    decreases j
  {
    if i < j {
      var log := Execute(events).log;
      HistoryGrows(events, id, i, j - 1);
      StepSound(events, j - 1);
      StepExtends(PastOf(log[..j - 1]), log[j - 1], id);
      PastOfNext(log, j - 1);
      ExtendsFurther(PastOf(log[..i]), PastOf(log[..j - 1]), PastOf(log[..j]), id);
    }
  }

  /** What is known of an invocation after its executor was started. */
  lemma StartIsKnown<R>(events: seq<Event<R>>, i: nat, j: nat, id: string)
    requires Legal(events) && i < j <= |events| && Starts(Execute(events).log[i], id)
    ensures var log := Execute(events).log;
            && id in PastOf(log[..j]).histories
            && var h := PastOf(log[..j]).histories[id];
               if log[i].event.Begin? then h.call == log[i].event.call && h.mutates == log[i].event.mutates && h.starts >= 1
               else h.starts >= 2
  {
    var log := Execute(events).log;
    StepSound(events, i);
    PastOfNext(log, i);
    HistoryGrows(events, id, i + 1, j);
  }

  /** An executor starts for one call only: a second start is that call's retry of a read that never began. */
  lemma StartedByOneCall<R>(events: seq<Event<R>>, i: nat, j: nat, id: string)
    requires Legal(events) && i < j < |events|
    ensures var log := Execute(events).log;
            Starts(log[i], id) && Starts(log[j], id) ==>
              && log[i].event.Begin? && log[j].event.Settle?
              && log[i].event.call == log[j].event.call
              && !log[i].event.mutates
              && log[j].event.settlement == FailedBeforeStart && !log[j].event.aborted
  {
    var log := Execute(events).log;
    if Starts(log[i], id) && Starts(log[j], id) {
      StartIsKnown(events, i, j, id);
      StepSound(events, j);
    }
  }

  /** So a mutating executor runs at most once ... */
  lemma MutatingStartsOnce<R>(events: seq<Event<R>>, i: nat, j: nat, id: string)
    requires Legal(events) && i < j < |events|
    ensures var log := Execute(events).log;
            log[i].event.Begin? && log[i].event.mutates && Starts(log[i], id) ==> !Starts(log[j], id)
  {
    StartedByOneCall(events, i, j, id);
  }

  /** ... and any executor at most twice. */
  lemma StartsAtMostTwice<R>(events: seq<Event<R>>, i: nat, j: nat, k: nat, id: string)
    requires Legal(events) && i < j < k < |events|
    ensures var log := Execute(events).log;
            !(Starts(log[i], id) && Starts(log[j], id) && Starts(log[k], id))
  {
    StartedByOneCall(events, i, j, id);
    StartedByOneCall(events, j, k, id);
  }

  // ----- What later calls get -----

  lemma FirstCallIsKnown<R>(events: seq<Event<R>>, i: nat, j: nat)
    requires Legal(events) && i < j <= |events| && IsFirstCall(Execute(events).log[i])
    ensures var log := Execute(events).log;
            var id, histories := log[i].invocationId, PastOf(log[..j]).histories;
            && id == log[i].event.invocationId && id in histories
            && histories[id].intentDigest == log[i].event.intentDigest
            && (log[i].output == Threw(SetupFailed) ==>
                  !histories[id].waiting && histories[id].stored.None? && histories[id].starts == 0)
  {
    var log := Execute(events).log;
    StepSound(events, i);
    PastOfNext(log, i);
    HistoryGrows(events, log[i].invocationId, i + 1, j);
  }

  /** A result is remembered exactly if a step stored it. */
  lemma {:induction false} StoredIff<R>(events: seq<Event<R>>, id: string, j: nat, result: R)
    requires Legal(events) && j <= |events|
    ensures var log := Execute(events).log;
            var histories := PastOf(log[..j]).histories;
            id in histories && histories[id].stored == Some(result)
            <==> exists k :: 0 <= k < j && Stores(log[k], id) && log[k].output == Returned(result)
    decreases j
  {
    var log := Execute(events).log;
    if j > 0 {
      var n := j - 1;
      StoredIff(events, id, n, result);
      StepSound(events, n);
      PastOfNext(log, n);
      HistoryGrows(events, id, n, j);
      if k :| 0 <= k < n && Stores(log[k], id) && log[k].output == Returned(result) {
        assert PastOf(log[..j]).histories[id].stored == Some(result);
      }
      if Stores(log[n], id) && log[n].output == Returned(result) {
        assert PastOf(log[..j]).histories[id].stored == Some(result);
      }
    }
  }

  /**
   * After the first call of an invocation no later call starts anything. With
   * another digest it fails; with the same one it returns exactly the result
   * that was stored in between, and is told to wait as long as there is none.
   */
  lemma LaterCallsReplay<R>(events: seq<Event<R>>, i: nat, j: nat, result: R)
    requires Legal(events) && i < j < |events|
    ensures var log := Execute(events).log;
            var first, later := log[i], log[j];
            IsFirstCall(first) && later.event.Begin? && later.event.invocationId == first.event.invocationId ==>
              if later.event.intentDigest != first.event.intentDigest then later.output == Threw(InvocationMismatch)
              else
                && (later.output == Threw(InProgress) || later.output.Returned?)
                && (later.output == Returned(result) <==>
                    exists k :: 0 <= k < j && Stores(log[k], first.invocationId) && log[k].output == Returned(result))
  {
    var log := Execute(events).log;
    if IsFirstCall(log[i]) && log[j].event.Begin? && log[j].event.invocationId == log[i].event.invocationId {
      FirstCallIsKnown(events, i, j);
      StepSound(events, j);
      StoredIff(events, log[i].invocationId, j, result);
    }
  }

  /** Once a result is stored, every later call with the same digest returns that result. */
  lemma StoredResultIsReplayed<R>(events: seq<Event<R>>, i: nat, j: nat, id: string)
    requires Legal(events) && i < j < |events|
    ensures var log := Execute(events).log;
            Stores(log[i], id) && log[j].event.Begin? && log[j].event.invocationId == id ==>
              log[j].output == log[i].output || log[j].output == Threw(InvocationMismatch)
  {
    var log := Execute(events).log;
    StepSound(events, i);
    StepSound(events, j);
    PastOfNext(log, i);
    HistoryGrows(events, id, i + 1, j);
  }

  lemma NoMoreStarts<R>(past: Past<R>, step: Step<R>, id: string)
    requires StepIsSound(past, step) && id in past.histories && !past.histories[id].waiting
    ensures !Starts(step, id)
  {
  }

  lemma FirstIsUnknown<R>(past: Past<R>, step: Step<R>)
    requires StepIsSound(past, step) && IsFirstCall(step)
    ensures step.invocationId !in past.histories
  {
  }

  lemma NotStarted<R>(events: seq<Event<R>>, i: nat, k: nat)
    requires Legal(events) && i < |events| && k < |events|
    requires IsFirstCall(Execute(events).log[i]) && Execute(events).log[i].output == Threw(SetupFailed)
    ensures !Starts(Execute(events).log[k], Execute(events).log[i].invocationId)
  {
    var log := Execute(events).log;
    if k > i {
      FirstCallIsKnown(events, i, k);
      StepSound(events, k);
      NoMoreStarts(PastOf(log[..k]), log[k], log[i].invocationId);
    } else if k < i && Starts(log[k], log[i].invocationId) {
      StartIsKnown(events, k, i, log[i].invocationId);
      StepSound(events, i);
      FirstIsUnknown(PastOf(log[..i]), log[i]);
    }
  }

  /**
   * The executor of an invocation is never started in a run exactly if
   * setting up its first call failed.
   */
  lemma NeverStartsIff<R>(events: seq<Event<R>>, i: nat)
    requires Legal(events) && i < |events| && IsFirstCall(Execute(events).log[i])
    ensures var log := Execute(events).log;
            log[i].output == Threw(SetupFailed) <==> forall k :: 0 <= k < |events| ==> !Starts(log[k], log[i].invocationId)
  {
    var log := Execute(events).log;
    var id := log[i].invocationId;
    if log[i].output == Threw(SetupFailed) {
      forall k | 0 <= k < |events|
        ensures !Starts(log[k], id)
      {
        NotStarted(events, i, k);
      }
    } else {
      StepSound(events, i);
      assert Starts(log[i], id);
    }
  }

  /** ... and then every later call fails, with the same digest because the invocation counts as under way for ever. */
  lemma FailedSetupIsFinal<R>(events: seq<Event<R>>, i: nat, j: nat)
    requires Legal(events) && i < j < |events|
    ensures var log := Execute(events).log;
            var first, later := log[i], log[j];
            first.event.Begin? && first.output == Threw(SetupFailed)
            && later.event.Begin? && later.event.invocationId == first.event.invocationId ==>
              later.output == Threw(if later.event.intentDigest == first.event.intentDigest then InProgress else InvocationMismatch)
  {
    var log := Execute(events).log;
    if log[i].event.Begin? && log[i].output == Threw(SetupFailed) {
      FirstCallIsKnown(events, i, j);
      StepSound(events, j);
    }
  }

  /** The same holds once a result was rejected by its schema. */
  lemma InvalidResultIsFinal<R>(events: seq<Event<R>>, i: nat, j: nat)
    requires Legal(events) && i < j < |events|
    ensures var log := Execute(events).log;
            log[i].output == Threw(ResultInvalid) && log[j].event.Begin?
            && log[j].event.invocationId == log[i].invocationId ==>
              log[j].output == Threw(InProgress) || log[j].output == Threw(InvocationMismatch)
  {
    var log := Execute(events).log;
    if log[i].output == Threw(ResultInvalid) {
      InvalidIsKnown(events, i, j);
      StepSound(events, j);
      NothingToReturn(PastOf(log[..j]), log[j], log[i].invocationId);
    }
  }

  lemma InvalidIsKnown<R>(events: seq<Event<R>>, i: nat, j: nat)
    requires Legal(events) && i < j <= |events| && Execute(events).log[i].output == Threw(ResultInvalid)
    ensures var log := Execute(events).log;
            var id, histories := log[i].invocationId, PastOf(log[..j]).histories;
            id in histories && histories[id].stored.None?
  {
    var log := Execute(events).log;
    StepSound(events, i);
    PastOfNext(log, i);
    HistoryGrows(events, log[i].invocationId, i + 1, j);
  }

  lemma NothingToReturn<R>(past: Past<R>, step: Step<R>, id: string)
    requires StepIsSound(past, step) && id in past.histories && past.histories[id].stored.None?
    ensures step.event.Begin? && step.event.invocationId == id ==>
              step.output == Threw(InProgress) || step.output == Threw(InvocationMismatch)
  {
  }
}
