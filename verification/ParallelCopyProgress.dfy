/** The parallel file copy finishes when reads are not empty, nothing fails and it is not paused. */
module ParallelCopyProgress {
  import opened Sequences
  import opened ParallelCopy
  import opened ParallelCopyLaws
  import opened ParallelCopyRuns

  function Waits(ops: map<nat, Op>): set<nat> { set id | id in ops && ops[id].Waiting? }

  function Reads(ops: map<nat, Op>): set<nat> { set id | id in ops && ops[id].Reading? }

  /** How many callbacks are still to come before the outstanding operations are all writing. */
  function Weight(ops: map<nat, Op>): nat { 2 * |Waits(ops)| + |Reads(ops)| }

  function Work(op: Op): nat
  {
    match op
    case Waiting(_, _, _) => 2
    case Reading(_, _, _) => 1
    case Writing(_, _, _, _) => 0
  }

  lemma WeightWithout(ops: map<nat, Op>, id: nat)
    requires id in ops
    ensures Weight(ops) == Weight(ops - {id}) + Work(ops[id])
  {
    var rest := ops - {id};
    assert Waits(rest) == Waits(ops) - {id} && Reads(rest) == Reads(ops) - {id};
  }

  lemma WeightWith(ops: map<nat, Op>, id: nat, op: Op)
    requires id !in ops
    ensures Weight(ops[id := op]) == Weight(ops) + Work(op)
  {
    var more := ops[id := op];
    assert more - {id} == ops;
    WeightWithout(more, id);
  }

  lemma WeightReplaced(ops: map<nat, Op>, id: nat, key: nat, op: Op)
    requires id in ops && (key == id || key !in ops)
    ensures Weight((ops - {id})[key := op]) + Work(ops[id]) == Weight(ops) + Work(op)
  {
    WeightWithout(ops, id);
    WeightWith(ops - {id}, key, op);
  }

  function Measure(c: Config, s: State): int
  {
    3 * (c.fsize - s.total) + Weight(s.ops)
  }

  ghost predicate NoEmptyWrites(ops: map<nat, Op>)
  {
    forall id :: id in ops && ops[id].Writing? ==> ops[id].nb >= 1
  }

  /** A live copy with no write of nothing under way; it may be paused. */
  ghost predicate Going(c: Config, s: State)
  {
    Inv(c, s) && Live(s) && NoEmptyWrites(s.ops)
  }

  /** A callback without an error, where reads bring at least one byte, or the user pausing or resuming. */
  predicate IsGood(c: Config, s: State, e: Event)
  {
    && CanHappen(c, s, e)
    && match e
       case ReadDone(_, failed, nb, _) => !failed && nb >= 1
       case WriteDone(_, failed, _) => !failed
       case Timer(_) => true
       case Pause => true
       case Resume => true
       case _ => false
  }

  /** A returning read or write, or the timer of a put-off read while the copy is not paused. */
  predicate IsProductive(s: State, e: Event)
  {
    e.ReadDone? || e.WriteDone? || (e.Timer? && !s.pausing)
  }

  lemma ReadProgress(c: Config, s: State, e: Event)
    requires Going(c, s) && e.ReadDone? && IsGood(c, s, e)
    ensures var t := Step(c, s, e);
            t == Passed(c, s, e.id, e.nb) && Measure(c, t) < Measure(c, s) && NoEmptyWrites(t.ops)
  {
    var op := s.ops[e.id];
    ReadShape(c, s, e.id, e.nb, e.handles);
    WeightReplaced(s.ops, e.id, e.id, Writing(op.psrc, op.pos, op.len, e.nb));
  }

  lemma TimerProgress(c: Config, s: State, e: Event)
    requires Going(c, s) && e.Timer? && IsGood(c, s, e)
    ensures var t := Step(c, s, e);
            && Live(t) && NoEmptyWrites(t.ops)
            && Measure(c, t) == Measure(c, s) - (if s.pausing then 0 else 1)
  {
    var op := s.ops[e.id];
    assert s.nextId !in s.ops;
    WeightReplaced(s.ops, e.id, s.nextId, NewOp(s, op.psrc, op.pos, op.len));
  }

  lemma MoveProgress(c: Config, s: State, id: nat, handles: nat)
    requires Going(c, s) && CanWriteReturn(s, id) && s.ops[id].nb == s.ops[id].len
    requires s.total + s.ops[id].nb != c.fsize && s.pdst < c.fsize
    ensures var t := WriteReturns(c, s, id, false, handles);
            && Measure(c, t) < Measure(c, s) && !t.hadError && Live(t) && NoEmptyWrites(t.ops)
  {
    assert s.nextId !in s.ops && s.ops[id].nb >= 1;
    MoveShape(c, s, id, handles);
    WeightReplaced(s.ops, id, s.nextId, NewOp(s, s.ops[id].psrc, s.pdst, Chunk(c, s.pdst)));
  }

  lemma WriteProgress(c: Config, s: State, e: Event)
    requires Going(c, s) && e.WriteDone? && IsGood(c, s, e)
    ensures var t := Step(c, s, e);
            && Measure(c, t) < Measure(c, s)
            && (t.hadError ==> t.succeeded)
            && (!t.hadError ==> Live(t) && NoEmptyWrites(t.ops))
  {
    var id, op := e.id, s.ops[e.id];
    assert op.nb >= 1;
    WeightWithout(s.ops, id);
    if op.nb < op.len {
      assert s.nextId !in s.ops;
      ContinueShape(c, s, id, e.handles);
      WeightReplaced(s.ops, id, s.nextId, RestOf(s, op));
    } else if s.total + op.nb == c.fsize {
      CompleteShape(c, s, id, e.handles);
    } else if s.pdst >= c.fsize {
      RestShape(c, s, id, e.handles);
    } else {
      MoveProgress(c, s, id, e.handles);
    }
  }

  /** Each productive callback makes the measure smaller, until success is decided; nothing makes it larger. */
  lemma GoodStep(c: Config, s: State, e: Event)
    requires Going(c, s) && IsGood(c, s, e)
    ensures var t := Step(c, s, e);
            && Inv(c, t)
            && (if IsProductive(s, e) then Measure(c, t) < Measure(c, s) else Measure(c, t) == Measure(c, s))
            && (if t.hadError then t.succeeded && IsProductive(s, e) else Going(c, t))
  {
    StepKeeps(c, s, e);
    match e
    case ReadDone(_, _, _, _) => ReadProgress(c, s, e);
    case WriteDone(_, _, _) => WriteProgress(c, s, e);
    case Timer(_) => TimerProgress(c, s, e);
    case Pause =>
    case Resume =>
  }

  lemma MeasureIsPositive(c: Config, s: State)
    requires Going(c, s)
    ensures Measure(c, s) >= 3
  {
  }

  /** A run of a live copy in which nothing fails; the user may pause and resume at any time. */
  ghost predicate IsGoodRun(c: Config, s: State, es: seq<Event>)
    decreases |es|
  {
    es == [] || (Live(s) && IsGood(c, s, es[0]) && IsGoodRun(c, Step(c, s, es[0]), es[1..]))
  }

  /** How many of its events are productive. */
  ghost function Productive(c: Config, s: State, es: seq<Event>): nat
    requires IsGoodRun(c, s, es)
    decreases |es|
  {
    if es == [] then 0
    else (if IsProductive(s, es[0]) then 1 else 0) + Productive(c, Step(c, s, es[0]), es[1..])
  }

  /** A copy that is not over always has a callback to come, and a productive one unless it is paused. */
  lemma NeverStuck(c: Config, s: State) returns (e: Event)
    requires Going(c, s) && c.fsize <= |c.src|
    ensures IsGood(c, s, e) && !e.Pause? && !e.Resume? && (!s.pausing ==> IsProductive(s, e))
  {
    if s.ops.Keys == {} {
      assert s.pdst >= c.fsize;
      forall x | 0 <= x < c.fsize
        ensures x in s.dst
      {
        assert x in s.dst || InFlight(s.ops, x);
      }
      AllOfIt(c.fsize, s.dst);
      assert false;
    }
    var id :| id in s.ops.Keys;
    var op := s.ops[id];
    assert OpFits(SharedBy(c, s), op);
    match op {
      case Waiting(_, _, _) => e := Timer(id);
      case Reading(_, _, _) => e := ReadDone(id, false, 1, 0);
      case Writing(_, _, _, _) => e := WriteDone(id, false, 0);
    }
  }

  lemma AllOfIt(n: nat, dst: map<int, Byte>)
    requires forall x :: 0 <= x < n ==> x in dst
    ensures |dst| >= n
  {
    RangeSize(n);
    SubsetSize(Range(n), dst.Keys);
    assert |dst.Keys| == |dst|;
  }

  /** The run is over and everything is copied, or a callback can still come, a productive one unless it is paused. */
  ghost predicate OverOrGoingOn(c: Config, t: State)
  {
    if t.hadError then
      t.succeeded && forall x :: 0 <= x < c.fsize ==> x in t.dst && x < |c.src| && t.dst[x] == c.src[x]
    else exists e :: IsGood(c, t, e) && !e.Pause? && !e.Resume? && (!t.pausing ==> IsProductive(t, e))
  }

  lemma OverIsCopied(c: Config, t: State)
    requires Inv(c, t) && t.hadError && t.succeeded
    ensures OverOrGoingOn(c, t)
  {
    assert AllRight(c.src, t.pdst, t.dst);
  }

  /**
   * The copy finishes: however often it is paused and resumed, at most
   * `Measure` productive callbacks can come, and unless it is paused another
   * one can come until success is decided and the destination is the source.
   */
  lemma {:induction false} CopyFinishes(c: Config, s: State, es: seq<Event>)
    requires Going(c, s) && IsGoodRun(c, s, es) && c.fsize <= |c.src|
    ensures IsRun(c, s, es) && Productive(c, s, es) <= Measure(c, s)
    ensures OverOrGoingOn(c, After(c, s, es))
    decreases |es|
  {
    if es == [] {
      MeasureIsPositive(c, s);
      var e := NeverStuck(c, s);
    } else {
      GoodStep(c, s, es[0]);
      var t := Step(c, s, es[0]);
      if t.hadError {
        assert es[1..] == [] && After(c, s, es) == t;
        MeasureIsPositive(c, s);
        OverIsCopied(c, t);
      } else {
        CopyFinishes(c, t, es[1..]);
      }
    }
  }

  /** A copy is under way as soon as the destination is open, paused or not, unless it was destroyed before. */
  lemma OpenedIsGoing(c: Config, s: State, memory: seq<Byte>, handles: nat)
    requires IsNew(s) && !s.destroyed && c.fsize > 0
    requires |memory| == Sized(c.fsize, c.chunkSize, c.chunkSize * c.concurrency, c.concurrency).0
    ensures Going(c, Step(c, s, Open(memory, true, handles, false)))
  {
    StartKeeps(c, s, memory, true, handles, false);
    var (bufsize, concurrency) := Sized(c.fsize, c.chunkSize, c.chunkSize * c.concurrency, c.concurrency);
    SizedIsPositive(c, c.chunkSize * c.concurrency, c.concurrency);
    FirstReadsAreGoing(c, s.(phase := Preparing(concurrency), bufsize := bufsize, readbuf := memory));
  }

  /** ... and when the mode is set first, as soon as that has returned. */
  lemma FirstReadsAreGoing(c: Config, s: State)
    requires IsPrepared(c, s) && !s.destroyed
    ensures Going(c, ModeSet(c, s))
  {
    ModeSetKeeps(c, s);
    ReadsAreQuiet(c, s.(phase := Running), s.phase.concurrency, 0, 0);
    FirstReadsWriteNothing(c, s);
  }

  lemma FirstReadsWriteNothing(c: Config, s: State)
    requires IsPrepared(c, s) && !s.destroyed
    ensures NoEmptyWrites(ModeSet(c, s).ops)
  {
    var start := s.(phase := Running);
    SlotsFill(c.chunkSize, s.phase.concurrency, s.bufsize);
    StartReadsKeeps(c, start, s.phase.concurrency, 0, SlotSize(c, start), s.bufsize);
  }

  lemma EmptyFill(c: Config, s: State, id: nat)
    requires CanReadReturn(c, s, id, 0)
    ensures var op := s.ops[id];
            Passed(c, s, id, 0) == s.(ops := (s.ops - {id})[id := Writing(op.psrc, op.pos, op.len, 0)])
  {
    assert Patch(s.readbuf, s.ops[id].psrc, c.src[s.ops[id].pos..s.ops[id].pos]) == s.readbuf;
  }

  /** `s` with the read `id` tried again, which a pause puts off. */
  function TriedAgain(s: State, id: nat): State
    requires id in s.ops
  {
    s.(ops := (s.ops - {id})[s.nextId := NewOp(s, s.ops[id].psrc, s.ops[id].pos, s.ops[id].len)], nextId := s.nextId + 1)
  }

  lemma EmptyStore(c: Config, s: State, t: State, id: nat)
    requires CanReadReturn(c, s, id, 0) && !s.hadError && s.ops[id].len >= 1
    requires var op := s.ops[id]; t == s.(ops := (s.ops - {id})[id := Writing(op.psrc, op.pos, op.len, 0)])
    ensures CanWriteReturn(t, id)
    ensures Continued(c, t, id) == TriedAgain(s, id)
  {
    assert t.ops - {id} == s.ops - {id};
  }

  /**
   * Reads that bring nothing are the exception: once the write of nothing
   * returns, the copy is where it was, with the same read tried again,
   * whether it was paused or resumed in between or not.
   */
  lemma EmptyReadRepeats(c: Config, s: State, id: nat, handles: nat, pausing: bool)
    requires CanReadReturn(c, s, id, 0) && Live(s) && s.ops[id].len >= 1
    ensures var t := ReadReturns(c, s, id, false, 0, handles).(pausing := pausing);
            CanWriteReturn(t, id) && WriteReturns(c, t, id, false, handles) == TriedAgain(s.(pausing := pausing), id)
  {
    ReadShape(c, s, id, 0, handles);
    EmptyFill(c, s, id);
    var t := Passed(c, s, id, 0).(pausing := pausing);
    EmptyStore(c, s.(pausing := pausing), t, id);
    ContinueShape(c, t, id, handles);
  }
}
