/** Whole runs of the parallel file copy: what a report means, and that the copy finishes. */
module ParallelCopyRuns {
  import opened Options
  import opened Sequences
  import opened ParallelCopy
  import opened ParallelCopyLaws

  // ----- The first reads -----

  /** Slots and file ranges coincide as long as only first chunks are out. */
  ghost predicate FirstChunks(slot: int, ops: map<nat, Op>, pdst: nat)
  {
    forall id :: id in ops ==>
      var op := ops[id];
      !op.Writing? && op.psrc == op.pos && op.len == slot && op.pos + slot <= pdst
  }

  lemma FirstPiece(slot: int, ops: map<nat, Op>, pdst: nat, key: nat, op: Op)
    requires FirstChunks(slot, ops, pdst) && AllApart(slot, ops) && Tiles(pdst, ops, map[])
    requires key !in ops && slot >= 1 && !op.Writing? && op.psrc == op.pos == pdst && op.len == slot
    ensures var after := ops[key := op];
            FirstChunks(slot, after, pdst + slot) && AllApart(slot, after) && Tiles(pdst + slot, after, map[])
  {
    var after := ops[key := op];
    forall x | 0 <= x < pdst + slot
      ensures InFlight(after, x)
    {
      if x < pdst {
        assert InFlight(ops, x);
        var id :| id in ops && InRange(ops[id], x);
        assert id in after && InRange(after[id], x);
      } else {
        assert key in after && InRange(after[key], x);
      }
    }
  }

  lemma FirstConsistent(h: Shared, ops: map<nat, Op>)
    requires FirstChunks(h.slot, ops, h.pdst) && AllApart(h.slot, ops) && h.slot >= 1 && h.pdst <= |h.buf|
    ensures Consistent(h, ops, map[])
  {
  }

  /** What holds between two of the first reads. */
  ghost predicate Begun(slot: int, pdst: nat, ops: map<nat, Op>, nextId: nat)
  {
    FirstChunks(slot, ops, pdst) && AllApart(slot, ops) && Tiles(pdst, ops, map[]) && IdsFresh(nextId, ops)
  }

  lemma BegunStep(slot: int, pdst: nat, ops: map<nat, Op>, nextId: nat, op: Op)
    requires Begun(slot, pdst, ops, nextId) && slot >= 1
    requires !op.Writing? && op.psrc == op.pos == pdst && op.len == slot
    ensures Begun(slot, pdst + slot, ops[nextId := op], nextId + 1)
    ensures ops[nextId := op].Keys != {}
  {
    FirstPiece(slot, ops, pdst, nextId, op);
    assert nextId in ops[nextId := op].Keys;
  }

  /** The arguments of the loop after `issued` of the first reads; `rest` bytes of the buffer are left. */
  predicate LoopAt(c: Config, s: State, concurrency: nat, issued: nat, slot: nat, rest: nat)
  {
    && issued <= concurrency && 1 <= slot <= c.chunkSize && !s.destroyed && !s.hadError
    && (slot < c.chunkSize ==> c.fsize == slot && concurrency == 1)
    && rest == slot * (concurrency - issued) && s.pdst + rest <= c.fsize && (issued == 0 ==> s.pdst == 0)
  }

  function NextRead(s: State, slot: nat): State
  {
    s.(ops := s.ops[s.nextId := NewOp(s, s.pdst, s.pdst, slot)], nextId := s.nextId + 1, pdst := s.pdst + slot)
  }

  lemma StartReadsUnfolds(c: Config, s: State, concurrency: nat, issued: nat, slot: nat, rest: nat)
    requires LoopAt(c, s, concurrency, issued, slot, rest)
    ensures issued < concurrency ==>
              && rest >= slot && LoopAt(c, NextRead(s, slot), concurrency, issued + 1, slot, rest - slot)
              && StartReads(c, s, concurrency, issued, s.pdst) ==
                 StartReads(c, NextRead(s, slot), concurrency, issued + 1, s.pdst + slot)
    ensures issued == concurrency ==> rest == 0 && StartReads(c, s, concurrency, issued, s.pdst) == s
  {
    if issued < concurrency {
      OneLess(slot, concurrency - issued);
      assert Chunk(c, s.pdst) == slot;
      assert SingleRead(s, s.pdst, s.pdst, slot).(pdst := s.pdst + slot) == NextRead(s, slot);
    }
  }

  lemma {:induction false} StartReadsShape(c: Config, s: State, concurrency: nat, issued: nat, slot: nat, rest: nat)
    requires LoopAt(c, s, concurrency, issued, slot, rest)
    ensures var r := StartReads(c, s, concurrency, issued, s.pdst);
            r == s.(ops := r.ops, nextId := r.nextId, pdst := s.pdst + rest)
    decreases concurrency - issued
  {
    StartReadsUnfolds(c, s, concurrency, issued, slot, rest);
    if issued < concurrency {
      StartReadsShape(c, NextRead(s, slot), concurrency, issued + 1, slot, rest - slot);
    }
  }

  lemma {:induction false} StartReadsKeeps(c: Config, s: State, concurrency: nat, issued: nat, slot: nat, rest: nat)
    requires LoopAt(c, s, concurrency, issued, slot, rest) && Begun(slot, s.pdst, s.ops, s.nextId)
    ensures var r := StartReads(c, s, concurrency, issued, s.pdst);
            && Begun(slot, r.pdst, r.ops, r.nextId)
            && (issued < concurrency || s.ops.Keys != {} ==> r.ops.Keys != {})
    decreases concurrency - issued
  {
    StartReadsUnfolds(c, s, concurrency, issued, slot, rest);
    if issued < concurrency {
      BegunStep(slot, s.pdst, s.ops, s.nextId, NewOp(s, s.pdst, s.pdst, slot));
      StartReadsKeeps(c, NextRead(s, slot), concurrency, issued + 1, slot, rest - slot);
    }
  }

  lemma OneLess(slot: nat, n: nat)
    requires n >= 1
    ensures slot * n == slot + slot * (n - 1) && slot * (n - 1) >= 0
  {
  }

  /** A destroyed copy issues no first reads, but its cursor moves on all the same. */
  lemma {:induction false} DestroyedReads(c: Config, s: State, concurrency: nat, issued: nat, psrc: nat)
    requires s.destroyed && s.pdst <= c.fsize
    ensures var r := StartReads(c, s, concurrency, issued, psrc);
            r == s.(pdst := r.pdst) && s.pdst <= r.pdst <= c.fsize
    decreases if issued < concurrency then concurrency - issued else 0
  {
    if s.pdst < c.fsize && issued < concurrency {
      var chunk := Chunk(c, s.pdst);
      DestroyedReads(c, s.(pdst := s.pdst + chunk), concurrency, issued + 1, psrc + chunk);
    }
  }

  /** Opening, with or without a file mode to be set, establishes the invariant. */
  lemma StartKeeps(c: Config, s: State, memory: seq<Byte>, allocates: bool, handles: nat, mode: bool)
    requires IsNew(s)
    requires c.fsize > 0 && allocates ==>
               |memory| == Sized(c.fsize, c.chunkSize, c.chunkSize * c.concurrency, c.concurrency).0
    ensures Inv(c, Start(c, s, memory, allocates, handles, mode))
  {
    if c.fsize > 0 && allocates && !s.destroyed {
      var (bufsize, concurrency) := Sized(c.fsize, c.chunkSize, c.chunkSize * c.concurrency, c.concurrency);
      SizedIsPositive(c, c.chunkSize * c.concurrency, c.concurrency);
      var prepared := s.(phase := Preparing(concurrency), bufsize := bufsize, readbuf := memory);
      if mode {
        assert Inv(c, prepared);
      } else {
        ModeSetKeeps(c, prepared);
      }
    }
  }

  /** The first reads keep the invariant, also if the copy was paused or destroyed while the mode was being set. */
  lemma ModeSetKeeps(c: Config, s: State)
    requires IsPrepared(c, s)
    ensures Inv(c, ModeSet(c, s))
  {
    var start := s.(phase := Running);
    if s.destroyed {
      DestroyedReads(c, start, s.phase.concurrency, 0, 0);
    } else {
      StartedKeeps(c, s);
    }
  }

  lemma StartedKeeps(c: Config, s: State)
    requires IsPrepared(c, s) && !s.destroyed
    ensures Inv(c, ModeSet(c, s))
  {
    var start := s.(phase := Running);
    var slot := SlotSize(c, start);
    SlotsFill(c.chunkSize, s.phase.concurrency, s.bufsize);
    StartReadsShape(c, start, s.phase.concurrency, 0, slot, s.bufsize);
    StartReadsKeeps(c, start, s.phase.concurrency, 0, slot, s.bufsize);
    var r := ModeSet(c, s);
    FirstConsistent(SharedBy(c, r), r.ops);
  }

  lemma SlotsFill(chunkSize: Positive, concurrency: nat, bufsize: nat)
    requires concurrency >= 1
    requires bufsize == chunkSize * concurrency || (concurrency == 1 && bufsize < chunkSize)
    ensures bufsize == (if bufsize < chunkSize then bufsize else chunkSize) * concurrency
  {
    if concurrency > 1 {
      assert chunkSize * concurrency == chunkSize + chunkSize * (concurrency - 1);
      assert chunkSize * (concurrency - 1) >= 0;
    }
  }

  // ----- Runs -----

  datatype Event =
    | Open(memory: seq<Byte>, allocates: bool, handles: nat, mode: bool)
    | ModeDone
    | ReadDone(id: nat, failed: bool, nb: nat, handles: nat)
    | WriteDone(id: nat, failed: bool, handles: nat)
    | Timer(id: nat)
    | CloseDone
    | Pause
    | Resume
    | Destroy

  predicate CanHappen(c: Config, s: State, e: Event)
  {
    match e
    case Open(memory, allocates, _, _) =>
      && IsNew(s)
      && (c.fsize > 0 && allocates ==>
            |memory| == Sized(c.fsize, c.chunkSize, c.chunkSize * c.concurrency, c.concurrency).0)
    case ModeDone => s.phase.Preparing?
    case ReadDone(id, _, nb, _) => CanReadReturn(c, s, id, nb)
    case WriteDone(id, _, _) => CanWriteReturn(s, id)
    case Timer(id) => id in s.ops && s.ops[id].Waiting?
    case CloseDone => s.closing > 0
    case _ => true
  }

  function Step(c: Config, s: State, e: Event): State
    requires CanHappen(c, s, e)
  {
    match e
    case Open(memory, allocates, handles, mode) => Start(c, s, memory, allocates, handles, mode)
    case ModeDone => ModeSet(c, s)
    case ReadDone(id, failed, nb, handles) => ReadReturns(c, s, id, failed, nb, handles)
    case WriteDone(id, failed, handles) => WriteReturns(c, s, id, failed, handles)
    case Timer(id) => TimerFires(s, id)
    case CloseDone => CloseReturns(s)
    case Pause => s.(pausing := true)
    case Resume => s.(pausing := false)
    case Destroy => s.(destroyed := true)
  }

  predicate IsRun(c: Config, s: State, es: seq<Event>)
    decreases |es|
  {
    es == [] || (CanHappen(c, s, es[0]) && IsRun(c, Step(c, s, es[0]), es[1..]))
  }

  function After(c: Config, s: State, es: seq<Event>): State
    requires IsRun(c, s, es)
    decreases |es|
  {
    if es == [] then s else After(c, Step(c, s, es[0]), es[1..])
  }

  lemma FlagsKeep(c: Config, s: State, pausing: bool, destroyed: bool)
    requires Inv(c, s) && (s.destroyed ==> destroyed)
    ensures Inv(c, s.(pausing := pausing, destroyed := destroyed))
  {
    assert SharedBy(c, s.(pausing := pausing, destroyed := destroyed)) == SharedBy(c, s);
  }

  /** Every event of every interleaving keeps the invariant. */
  lemma StepKeeps(c: Config, s: State, e: Event)
    requires Inv(c, s) && CanHappen(c, s, e)
    ensures Inv(c, Step(c, s, e))
  {
    match e
    case Open(memory, allocates, handles, mode) => StartKeeps(c, s, memory, allocates, handles, mode);
    case ModeDone => ModeSetKeeps(c, s);
    case ReadDone(id, failed, nb, handles) => ReadKeeps(c, s, id, failed, nb, handles);
    case WriteDone(id, failed, handles) => WriteKeeps(c, s, id, failed, handles);
    case Timer(id) => TimerKeeps(c, s, id);
    case CloseDone => CloseKeeps(c, s);
    case Pause => FlagsKeep(c, s, true, s.destroyed);
    case Resume => FlagsKeep(c, s, false, s.destroyed);
    case Destroy => FlagsKeep(c, s, s.pausing, true);
  }

  lemma {:induction false} RunKeeps(c: Config, s: State, es: seq<Event>)
    requires Inv(c, s) && IsRun(c, s, es)
    ensures Inv(c, After(c, s, es))
    decreases |es|
  {
    if es != [] {
      StepKeeps(c, s, es[0]);
      RunKeeps(c, Step(c, s, es[0]), es[1..]);
    }
  }

  /** Success is reported only when the destination is exactly the source's first `fsize` bytes. */
  lemma SuccessIsCopied(c: Config, es: seq<Event>)
    requires IsRun(c, INITIAL, es)
    ensures var s := After(c, INITIAL, es);
            true in s.reports ==>
              && (forall x :: x in s.dst <==> 0 <= x < c.fsize)
              && (forall x :: x in s.dst ==> x < |c.src| && s.dst[x] == c.src[x])
  {
    assert Inv(c, INITIAL);
    RunKeeps(c, INITIAL, es);
    var s := After(c, INITIAL, es);
    if true in s.reports {
      assert s.hadError && s.succeeded;
    }
  }

  /** At most one report is made. */
  lemma ReportedOnce(c: Config, es: seq<Event>)
    requires IsRun(c, INITIAL, es)
    ensures |After(c, INITIAL, es).reports| <= 1
  {
    assert Inv(c, INITIAL);
    RunKeeps(c, INITIAL, es);
  }

  /** A report is never withdrawn, whatever happens later. */
  lemma {:induction false} ReportsStay(c: Config, s: State, es: seq<Event>)
    requires Inv(c, s) && IsRun(c, s, es)
    ensures s.reports <= After(c, s, es).reports
    decreases |es|
  {
    if es != [] {
      StepKeeps(c, s, es[0]);
      ReportsGrow(c, s, es[0]);
      ReportsStay(c, Step(c, s, es[0]), es[1..]);
    }
  }

  /**
   * In every run up to the first failure, `total` is the number of bytes
   * written, and a position below `pdst` is either written, with the right
   * byte, or in flight in exactly one operation.
   */
  lemma WrittenOrInFlight(c: Config, es: seq<Event>, x: int)
    requires IsRun(c, INITIAL, es) && Live(After(c, INITIAL, es)) && 0 <= x < After(c, INITIAL, es).pdst
    ensures var s := After(c, INITIAL, es);
            && s.total == |s.dst|
            && (x in s.dst <==> !exists id :: id in s.ops && InRange(s.ops[id], x))
            && (x in s.dst ==> x < |c.src| && s.dst[x] == c.src[x])
            && (forall i, j :: i in s.ops && j in s.ops && InRange(s.ops[i], x) && InRange(s.ops[j], x) ==> i == j)
  {
    assert Inv(c, INITIAL);
    RunKeeps(c, INITIAL, es);
    var s := After(c, INITIAL, es);
    forall i, j | i in s.ops && j in s.ops && i != j
      ensures !InRange(s.ops[i], x) || !InRange(s.ops[j], x)
    {
      assert Apart(SlotSize(c, s), s.ops[i], s.ops[j]);
    }
  }

  /** In every run, outstanding operations have disjoint regions that lie inside the shared buffer. */
  lemma RegionsAreDisjoint(c: Config, es: seq<Event>, i: nat, j: nat)
    requires IsRun(c, INITIAL, es)
    requires i in After(c, INITIAL, es).ops && j in After(c, INITIAL, es).ops && i != j
    ensures var s := After(c, INITIAL, es);
            var a, b := s.ops[i], s.ops[j];
            && a.psrc + a.len <= |s.readbuf| && b.psrc + b.len <= |s.readbuf|
            && (a.psrc + a.len <= b.psrc || b.psrc + b.len <= a.psrc)
  {
    assert Inv(c, INITIAL);
    RunKeeps(c, INITIAL, es);
    var s := After(c, INITIAL, es);
    assert OpFits(SharedBy(c, s), s.ops[i]) && OpFits(SharedBy(c, s), s.ops[j]);
    assert Apart(SlotSize(c, s), s.ops[i], s.ops[j]);
  }

  /** The buffer holds whatever an outstanding read may bring, and a write's bytes are all in it. */
  lemma BufferHolds(c: Config, es: seq<Event>, id: nat)
    requires IsRun(c, INITIAL, es) && id in After(c, INITIAL, es).ops
    ensures var s := After(c, INITIAL, es);
            var op := s.ops[id];
            && (op.Reading? ==> forall nb: nat :: nb <= op.len && op.pos + nb <= |c.src| ==> CanReadReturn(c, s, id, nb))
            && (op.Writing? ==> CanWriteReturn(s, id))
  {
    assert Inv(c, INITIAL);
    RunKeeps(c, INITIAL, es);
    var s := After(c, INITIAL, es);
    assert OpFits(SharedBy(c, s), s.ops[id]);
  }

  lemma ReportsGrow(c: Config, s: State, e: Event)
    requires Inv(c, s) && CanHappen(c, s, e)
    ensures s.reports <= Step(c, s, e).reports
  {
    if e.Open? && c.fsize > 0 && e.allocates && !s.destroyed {
      assert s.reports == [];
    }
  }

  // ----- When nothing new is started -----

  /** Every read that is out in `t` was already out in `s`. */
  ghost predicate NoNewReads(s: State, t: State)
  {
    forall id :: id in t.ops && t.ops[id].Reading? ==> id in s.ops && s.ops[id] == t.ops[id]
  }

  /** Everything that is outstanding in `t` was already outstanding in `s`. */
  ghost predicate NothingNew(s: State, t: State)
  {
    forall id :: id in t.ops ==> id in s.ops && s.ops[id] == t.ops[id]
  }

  lemma {:induction false} PausedFirstReads(c: Config, s: State, concurrency: nat, issued: nat, psrc: nat)
    requires s.pausing
    ensures NoNewReads(s, StartReads(c, s, concurrency, issued, psrc))
    decreases if issued < concurrency then concurrency - issued else 0
  {
    if s.pdst < c.fsize && issued < concurrency {
      var chunk := Chunk(c, s.pdst);
      PausedFirstReads(c, SingleRead(s, psrc, s.pdst, chunk).(pdst := s.pdst + chunk), concurrency, issued + 1, psrc + chunk);
    }
  }

  lemma PausedWrite(c: Config, s: State, id: nat, failed: bool, handles: nat)
    requires CanWriteReturn(s, id) && s.pausing
    ensures NoNewReads(s, WriteReturns(c, s, id, failed, handles))
  {
    if failed || s.hadError {
    } else if s.ops[id].nb < s.ops[id].len {
      if s.destroyed {
        RestShape(c, s, id, handles);
      } else {
        ContinueShape(c, s, id, handles);
      }
    } else if s.total + s.ops[id].nb == c.fsize {
      CompleteShape(c, s, id, handles);
    } else if s.pdst >= c.fsize {
      RestShape(c, s, id, handles);
    } else {
      MoveShape(c, s, id, handles);
    }
  }

  /** While the copy is paused, no event starts a read. */
  lemma PausedReadsNothing(c: Config, s: State, e: Event)
    requires CanHappen(c, s, e) && s.pausing
    ensures NoNewReads(s, Step(c, s, e))
  {
    match e
    case Open(memory, _, _, _) =>
      if c.fsize > 0 {
        var (bufsize, concurrency) := Sized(c.fsize, c.chunkSize, c.chunkSize * c.concurrency, c.concurrency);
        PausedFirstReads(c, s.(phase := Running, bufsize := bufsize, readbuf := memory), concurrency, 0, 0);
      }
    case ModeDone => PausedFirstReads(c, s.(phase := Running), s.phase.concurrency, 0, 0);
    case WriteDone(id, failed, handles) => PausedWrite(c, s, id, failed, handles);
    case _ =>
  }

  lemma OverWrite(c: Config, s: State, id: nat, failed: bool, handles: nat)
    requires CanWriteReturn(s, id) && (s.hadError || s.destroyed)
    ensures NothingNew(s, WriteReturns(c, s, id, failed, handles))
  {
    if failed {
    } else if s.hadError || s.ops[id].nb < s.ops[id].len {
      RestShape(c, s, id, handles);
    } else if s.total + s.ops[id].nb == c.fsize {
      CompleteShape(c, s, id, handles);
    } else if s.pdst >= c.fsize {
      RestShape(c, s, id, handles);
    } else {
      MoveShape(c, s, id, handles);
    }
  }

  /** Once the copy is destroyed or decided, no event starts anything. */
  lemma OverStartsNothing(c: Config, s: State, e: Event)
    requires Inv(c, s) && CanHappen(c, s, e) && (s.hadError || s.destroyed || s.phase.AllocFailed?)
    ensures NothingNew(s, Step(c, s, e))
  {
    match e
    case Open(_, _, _, _) =>
    case ModeDone => DestroyedReads(c, s.(phase := Running), s.phase.concurrency, 0, 0);
    case ReadDone(id, _, _, _) => assert id in s.ops.Keys;
    case WriteDone(id, failed, handles) =>
      assert id in s.ops.Keys;
      OverWrite(c, s, id, failed, handles);
    case _ =>
  }

  predicate Untouched(s: State)
  {
    s.phase.Running? || (s.ops == map[] && s.dst == map[] && s.total == 0)
  }

  lemma UntouchedStep(c: Config, s: State, e: Event)
    requires CanHappen(c, s, e) && Untouched(s)
    ensures Untouched(Step(c, s, e))
  {
    match e
    case ReadDone(id, _, _, _) => assert s.phase.Running?;
    case WriteDone(id, failed, handles) => WritePhase(c, s, id, failed, handles);
    case ModeDone => ReadsAreQuiet(c, s.(phase := Running), s.phase.concurrency, 0, 0);
    case Open(memory, allocates, handles, mode) => OpenUntouched(c, s, e);
    case _ =>
  }

  lemma OpenUntouched(c: Config, s: State, e: Event)
    requires e.Open? && CanHappen(c, s, e)
    ensures Untouched(Step(c, s, e))
  {
    if c.fsize > 0 && e.allocates && !e.mode {
      var (bufsize, concurrency) := Sized(c.fsize, c.chunkSize, c.chunkSize * c.concurrency, c.concurrency);
      ReadsAreQuiet(c, s.(phase := Running, bufsize := bufsize, readbuf := e.memory), concurrency, 0, 0);
    }
  }

  lemma WritePhase(c: Config, s: State, id: nat, failed: bool, handles: nat)
    requires CanWriteReturn(s, id)
    ensures WriteReturns(c, s, id, failed, handles).phase == s.phase
  {
    if !failed && !s.hadError {
      if s.ops[id].nb < s.ops[id].len || s.total + s.ops[id].nb != c.fsize {
        GoesOnQuietly(c, s, id, handles);
      } else {
        CompleteShape(c, s, id, handles);
      }
    }
  }

  lemma {:induction false} RunUntouched(c: Config, s: State, es: seq<Event>)
    requires IsRun(c, s, es) && Untouched(s)
    ensures Untouched(After(c, s, es))
    decreases |es|
  {
    if es != [] {
      UntouchedStep(c, s, es[0]);
      RunUntouched(c, Step(c, s, es[0]), es[1..]);
    }
  }

  /** Nothing is read or written before the destination is open and its mode is set. */
  lemma NothingBeforeTheMode(c: Config, es: seq<Event>)
    requires IsRun(c, INITIAL, es) && !After(c, INITIAL, es).phase.Running?
    ensures var s := After(c, INITIAL, es);
            s.ops == map[] && s.dst == map[] && s.total == 0
  {
    RunUntouched(c, INITIAL, es);
  }

  // ----- When the end is reported, and with what -----

  /**
   * What an event decides, and how many handles are then to be closed: an empty file and the write
   * of the last bytes decide success, a failed read, a failed write and a failed allocation decide
   * failure.
   */
  function Decision(c: Config, s: State, e: Event): Option<(bool, nat)>
    requires CanHappen(c, s, e)
  {
    match e
    case Open(_, allocates, handles, _) =>
      if s.destroyed then None
      else if c.fsize <= 0 then Some((true, handles))
      else if !allocates then Some((false, 0))
      else None
    case ReadDone(_, failed, _, handles) => if failed then Some((false, handles)) else None
    case WriteDone(id, failed, handles) =>
      if failed then Some((false, handles))
      else if s.ops[id].nb == s.ops[id].len && s.total + s.ops[id].nb == c.fsize then Some((true, handles))
      else None
    case _ => None
  }

  /** What a run has decided: the first decision, the handles to be closed, and how many closes have returned since. */
  datatype Outcome = Undecided | Decided(ok: bool, handles: nat, closes: nat)

  function NextOutcome(c: Config, s: State, e: Event, o: Outcome): Outcome
    requires CanHappen(c, s, e)
  {
    match o
    case Undecided =>
      var d := Decision(c, s, e);
      if d.Some? then Decided(d.value.0, d.value.1, 0) else Undecided
    case Decided(ok, handles, closes) => if e.CloseDone? then Decided(ok, handles, closes + 1) else o
  }

  function OutcomeOf(c: Config, s: State, es: seq<Event>, o: Outcome): Outcome
    requires IsRun(c, s, es)
    decreases |es|
  {
    if es == [] then o else OutcomeOf(c, Step(c, s, es[0]), es[1..], NextOutcome(c, s, es[0], o))
  }

  /** Nothing is reported before the last handle is closed, then exactly what was decided, and no further close returns. */
  predicate ReportsExactly(c: Config, s: State, o: Outcome)
  {
    match o
    case Undecided => s.reports == [] && !CanHappen(c, s, CloseDone)
    case Decided(ok, handles, closes) =>
      && s.reports == (if closes < handles then [] else [ok])
      && (CanHappen(c, s, CloseDone) <==> closes < handles)
  }

  /** The flags of a state that has come to an outcome. */
  predicate Reached(s: State, o: Outcome)
  {
    match o
    case Undecided => !s.hadError && !s.phase.AllocFailed? && s.reports == [] && s.closing == 0
    case Decided(ok, handles, closes) =>
      && (s.hadError || s.phase.AllocFailed?)
      && (s.hadError ==> s.succeeded == ok)
      && s.closing == (if closes < handles then handles - closes else 0)
      && s.reports == (if closes < handles then [] else [ok])
  }

  /** Once it is decided, only closes change what is reported. */
  lemma DecidedStays(c: Config, s: State, e: Event)
    requires Inv(c, s) && CanHappen(c, s, e) && (s.hadError || s.phase.AllocFailed?)
    ensures var t := Step(c, s, e);
            && (t.hadError <==> s.hadError) && (t.phase.AllocFailed? <==> s.phase.AllocFailed?) && t.succeeded == s.succeeded
            && (!e.CloseDone? ==> t.closing == s.closing && t.reports == s.reports)
  {
    match e
    case Open(_, _, _, _) =>
    case ModeDone =>
    case ReadDone(id, _, _, _) => assert id in s.ops.Keys;
    case WriteDone(id, _, _) => assert id in s.ops.Keys;
    case Timer(id) => assert id in s.ops.Keys;
    case _ =>
  }

  lemma StartReported(c: Config, s: State, e: Event)
    requires Inv(c, s) && e.Open? && CanHappen(c, s, e)
    ensures Reached(Step(c, s, e), NextOutcome(c, s, e, Undecided))
  {
    if c.fsize > 0 && e.allocates && !s.destroyed && !e.mode {
      FirstReadsQuiet(c, s, e);
    }
  }

  lemma {:induction false} ReadsAreQuiet(c: Config, s: State, concurrency: nat, issued: nat, psrc: nat)
    ensures var r := StartReads(c, s, concurrency, issued, psrc);
            r == s.(ops := r.ops, nextId := r.nextId, pdst := r.pdst)
    decreases if issued < concurrency then concurrency - issued else 0
  {
    if s.pdst < c.fsize && issued < concurrency {
      var chunk := Chunk(c, s.pdst);
      ReadsAreQuiet(c, SingleRead(s, psrc, s.pdst, chunk).(pdst := s.pdst + chunk), concurrency, issued + 1, psrc + chunk);
    }
  }

  lemma FirstReadsQuiet(c: Config, s: State, e: Event)
    requires e.Open? && IsNew(s) && c.fsize > 0 && e.allocates && !s.destroyed && !e.mode
    ensures var t := Start(c, s, e.memory, e.allocates, e.handles, e.mode);
            !t.hadError && !t.phase.AllocFailed? && t.reports == [] && t.closing == 0
  {
    var (bufsize, concurrency) := Sized(c.fsize, c.chunkSize, c.chunkSize * c.concurrency, c.concurrency);
    ReadsAreQuiet(c, s.(phase := Running, bufsize := bufsize, readbuf := e.memory), concurrency, 0, 0);
  }

  /** A step of an undecided copy. */
  lemma UndecidedStep(c: Config, s: State, e: Event)
    requires Inv(c, s) && CanHappen(c, s, e) && Reached(s, Undecided)
    ensures Reached(Step(c, s, e), NextOutcome(c, s, e, Undecided))
  {
    match e
    case Open(_, _, _, _) => StartReported(c, s, e);
    case ModeDone => ReadsAreQuiet(c, s.(phase := Running), s.phase.concurrency, 0, 0);
    case ReadDone(_, _, _, _) => ReadReported(c, s, e);
    case WriteDone(_, _, _) => WriteReported(c, s, e);
    case Timer(id) => assert id in s.ops.Keys;
    case _ =>
  }

  lemma ReadReported(c: Config, s: State, e: Event)
    requires Inv(c, s) && e.ReadDone? && CanHappen(c, s, e) && Reached(s, Undecided)
    ensures Reached(Step(c, s, e), NextOutcome(c, s, e, Undecided))
  {
    ReadOutcome(c, s, e.id, e.failed, e.nb, e.handles);
    if e.failed {
      FailureReported(Filled(c, s, e.id, e.nb), false, e.handles);
    }
  }

  lemma ReadOutcome(c: Config, s: State, id: nat, failed: bool, nb: nat, handles: nat)
    requires CanReadReturn(c, s, id, nb) && !s.hadError
    ensures failed ==> ReadReturns(c, s, id, failed, nb, handles) == OnError(Filled(c, s, id, nb), false, handles)
    ensures !failed ==> SameReports(s, ReadReturns(c, s, id, failed, nb, handles))
  {
    if !failed && !s.destroyed {
      ReadShape(c, s, id, nb, handles);
    }
  }

  /** What counts for the reports does not change when a write is stored or a range is handed out. */
  predicate SameReports(s: State, t: State)
  {
    && t.phase == s.phase && t.hadError == s.hadError && t.succeeded == s.succeeded
    && t.closing == s.closing && t.reports == s.reports
  }

  lemma GoesOnQuietly(c: Config, s: State, id: nat, handles: nat)
    requires CanWriteReturn(s, id) && !s.hadError
    requires s.ops[id].nb < s.ops[id].len || s.total + s.ops[id].nb != c.fsize
    ensures SameReports(s, WriteReturns(c, s, id, false, handles))
  {
    if s.ops[id].nb < s.ops[id].len {
      if s.destroyed {
        RestShape(c, s, id, handles);
      } else {
        ContinueShape(c, s, id, handles);
      }
    } else if s.pdst >= c.fsize {
      RestShape(c, s, id, handles);
    } else {
      MoveShape(c, s, id, handles);
    }
  }

  lemma WriteReported(c: Config, s: State, e: Event)
    requires Inv(c, s) && e.WriteDone? && CanHappen(c, s, e) && Reached(s, Undecided)
    ensures Reached(Step(c, s, e), NextOutcome(c, s, e, Undecided))
  {
    assert e.id in s.ops.Keys;
    if e.failed {
      FailureReported(s.(ops := s.ops - {e.id}), false, e.handles);
    } else if s.ops[e.id].nb == s.ops[e.id].len && s.total + s.ops[e.id].nb == c.fsize {
      CompleteShape(c, s, e.id, e.handles);
      FailureReported(Settled(c, s, e.id), true, e.handles);
    } else {
      GoesOnQuietly(c, s, e.id, e.handles);
    }
  }

  lemma FailureReported(s: State, ok: bool, handles: nat)
    requires Reached(s, Undecided)
    ensures Reached(OnError(s, ok, handles), Decided(ok, handles, 0))
  {
  }

  lemma ReachedStep(c: Config, s: State, e: Event, o: Outcome)
    requires Inv(c, s) && CanHappen(c, s, e) && Reached(s, o)
    ensures Reached(Step(c, s, e), NextOutcome(c, s, e, o))
  {
    if o.Undecided? {
      UndecidedStep(c, s, e);
    } else {
      DecidedStays(c, s, e);
    }
  }

  lemma {:induction false} RunReaches(c: Config, s: State, es: seq<Event>, o: Outcome)
    requires Inv(c, s) && IsRun(c, s, es) && Reached(s, o)
    ensures Inv(c, After(c, s, es)) && Reached(After(c, s, es), OutcomeOf(c, s, es, o))
    decreases |es|
  {
    if es != [] {
      StepKeeps(c, s, es[0]);
      ReachedStep(c, s, es[0], o);
      RunReaches(c, Step(c, s, es[0]), es[1..], NextOutcome(c, s, es[0], o));
    }
  }

  /**
   * In every run: after the event that decides, exactly as many closes return as there were handles,
   * whatever else comes in between; with the last of them, or at once if there is none, the decision
   * is reported, and it stays the only report.
   */
  lemma ReportedWhenClosed(c: Config, es: seq<Event>)
    requires IsRun(c, INITIAL, es)
    ensures ReportsExactly(c, After(c, INITIAL, es), OutcomeOf(c, INITIAL, es, Undecided))
  {
    assert Inv(c, INITIAL);
    RunReaches(c, INITIAL, es, Undecided);
  }
  /** How many closes return in these events. */
  function Closes(es: seq<Event>): nat
  {
    if es == [] then 0 else (if es[0].CloseDone? then 1 else 0) + Closes(es[1..])
  }

  lemma {:induction false} OnlyClosesCount(c: Config, s: State, es: seq<Event>, ok: bool, handles: nat, closes: nat)
    requires IsRun(c, s, es)
    ensures OutcomeOf(c, s, es, Decided(ok, handles, closes)) == Decided(ok, handles, closes + Closes(es))
    decreases |es|
  {
    if es != [] {
      OnlyClosesCount(c, Step(c, s, es[0]), es[1..], ok, handles, closes + if es[0].CloseDone? then 1 else 0);
    }
  }

  /** The same of the events after the one that decides. */
  lemma ReportedAfterCloses(c: Config, before: seq<Event>, e: Event, later: seq<Event>)
    requires IsRun(c, INITIAL, before) && OutcomeOf(c, INITIAL, before, Undecided) == Undecided
    requires CanHappen(c, After(c, INITIAL, before), e) && Decision(c, After(c, INITIAL, before), e).Some?
    requires IsRun(c, Step(c, After(c, INITIAL, before), e), later)
    ensures var s := After(c, INITIAL, before);
            var (ok, handles) := Decision(c, s, e).value;
            var after := After(c, Step(c, s, e), later);
            && after.reports == (if Closes(later) < handles then [] else [ok])
            && (CanHappen(c, after, CloseDone) <==> Closes(later) < handles)
  {
    var s := After(c, INITIAL, before);
    var (ok, handles) := Decision(c, s, e).value;
    assert Inv(c, INITIAL);
    RunReaches(c, INITIAL, before, Undecided);
    StepKeeps(c, s, e);
    ReachedStep(c, s, e, Undecided);
    RunReaches(c, Step(c, s, e), later, Decided(ok, handles, 0));
    OnlyClosesCount(c, Step(c, s, e), later, ok, handles, 0);
  }
}
