/**
 * The parallel file copy (`Transfer.onDstOpen`): up to `concurrency` pipelines
 * of reads and writes share one buffer and one cursor. Reads may be short,
 * callbacks come in any order. The model is event-driven: an outstanding
 * operation is an element of `ops` until its callback comes.
 */
module ParallelCopy {
  import opened Sequences

  type Positive = n: int | n >= 1 witness 1

  /** A copy of the first `fsize` bytes of `src`; `fsize` is what the source's stat said. */
  datatype Config = Config(src: seq<Byte>, fsize: int, chunkSize: Positive, concurrency: Positive)

  /** Outstanding work on the file range [pos, pos + len) in the buffer at `psrc`. */
  datatype Op =
    | Waiting(psrc: nat, pos: nat, len: nat)              // a timer that will retry after a pause
    | Reading(psrc: nat, pos: nat, len: nat)
    | Writing(psrc: nat, pos: nat, len: nat, nb: nat)     // the first `nb` bytes are being written

  datatype Phase =
    | Idle
    | Preparing(concurrency: nat)   // the file mode is being set; the reads come after it
    | Running
    | AllocFailed

  datatype State = State(
    phase: Phase, bufsize: int, readbuf: seq<Byte>, pdst: nat, total: nat,
    ops: map<nat, Op>, nextId: nat, dst: map<int, Byte>, pausing: bool, destroyed: bool,
    hadError: bool, succeeded: bool, closing: nat, reports: seq<bool>)

  const INITIAL := State(Idle, 0, [], 0, 0, map[], 0, map[], false, false, false, false, 0, [])

  // ----- Sizing -----

  /** Use less memory where possible: fewer pipelines, or one buffer of the file's size. */
  function Sized(fsize: int, chunkSize: nat, bufsize: int, concurrency: nat): (r: (int, nat))
    requires concurrency >= 1
    decreases concurrency
  {
    if bufsize <= fsize then (bufsize, concurrency)
    else if concurrency == 1 then (fsize, 1)
    else Sized(fsize, chunkSize, bufsize - chunkSize, concurrency - 1)
  }

  /** The size of one pipeline's region of the buffer. */
  function SlotSize(c: Config, s: State): int
  {
    if s.bufsize < c.chunkSize then s.bufsize else c.chunkSize
  }

  // ----- Handlers -----

  /** `onerror`: the first call decides the outcome; `handles` file handles are still to be closed. */
  function OnError(s: State, ok: bool, handles: nat): State
  {
    if s.hadError then s
    else s.(hadError := true, succeeded := ok, closing := handles,
            reports := if handles == 0 then s.reports + [ok] else s.reports)
  }

  function CloseReturns(s: State): State
    requires s.closing > 0
  {
    s.(closing := s.closing - 1, reports := if s.closing == 1 then s.reports + [s.succeeded] else s.reports)
  }

  function SingleRead(s: State, psrc: nat, pos: nat, len: nat): State
  {
    if s.destroyed || s.hadError then s
    else s.(ops := s.ops[s.nextId := if s.pausing then Waiting(psrc, pos, len) else Reading(psrc, pos, len)],
            nextId := s.nextId + 1)
  }

  /** The length of the next chunk of the file. */
  function Chunk(c: Config, pdst: nat): (n: nat)
    requires pdst < c.fsize
    ensures 1 <= n <= c.chunkSize && pdst + n <= c.fsize
  {
    if pdst + c.chunkSize > c.fsize then c.fsize - pdst else c.chunkSize
  }

  /** The first reads, one for each pipeline. */
  function StartReads(c: Config, s: State, concurrency: nat, issued: nat, psrc: nat): State
    decreases if issued < concurrency then concurrency - issued else 0
  {
    if s.pdst < c.fsize && issued < concurrency then
      var chunk := Chunk(c, s.pdst);
      StartReads(c, SingleRead(s, psrc, s.pdst, chunk).(pdst := s.pdst + chunk), concurrency, issued + 1, psrc + chunk)
    else s
  }

  /** Before the destination is open, a transfer can only have been paused or destroyed. */
  predicate IsNew(s: State)
  {
    s == INITIAL.(pausing := s.pausing, destroyed := s.destroyed)
  }

  /**
   * `onDstOpen`. `memory` is the fresh buffer, if there is room for it; `mode`
   * tells whether a file mode is to be set before the first reads.
   */
  function Start(c: Config, s: State, memory: seq<Byte>, allocates: bool, handles: nat, mode: bool): State
    requires IsNew(s)
  {
    if s.destroyed then s
    else if c.fsize <= 0 then OnError(s.(phase := Running), true, handles)
    else
      var (bufsize, concurrency) := Sized(c.fsize, c.chunkSize, c.chunkSize * c.concurrency, c.concurrency);
      if !allocates then s.(phase := AllocFailed, bufsize := bufsize, reports := [false])
      else
        var prepared := s.(phase := Preparing(concurrency), bufsize := bufsize, readbuf := memory);
        if mode then prepared else ModeSet(c, prepared)
  }

  /** The file mode is set, or it could not be set: either way the first reads are issued. */
  function ModeSet(c: Config, s: State): State
    requires s.phase.Preparing?
  {
    StartReads(c, s.(phase := Running), s.phase.concurrency, 0, 0)
  }

  function Patch(buf: seq<Byte>, at: nat, data: seq<Byte>): seq<Byte>
    requires at + |data| <= |buf|
  {
    buf[..at] + data + buf[at + |data|..]
  }

  /** The destination after `data` was written at `pos`. */
  function Stored(dst: map<int, Byte>, pos: int, data: seq<Byte>): map<int, Byte>
  {
    if data == [] then dst
    else
      var n := |data| - 1;
      Stored(dst, pos, data[..n])[pos + n := data[n]]
  }

  lemma {:induction false} StoredAt(dst: map<int, Byte>, pos: int, data: seq<Byte>)
    ensures var r := Stored(dst, pos, data);
            && (forall x :: x in r <==> x in dst || pos <= x < pos + |data|)
            && (forall x :: x in r ==> r[x] == if pos <= x < pos + |data| then data[x - pos] else dst[x])
    decreases |data|
  {
    if data != [] {
      var n := |data| - 1;
      var front := data[..n];
      StoredAt(dst, pos, front);
      assert Stored(dst, pos, data) == Stored(dst, pos, front)[pos + n := data[n]];
      assert forall k :: 0 <= k < n ==> front[k] == data[k];
    }
  }

  predicate CanReadReturn(c: Config, s: State, id: nat, nb: nat)
  {
    && id in s.ops && s.ops[id].Reading?
    && nb <= s.ops[id].len && s.ops[id].pos + nb <= |c.src|
    && s.ops[id].psrc + nb <= |s.readbuf|
  }

  /** A read of `nb` bytes comes back (`onread`). */
  function ReadReturns(c: Config, s: State, id: nat, failed: bool, nb: nat, handles: nat): State
    requires CanReadReturn(c, s, id, nb)
  {
    var op := s.ops[id];
    var filled := s.(ops := s.ops - {id}, readbuf := Patch(s.readbuf, op.psrc, c.src[op.pos..op.pos + nb]));
    if s.hadError then filled
    else if failed then OnError(filled, false, handles)
    else if s.destroyed then filled
    else filled.(ops := s.ops[id := Writing(op.psrc, op.pos, op.len, nb)])
  }

  predicate CanWriteReturn(s: State, id: nat)
  {
    && id in s.ops && s.ops[id].Writing? && s.ops[id].nb <= s.ops[id].len
    && s.ops[id].psrc + s.ops[id].nb <= |s.readbuf|
  }

  /** A write without an error is counted; what follows depends on how much of the file is left. */
  function Proceed(c: Config, s: State, op: Op, handles: nat): State
    requires op.Writing? && op.nb <= op.len
  {
    var counted := s.(total := s.total + op.nb);
    if op.nb < op.len then SingleRead(counted, op.psrc, op.pos + op.nb, op.len - op.nb)
    else if counted.total == c.fsize then OnError(counted, true, handles)
    else if s.pdst >= c.fsize then counted
    else
      var chunk := Chunk(c, s.pdst);
      SingleRead(counted, op.psrc, s.pdst, chunk).(pdst := s.pdst + chunk)
  }

  /** A write comes back (`writeCb`): all its bytes are stored unless it failed. */
  function WriteReturns(c: Config, s: State, id: nat, failed: bool, handles: nat): State
    requires CanWriteReturn(s, id)
  {
    var op := s.ops[id];
    var gone := s.(ops := s.ops - {id});
    if failed then (if s.hadError then gone else OnError(gone, false, handles))
    else
      var stored := gone.(dst := Stored(s.dst, op.pos, s.readbuf[op.psrc..op.psrc + op.nb]));
      if s.hadError then stored
      else Proceed(c, stored, op, handles)
  }

  /** The timer of a paused read fires. */
  function TimerFires(s: State, id: nat): State
    requires id in s.ops && s.ops[id].Waiting?
  {
    var op := s.ops[id];
    SingleRead(s.(ops := s.ops - {id}), op.psrc, op.pos, op.len)
  }

  class Transfer {
    const config: Config
    var phase: Phase
    var bufsize: int
    var readbuf: array<Byte>
    var pdst: nat
    var total: nat
    var ops: map<nat, Op>
    var nextId: nat
    var dst: map<int, Byte>
    var pausing: bool
    var destroyed: bool
    var hadError: bool
    var succeeded: bool
    var closing: nat
    var reports: seq<bool>

    ghost function Contents(): State
      reads this, readbuf
    {
      State(phase, bufsize, readbuf[..], pdst, total, ops, nextId, dst, pausing, destroyed,
            hadError, succeeded, closing, reports)
    }

    constructor (config: Config)
      ensures this.config == config && Contents() == INITIAL && fresh(readbuf)
    {
      this.config := config;
      phase, bufsize, pdst, total, ops, nextId, dst := Idle, 0, 0, 0, map[], 0, map[];
      pausing, destroyed, hadError, succeeded, closing, reports := false, false, false, false, 0, [];
      readbuf := new Byte[0];
    }

    method Fail(ok: bool, handles: nat)
      modifies this`hadError, this`succeeded, this`closing, this`reports
      ensures Contents() == OnError(old(Contents()), ok, handles)
    {
      if hadError {
        return;
      }
      hadError, succeeded, closing := true, ok, handles;
      if handles == 0 {
        reports := reports + [ok];
      }
    }

    method OnClose()
      requires closing > 0
      modifies this`closing, this`reports
      ensures Contents() == CloseReturns(old(Contents()))
    {
      closing := closing - 1;
      if closing == 0 {
        reports := reports + [succeeded];
      }
    }

    method IssueRead(psrc: nat, pos: nat, len: nat)
      modifies this`ops, this`nextId
      ensures Contents() == SingleRead(old(Contents()), psrc, pos, len)
    {
      if destroyed || hadError {
        return;
      }
      ops := ops[nextId := if pausing then Waiting(psrc, pos, len) else Reading(psrc, pos, len)];
      nextId := nextId + 1;
    }

    method OnDstOpen(allocates: bool, handles: nat, mode: bool)
      requires IsNew(Contents())
      modifies this
      ensures fresh(readbuf) || readbuf == old(readbuf)
      ensures Contents() == Start(config, old(Contents()), readbuf[..], allocates, handles, mode)
      ensures config.fsize > 0 && allocates && !destroyed ==>
                readbuf.Length == Sized(config.fsize, config.chunkSize, config.chunkSize * config.concurrency, config.concurrency).0
    {
      if destroyed {
        return;
      }
      if config.fsize <= 0 {
        phase := Running;
        Fail(true, handles);
        return;
      }
      var concurrency := SizeBuffer();
      SizedIsPositive(config, config.chunkSize * config.concurrency, config.concurrency);
      if !allocates {
        phase := AllocFailed;
        reports := [false];
        return;
      }
      readbuf := new Byte[bufsize](_ => 0);
      phase := Preparing(concurrency);
      if !mode {
        OnModeSet();
      }
    }

    method OnModeSet()
      requires phase.Preparing?
      modifies this`phase, this`ops, this`nextId, this`pdst
      ensures Contents() == ModeSet(config, old(Contents()))
    {
      var concurrency := phase.concurrency;
      phase := Running;
      ReadAhead(concurrency);
    }

    method SizeBuffer() returns (concurrency: nat)
      modifies this`bufsize
      ensures (bufsize, concurrency) == Sized(config.fsize, config.chunkSize, config.chunkSize * config.concurrency, config.concurrency)
    {
      concurrency := config.concurrency;
      bufsize := config.chunkSize * concurrency;
      ghost var goal := Sized(config.fsize, config.chunkSize, bufsize, concurrency);
      while bufsize > config.fsize
        invariant concurrency >= 1
        invariant bufsize <= config.fsize ==> (bufsize, concurrency) == goal
        invariant bufsize > config.fsize ==> Sized(config.fsize, config.chunkSize, bufsize, concurrency) == goal
        decreases bufsize > config.fsize, concurrency
      {
        if concurrency == 1 {
          bufsize := config.fsize;
          break;
        }
        bufsize := bufsize - config.chunkSize;
        concurrency := concurrency - 1;
      }
    }

    method ReadAhead(concurrency: nat)
      modifies this`ops, this`nextId, this`pdst
      ensures Contents() == StartReads(config, old(Contents()), concurrency, 0, 0)
    {
      var issued, psrc := 0, 0;
      while pdst < config.fsize && issued < concurrency
        invariant StartReads(config, Contents(), concurrency, issued, psrc) == StartReads(config, old(Contents()), concurrency, 0, 0)
        decreases concurrency - issued
      {
        var chunk := Chunk(config, pdst);
        IssueRead(psrc, pdst, chunk);
        psrc := psrc + chunk;
        pdst := pdst + chunk;
        issued := issued + 1;
      }
    }

    /** The system has put `nb` bytes of the source into this read's region of the buffer. */
    method OnRead(id: nat, failed: bool, nb: nat, handles: nat)
      requires CanReadReturn(config, Contents(), id, nb)
      modifies readbuf, this`ops, this`hadError, this`succeeded, this`closing, this`reports
      ensures Contents() == ReadReturns(config, old(Contents()), id, failed, nb, handles)
    {
      var op := ops[id];
      FillBuffer(readbuf, op.psrc, config.src[op.pos..op.pos + nb]);
      var all := ops;
      ops := ops - {id};
      if hadError {
        return;
      }
      if failed {
        Fail(false, handles);
        return;
      }
      if destroyed {
        return;
      }
      ops := all[id := Writing(op.psrc, op.pos, op.len, nb)];
    }

    method OnWrite(id: nat, failed: bool, handles: nat)
      requires CanWriteReturn(Contents(), id)
      modifies this`ops, this`nextId, this`dst, this`total, this`pdst, this`hadError, this`succeeded, this`closing, this`reports
      ensures Contents() == WriteReturns(config, old(Contents()), id, failed, handles)
    {
      var op := ops[id];
      ops := ops - {id};
      if failed {
        Fail(false, handles);
        return;
      }
      Store(op);
      if hadError {
        return;
      }
      AfterWrite(op, handles);
    }

    /** The system's part of a write. */
    method Store(op: Op)
      requires op.Writing? && op.psrc + op.nb <= readbuf.Length
      modifies this`dst
      ensures dst == Stored(old(dst), op.pos, readbuf[..][op.psrc..op.psrc + op.nb])
    {
      assert readbuf[op.psrc..op.psrc + op.nb] == readbuf[..][op.psrc..op.psrc + op.nb];
      dst := Stored(dst, op.pos, readbuf[op.psrc..op.psrc + op.nb]);
    }

    method AfterWrite(op: Op, handles: nat)
      requires op.Writing? && op.nb <= op.len
      modifies this`ops, this`nextId, this`pdst, this`total, this`hadError, this`succeeded, this`closing, this`reports
      ensures Contents() == Proceed(config, old(Contents()), op, handles)
    {
      total := total + op.nb;
      if op.nb < op.len {
        IssueRead(op.psrc, op.pos + op.nb, op.len - op.nb);
        return;
      }
      if total == config.fsize {
        Fail(true, handles);
        return;
      }
      if pdst >= config.fsize {
        return;
      }
      var chunk := Chunk(config, pdst);
      IssueRead(op.psrc, pdst, chunk);
      pdst := pdst + chunk;
    }

    method OnTimer(id: nat)
      requires id in ops && ops[id].Waiting?
      modifies this`ops, this`nextId
      ensures Contents() == TimerFires(old(Contents()), id)
    {
      var op := ops[id];
      ops := ops - {id};
      IssueRead(op.psrc, op.pos, op.len);
    }
  }

  /** The system's part of a read. */
  method FillBuffer(buffer: array<Byte>, at: nat, data: seq<Byte>)
    requires at + |data| <= buffer.Length
    modifies buffer
    ensures buffer[..] == Patch(old(buffer[..]), at, data)
  {
    ghost var before := buffer[..];
    for k := 0 to |data|
      invariant forall i :: 0 <= i < buffer.Length ==> buffer[i] == if at <= i < at + k then data[i - at] else before[i]
    {
      buffer[at + k] := data[k];
    }
    assert buffer[..] == Patch(before, at, data);
  }

  lemma {:induction false} SizedIsPositive(c: Config, bufsize: int, concurrency: nat)
    requires c.fsize > 0 && concurrency >= 1 && bufsize == c.chunkSize * concurrency
    ensures var r := Sized(c.fsize, c.chunkSize, bufsize, concurrency);
            && 0 < r.0 <= c.fsize && 1 <= r.1 <= concurrency
            && (r.0 == c.chunkSize * r.1 || (r.1 == 1 && r.0 == c.fsize < c.chunkSize))
            && (r.1 < concurrency ==> c.chunkSize * (r.1 + 1) > c.fsize)
    decreases concurrency
  {
    if bufsize > c.fsize && concurrency > 1 {
      assert bufsize - c.chunkSize == c.chunkSize * (concurrency - 1);
      SizedIsPositive(c, bufsize - c.chunkSize, concurrency - 1);
    }
  }
}
