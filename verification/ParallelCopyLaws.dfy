/** Safety of the parallel file copy in every interleaving of its callbacks. */
module ParallelCopyLaws {
  import opened Sequences
  import opened ParallelCopy

  predicate InRange(op: Op, x: int) { op.pos <= x < op.pos + op.len }

  /** What the operations share: the source, the slot size, the buffer and the end of what was handed out. */
  datatype Shared = Shared(src: seq<Byte>, slot: int, buf: seq<Byte>, pdst: nat)

  function SharedBy(c: Config, s: State): Shared
  {
    Shared(c.src, SlotSize(c, s), s.readbuf, s.pdst)
  }

  /** An operation stays inside its slot of the buffer and inside the part of the file handed out so far. */
  predicate OpFits(h: Shared, op: Op)
  {
    && 1 <= op.len <= h.slot && op.psrc + h.slot <= |h.buf|
    && op.pos + op.len <= h.pdst
    && (op.Writing? ==>
          op.nb <= op.len && op.pos + op.nb <= |h.src|
          && h.buf[op.psrc..op.psrc + op.nb] == h.src[op.pos..op.pos + op.nb])
  }

  /** Two operations use disjoint slots of the buffer and disjoint ranges of the file. */
  predicate Apart(slot: int, a: Op, b: Op)
  {
    && (a.psrc + slot <= b.psrc || b.psrc + slot <= a.psrc)
    && (a.pos + a.len <= b.pos || b.pos + b.len <= a.pos)
  }

  ghost predicate AllFit(h: Shared, ops: map<nat, Op>)
  {
    forall id :: id in ops ==> OpFits(h, ops[id])
  }

  ghost predicate AllApart(slot: int, ops: map<nat, Op>)
  {
    forall i, j :: i in ops && j in ops && i != j ==> Apart(slot, ops[i], ops[j])
  }

  /** What is being copied is not written yet. */
  ghost predicate Unwritten(ops: map<nat, Op>, dst: map<int, Byte>)
  {
    forall x, id :: x in dst && id in ops ==> !InRange(ops[id], x)
  }

  /** Whatever is in the destination is right. */
  ghost predicate AllRight(src: seq<Byte>, pdst: nat, dst: map<int, Byte>)
  {
    forall x :: x in dst ==> 0 <= x < pdst && x < |src| && dst[x] == src[x]
  }

  ghost predicate InFlight(ops: map<nat, Op>, x: int)
  {
    exists id :: id in ops && InRange(ops[id], x)
  }

  /** Written ranges and ranges in flight together are exactly [0, pdst). */
  ghost predicate Tiles(pdst: nat, ops: map<nat, Op>, dst: map<int, Byte>)
  {
    forall x :: 0 <= x < pdst ==> x in dst || InFlight(ops, x)
  }

  ghost predicate Complete(fsize: int, dst: map<int, Byte>)
  {
    forall x :: 0 <= x < fsize ==> x in dst
  }

  predicate IdsFresh(nextId: nat, ops: map<nat, Op>)
  {
    forall id :: id in ops ==> id < nextId
  }

  // ----- Counting -----

  function Range(n: nat): (r: set<int>)
    ensures forall x :: x in r <==> 0 <= x < n
  {
    if n == 0 then {} else Range(n - 1) + {n - 1}
  }

  lemma {:induction false} RangeSize(n: nat)
    ensures |Range(n)| == n
  {
    if n > 0 {
      RangeSize(n - 1);
    }
  }

  /** As many right positions as the file has are all positions. */
  lemma AllWritten(fsize: nat, src: seq<Byte>, pdst: nat, dst: map<int, Byte>)
    requires pdst <= fsize && AllRight(src, pdst, dst) && |dst| == fsize
    ensures Complete(fsize, dst)
  {
    RangeSize(fsize);
    var missing := Range(fsize) - dst.Keys;
    assert dst.Keys <= Range(fsize);
    assert Range(fsize) == dst.Keys + missing;
    assert |dst.Keys| == |dst|;
    assert missing == {};
    forall x | 0 <= x < fsize
      ensures x in dst
    {
      assert x in Range(fsize);
    }
  }

  lemma AddedKey(dst: map<int, Byte>, x: int, b: Byte)
    requires x !in dst
    ensures |dst[x := b]| == |dst| + 1
  {
    assert dst[x := b].Keys == dst.Keys + {x};
    assert |dst.Keys| == |dst| && |dst[x := b].Keys| == |dst[x := b]|;
  }

  lemma {:induction false} StoredSize(dst: map<int, Byte>, pos: int, data: seq<Byte>)
    requires forall x :: pos <= x < pos + |data| ==> x !in dst
    ensures |Stored(dst, pos, data)| == |dst| + |data|
    decreases |data|
  {
    if data != [] {
      var n := |data| - 1;
      StoredSize(dst, pos, data[..n]);
      assert pos + n !in Stored(dst, pos, data[..n]) by {
        StoredAt(dst, pos, data[..n]);
      }
      AddedKey(Stored(dst, pos, data[..n]), pos + n, data[n]);
    }
  }

  // ----- Pieces of a step -----

  /** Filling one operation's slot leaves what the others write untouched. */
  lemma PatchKeeps(h: Shared, ops: map<nat, Op>, id: nat, data: seq<Byte>)
    requires AllFit(h, ops) && AllApart(h.slot, ops) && id in ops && |data| <= ops[id].len
    ensures ops[id].psrc + |data| <= |h.buf|
    ensures AllFit(h.(buf := Patch(h.buf, ops[id].psrc, data)), ops - {id})
  {
    assert OpFits(h, ops[id]);
    forall other | other in ops && other != id
      ensures OpFits(h.(buf := Patch(h.buf, ops[id].psrc, data)), ops[other])
    {
      assert OpFits(h, ops[other]) && Apart(h.slot, ops[other], ops[id]);
      PatchKeepsOther(h, ops[id], ops[other], data);
    }
  }

  lemma PatchKeepsOther(h: Shared, op: Op, other: Op, data: seq<Byte>)
    requires OpFits(h, op) && OpFits(h, other) && Apart(h.slot, other, op) && |data| <= op.len
    ensures OpFits(h.(buf := Patch(h.buf, op.psrc, data)), other)
  {
    var buf := Patch(h.buf, op.psrc, data);
    if other.Writing? {
      assert buf[other.psrc..other.psrc + other.nb] == h.buf[other.psrc..other.psrc + other.nb];
    }
  }

  /** Putting `op` in the place of operation `id`, which had at least its room. */
  lemma ReplaceKeeps(h: Shared, ops: map<nat, Op>, dst: map<int, Byte>, id: nat, key: nat, op: Op)
    requires AllFit(h, ops - {id}) && AllApart(h.slot, ops) && Unwritten(ops - {id}, dst)
    requires id in ops && (key == id || key !in ops) && OpFits(h, op)
    requires op.psrc == ops[id].psrc && ops[id].pos <= op.pos && op.pos + op.len <= ops[id].pos + ops[id].len
    requires forall x :: x in dst ==> !InRange(op, x)
    ensures var after := (ops - {id})[key := op];
            AllFit(h, after) && AllApart(h.slot, after) && Unwritten(after, dst)
  {
    forall other | other in ops - {id}
      ensures Apart(h.slot, ops[other], op) && OpFits(h, ops[other])
    {
      assert OpFits(h, (ops - {id})[other]) && Apart(h.slot, ops[other], ops[id]);
    }
  }

  /** A slot that is free again gets a range of the file that nobody had. */
  lemma ReuseKeeps(h: Shared, ops: map<nat, Op>, dst: map<int, Byte>, id: nat, key: nat, op: Op)
    requires AllFit(h, ops) && AllApart(h.slot, ops) && Unwritten(ops - {id}, dst)
    requires id in ops && (key == id || key !in ops)
    requires op.psrc == ops[id].psrc && op.pos == h.pdst && 1 <= op.len <= h.slot && !op.Writing?
    requires forall x :: x in dst ==> x < h.pdst
    ensures var after := (ops - {id})[key := op];
            AllFit(h.(pdst := h.pdst + op.len), after) && AllApart(h.slot, after) && Unwritten(after, dst)
  {
    assert OpFits(h, ops[id]);
    forall other | other in ops - {id}
      ensures Apart(h.slot, ops[other], op) && OpFits(h.(pdst := h.pdst + op.len), ops[other])
    {
      assert OpFits(h, ops[other]) && Apart(h.slot, ops[other], ops[id]);
    }
  }

  lemma StoredIsRight(src: seq<Byte>, pdst: nat, dst: map<int, Byte>, pos: nat, data: seq<Byte>)
    requires AllRight(src, pdst, dst) && pos + |data| <= |src| && pos + |data| <= pdst
    requires data == src[pos..pos + |data|]
    ensures AllRight(src, pdst, Stored(dst, pos, data))
  {
    StoredAt(dst, pos, data);
    forall x | pos <= x < pos + |data|
      ensures data[x - pos] == src[x]
    {
      assert src[pos..pos + |data|][x - pos] == src[x];
    }
  }

  lemma StoreStaysApart(slot: int, ops: map<nat, Op>, dst: map<int, Byte>, id: nat, data: seq<Byte>)
    requires AllApart(slot, ops) && Unwritten(ops, dst) && id in ops && |data| <= ops[id].len
    ensures Unwritten(ops - {id}, Stored(dst, ops[id].pos, data))
    ensures |Stored(dst, ops[id].pos, data)| == |dst| + |data|
  {
    var op := ops[id];
    forall x | op.pos <= x < op.pos + |data|
      ensures x !in dst
    {
      assert InRange(op, x);
    }
    StoredSize(dst, op.pos, data);
    StoredAt(dst, op.pos, data);
    forall x, other | op.pos <= x < op.pos + |data| && other in ops - {id}
      ensures !InRange(ops[other], x)
    {
      assert Apart(slot, ops[other], op);
    }
  }

  /** Storing what a write had in its slot. */
  lemma StoreKeeps(h: Shared, ops: map<nat, Op>, dst: map<int, Byte>, id: nat)
    requires AllFit(h, ops) && AllApart(h.slot, ops) && Unwritten(ops, dst) && AllRight(h.src, h.pdst, dst)
    requires id in ops && ops[id].Writing?
    ensures var op := ops[id];
            && op.psrc + op.nb <= |h.buf|
            && var after := Stored(dst, op.pos, h.buf[op.psrc..op.psrc + op.nb]);
               && Unwritten(ops - {id}, after) && AllRight(h.src, h.pdst, after)
               && |after| == |dst| + op.nb
  {
    var op := ops[id];
    assert OpFits(h, op);
    var data := h.buf[op.psrc..op.psrc + op.nb];
    StoreStaysApart(h.slot, ops, dst, id, data);
    StoredIsRight(h.src, h.pdst, dst, op.pos, data);
  }

  /** Tiling after operation `id` has stored the first `nb` bytes of its range and `op` took over the rest, if any. */
  lemma TilesAfterStore(pdst: nat, ops: map<nat, Op>, dst: map<int, Byte>, after: map<int, Byte>, id: nat, ops': map<nat, Op>)
    requires Tiles(pdst, ops, dst) && id in ops
    requires forall x :: x in dst ==> x in after
    requires forall other :: other in ops && other != id ==> other in ops' && ops'[other] == ops[other]
    requires forall x :: InRange(ops[id], x) ==> x in after || InFlight(ops', x)
    ensures Tiles(pdst, ops', after)
  {
    forall x | 0 <= x < pdst
      ensures x in after || InFlight(ops', x)
    {
      if x !in dst {
        var i :| i in ops && InRange(ops[i], x);
        if i != id {
          assert i in ops' && InRange(ops'[i], x);
        }
      }
    }
  }

  /** All that relates the operations, the buffer and the destination. */
  ghost predicate Consistent(h: Shared, ops: map<nat, Op>, dst: map<int, Byte>)
  {
    AllFit(h, ops) && AllApart(h.slot, ops) && Unwritten(ops, dst) && AllRight(h.src, h.pdst, dst)
  }

  lemma RemovePiece(h: Shared, ops: map<nat, Op>, dst: map<int, Byte>, id: nat)
    requires Consistent(h, ops, dst)
    ensures Consistent(h, ops - {id}, dst)
  {
  }

  /** A read has filled the slot of `id`; nothing else changes. */
  lemma FillPiece(h: Shared, ops: map<nat, Op>, dst: map<int, Byte>, id: nat, data: seq<Byte>)
    requires Consistent(h, ops, dst) && id in ops && |data| <= ops[id].len
    ensures ops[id].psrc + |data| <= |h.buf|
    ensures Consistent(h.(buf := Patch(h.buf, ops[id].psrc, data)), ops - {id}, dst)
  {
    PatchKeeps(h, ops, id, data);
    RemovePiece(h, ops, dst, id);
  }

  /** ... and the bytes are on their way to the destination. */
  lemma WritePiece(h: Shared, ops: map<nat, Op>, dst: map<int, Byte>, id: nat, nb: nat)
    requires Consistent(h, ops, dst) && Tiles(h.pdst, ops, dst)
    requires id in ops && nb <= ops[id].len && ops[id].pos + nb <= |h.src|
    ensures ops[id].psrc + nb <= |h.buf|
    ensures var op := ops[id];
            var after := (ops - {id})[id := Writing(op.psrc, op.pos, op.len, nb)];
            && Consistent(h.(buf := Patch(h.buf, op.psrc, h.src[op.pos..op.pos + nb])), after, dst)
            && Tiles(h.pdst, after, dst)
  {
    var op, data := ops[id], h.src[ops[id].pos..ops[id].pos + nb];
    assert OpFits(h, op);
    FillPiece(h, ops, dst, id, data);
    var h' := h.(buf := Patch(h.buf, op.psrc, data));
    var writing := Writing(op.psrc, op.pos, op.len, nb);
    var after := (ops - {id})[id := writing];
    assert h'.buf[op.psrc..op.psrc + nb] == data;
    ReplaceKeeps(h', ops, dst, id, id, writing);
    InFlightBy(after, id);
    TilesAfterStore(h.pdst, ops, dst, dst, id, after);
  }

  lemma InFlightBy(ops: map<nat, Op>, id: nat)
    requires id in ops
    ensures forall x :: InRange(ops[id], x) ==> InFlight(ops, x)
  {
  }

  /** The same range is tried again. */
  lemma RetryPiece(h: Shared, ops: map<nat, Op>, dst: map<int, Byte>, id: nat, key: nat, again: Op)
    requires Consistent(h, ops, dst) && Tiles(h.pdst, ops, dst)
    requires id in ops && key !in ops && !again.Writing?
    requires again.psrc == ops[id].psrc && again.pos == ops[id].pos && again.len == ops[id].len
    ensures var after := (ops - {id})[key := again];
            Consistent(h, after, dst) && Tiles(h.pdst, after, dst)
  {
    assert OpFits(h, ops[id]);
    RemovePiece(h, ops, dst, id);
    ReplaceKeeps(h, ops, dst, id, key, again);
    var after := (ops - {id})[key := again];
    InFlightBy(after, key);
    TilesAfterStore(h.pdst, ops, dst, dst, id, after);
  }

  /** The destination after the write of operation `id`. */
  function StoredBy(h: Shared, op: Op, dst: map<int, Byte>): map<int, Byte>
    requires op.Writing? && op.psrc + op.nb <= |h.buf|
  {
    Stored(dst, op.pos, h.buf[op.psrc..op.psrc + op.nb])
  }

  lemma StoredByAt(h: Shared, op: Op, dst: map<int, Byte>)
    requires op.Writing? && op.psrc + op.nb <= |h.buf|
    ensures forall x :: x in StoredBy(h, op, dst) <==> x in dst || op.pos <= x < op.pos + op.nb
  {
    var data := h.buf[op.psrc..op.psrc + op.nb];
    assert |data| == op.nb && StoredBy(h, op, dst) == Stored(dst, op.pos, data);
    StoredAt(dst, op.pos, data);
  }

  lemma StorePiece(h: Shared, ops: map<nat, Op>, dst: map<int, Byte>, id: nat)
    requires Consistent(h, ops, dst) && id in ops && ops[id].Writing?
    ensures OpFits(h, ops[id])
    ensures Consistent(h, ops - {id}, StoredBy(h, ops[id], dst))
    ensures |StoredBy(h, ops[id], dst)| == |dst| + ops[id].nb
  {
    assert OpFits(h, ops[id]);
    StoreKeeps(h, ops, dst, id);
    RemovePiece(h, ops, dst, id);
  }

  /** After a short read, the rest of the chunk goes through the same slot. */
  lemma ContinuePiece(h: Shared, ops: map<nat, Op>, dst: map<int, Byte>, id: nat, key: nat, rest: Op)
    requires Consistent(h, ops, dst) && Tiles(h.pdst, ops, dst)
    requires id in ops && ops[id].Writing? && key !in ops && !rest.Writing?
    requires ops[id].nb < ops[id].len
    requires rest.psrc == ops[id].psrc && rest.pos == ops[id].pos + ops[id].nb && rest.len == ops[id].len - ops[id].nb
    ensures OpFits(h, ops[id])
    ensures var after, dst' := (ops - {id})[key := rest], StoredBy(h, ops[id], dst);
            Consistent(h, after, dst') && Tiles(h.pdst, after, dst')
  {
    var op := ops[id];
    StorePiece(h, ops, dst, id);
    var after, dst' := (ops - {id})[key := rest], StoredBy(h, op, dst);
    StoredByAt(h, op, dst);
    forall x | x in dst'
      ensures !InRange(rest, x)
    {
      assert x in dst ==> !InRange(op, x);
    }
    ReplaceKeeps(h, ops, dst', id, key, rest);
    InFlightBy(after, key);
    TilesAfterStore(h.pdst, ops, dst, dst', id, after);
  }

  /** ... and that rest is not written yet. */
  lemma RestIsMissing(h: Shared, ops: map<nat, Op>, dst: map<int, Byte>, id: nat)
    requires Consistent(h, ops, dst) && id in ops && ops[id].Writing? && ops[id].nb < ops[id].len
    ensures OpFits(h, ops[id])
    ensures ops[id].pos + ops[id].nb < h.pdst && ops[id].pos + ops[id].nb !in StoredBy(h, ops[id], dst)
  {
    assert OpFits(h, ops[id]) && InRange(ops[id], ops[id].pos + ops[id].nb);
    StoredByAt(h, ops[id], dst);
  }

  /** After a full chunk, this pipeline ends. */
  lemma RetirePiece(h: Shared, ops: map<nat, Op>, dst: map<int, Byte>, id: nat)
    requires Consistent(h, ops, dst) && Tiles(h.pdst, ops, dst)
    requires id in ops && ops[id].Writing? && ops[id].nb == ops[id].len
    ensures OpFits(h, ops[id])
    ensures Tiles(h.pdst, ops - {id}, StoredBy(h, ops[id], dst))
  {
    assert OpFits(h, ops[id]);
    StoredByAt(h, ops[id], dst);
    TilesAfterStore(h.pdst, ops, dst, StoredBy(h, ops[id], dst), id, ops - {id});
  }

  /** After a full chunk, the next one goes through the slot that is free again. */
  lemma MovePiece(h: Shared, ops: map<nat, Op>, dst: map<int, Byte>, id: nat, key: nat, next: Op)
    requires Consistent(h, ops, dst)
    requires id in ops && ops[id].Writing? && ops[id].nb == ops[id].len && key !in ops && !next.Writing?
    requires next.psrc == ops[id].psrc && next.pos == h.pdst && 1 <= next.len <= h.slot
    ensures OpFits(h, ops[id])
    ensures var after, dst' := (ops - {id})[key := next], StoredBy(h, ops[id], dst);
            && Consistent(h.(pdst := h.pdst + next.len), after, dst')
            && Consistent(h.(pdst := h.pdst + next.len), ops - {id}, dst')
            && (Tiles(h.pdst, ops, dst) ==> Tiles(h.pdst + next.len, after, dst'))
  {
    StorePiece(h, ops, dst, id);
    var after, dst' := (ops - {id})[key := next], StoredBy(h, ops[id], dst);
    ReuseKeeps(h, ops, dst', id, key, next);
    FitFurther(h, ops - {id}, next.len);
    if Tiles(h.pdst, ops, dst) {
      RetirePiece(h, ops, dst, id);
      InFlightBy(after, key);
      forall x | 0 <= x < h.pdst + next.len
        ensures x in dst' || InFlight(after, x)
      {
        if x < h.pdst && x !in dst' {
          var i :| i in ops - {id} && InRange((ops - {id})[i], x);
          assert i in after && InRange(after[i], x);
        }
      }
    }
  }

  lemma FitFurther(h: Shared, ops: map<nat, Op>, n: nat)
    requires AllFit(h, ops)
    ensures AllFit(h.(pdst := h.pdst + n), ops)
  {
  }

  // ----- The invariant -----

  predicate Live(s: State) { s.phase.Running? && !s.hadError && !s.destroyed }

  predicate SizesGood(c: Config, s: State)
  {
    && s.pdst <= (if c.fsize > 0 then c.fsize else 0)
    && (s.phase.Running? && c.fsize > 0 ==>
          |s.readbuf| == s.bufsize && 1 <= s.bufsize <= c.fsize && (s.bufsize < c.chunkSize ==> s.bufsize == c.fsize))
    && (s.ops.Keys != {} ==> s.phase.Running? && c.fsize > 0)
    && IdsFresh(s.nextId, s.ops)
  }

  ghost predicate ReportsGood(c: Config, s: State)
  {
    && (s.hadError ==> s.reports == if s.closing > 0 then [] else [s.succeeded])
    && (!s.hadError ==> s.closing == 0 && s.reports == if s.phase.AllocFailed? then [false] else [])
    && (s.hadError && s.succeeded ==> Complete(c.fsize, s.dst))
  }

  ghost predicate Advances(c: Config, s: State)
  {
    && (!s.hadError ==> s.total == |s.dst|)
    && (Live(s) ==> Tiles(s.pdst, s.ops, s.dst) && s.total < c.fsize && (s.pdst < c.fsize ==> s.ops.Keys != {}))
  }

  /** While the file mode is being set, nothing has been read yet and the buffer is sized. */
  predicate IsPrepared(c: Config, s: State)
  {
    && s.phase.Preparing? && c.fsize > 0
    && s == INITIAL.(phase := s.phase, bufsize := s.bufsize, readbuf := s.readbuf,
                     pausing := s.pausing, destroyed := s.destroyed)
    && var concurrency := s.phase.concurrency;
       && concurrency >= 1 && |s.readbuf| == s.bufsize && 1 <= s.bufsize <= c.fsize
       && (s.bufsize == c.chunkSize * concurrency || (concurrency == 1 && s.bufsize == c.fsize < c.chunkSize))
  }

  /** What holds in every reachable state. */
  ghost predicate Inv(c: Config, s: State)
  {
    && SizesGood(c, s) && Consistent(SharedBy(c, s), s.ops, s.dst) && ReportsGood(c, s) && Advances(c, s)
    && (s.phase.Preparing? ==> IsPrepared(c, s))
  }

  lemma OnErrorKeeps(c: Config, s: State, ok: bool, handles: nat)
    requires SizesGood(c, s) && Consistent(SharedBy(c, s), s.ops, s.dst) && ReportsGood(c, s)
    requires s.phase.Running? && !s.hadError
    requires ok ==> Complete(c.fsize, s.dst)
    ensures Inv(c, OnError(s, ok, handles))
  {
    assert SharedBy(c, OnError(s, ok, handles)) == SharedBy(c, s);
  }

  lemma CloseKeeps(c: Config, s: State)
    requires Inv(c, s) && s.closing > 0
    ensures Inv(c, CloseReturns(s))
  {
    assert SharedBy(c, CloseReturns(s)) == SharedBy(c, s);
  }

  /** The operation that `singleRead` puts up. */
  function NewOp(s: State, psrc: nat, pos: nat, len: nat): Op
  {
    if s.pausing then Waiting(psrc, pos, len) else Reading(psrc, pos, len)
  }

  lemma TimerKeeps(c: Config, s: State, id: nat)
    requires Inv(c, s) && id in s.ops && s.ops[id].Waiting?
    ensures Inv(c, TimerFires(s, id))
  {
    var op, after, h := s.ops[id], TimerFires(s, id), SharedBy(c, s);
    assert SharedBy(c, after) == h;
    if s.destroyed || s.hadError {
      RemovePiece(h, s.ops, s.dst, id);
    } else {
      RetryPiece(h, s.ops, s.dst, id, s.nextId, NewOp(s, op.psrc, op.pos, op.len));
      assert after.ops == (s.ops - {id})[s.nextId := NewOp(s, op.psrc, op.pos, op.len)];
      assert s.nextId in after.ops.Keys;
    }
  }

  /** The state in which a read has filled its slot and is no longer outstanding. */
  function Filled(c: Config, s: State, id: nat, nb: nat): State
    requires CanReadReturn(c, s, id, nb)
  {
    var op := s.ops[id];
    s.(ops := s.ops - {id}, readbuf := Patch(s.readbuf, op.psrc, c.src[op.pos..op.pos + nb]))
  }

  lemma FilledConsistent(c: Config, s: State, id: nat, nb: nat)
    requires Consistent(SharedBy(c, s), s.ops, s.dst) && CanReadReturn(c, s, id, nb)
    ensures var f := Filled(c, s, id, nb);
            Consistent(SharedBy(c, f), f.ops, f.dst)
  {
    var op := s.ops[id];
    FillPiece(SharedBy(c, s), s.ops, s.dst, id, c.src[op.pos..op.pos + nb]);
  }

  lemma FilledRest(c: Config, s: State, id: nat, nb: nat)
    requires SizesGood(c, s) && ReportsGood(c, s) && CanReadReturn(c, s, id, nb)
    ensures var f := Filled(c, s, id, nb);
            SizesGood(c, f) && ReportsGood(c, f)
  {
    assert id in s.ops.Keys;
  }

  /** The state in which the bytes of a read are on their way to the destination. */
  function Passed(c: Config, s: State, id: nat, nb: nat): State
    requires CanReadReturn(c, s, id, nb)
  {
    var op := s.ops[id];
    Filled(c, s, id, nb).(ops := (s.ops - {id})[id := Writing(op.psrc, op.pos, op.len, nb)])
  }

  lemma ReadShape(c: Config, s: State, id: nat, nb: nat, handles: nat)
    requires CanReadReturn(c, s, id, nb) && !s.hadError && !s.destroyed
    ensures ReadReturns(c, s, id, false, nb, handles) == Passed(c, s, id, nb)
  {
    var op := s.ops[id];
    assert s.ops[id := Writing(op.psrc, op.pos, op.len, nb)] == (s.ops - {id})[id := Writing(op.psrc, op.pos, op.len, nb)];
  }

  lemma PassedConsistent(c: Config, s: State, id: nat, nb: nat)
    requires Consistent(SharedBy(c, s), s.ops, s.dst) && Tiles(s.pdst, s.ops, s.dst) && CanReadReturn(c, s, id, nb)
    ensures var after := Passed(c, s, id, nb);
            Consistent(SharedBy(c, after), after.ops, after.dst)
  {
    WritePiece(SharedBy(c, s), s.ops, s.dst, id, nb);
  }

  lemma PassedTiles(c: Config, s: State, id: nat, nb: nat)
    requires Consistent(SharedBy(c, s), s.ops, s.dst) && Tiles(s.pdst, s.ops, s.dst) && CanReadReturn(c, s, id, nb)
    ensures Tiles(s.pdst, Passed(c, s, id, nb).ops, s.dst)
  {
    WritePiece(SharedBy(c, s), s.ops, s.dst, id, nb);
  }

  lemma PassedRest(c: Config, s: State, id: nat, nb: nat)
    requires SizesGood(c, s) && ReportsGood(c, s) && CanReadReturn(c, s, id, nb)
    ensures var after := Passed(c, s, id, nb);
            SizesGood(c, after) && ReportsGood(c, after) && after.ops.Keys != {}
  {
    assert id in Passed(c, s, id, nb).ops.Keys;
  }

  lemma ReadGoesOn(c: Config, s: State, id: nat, nb: nat, handles: nat)
    requires Inv(c, s) && CanReadReturn(c, s, id, nb) && Live(s)
    ensures Inv(c, ReadReturns(c, s, id, false, nb, handles))
  {
    PassedConsistent(c, s, id, nb);
    PassedTiles(c, s, id, nb);
    PassedRest(c, s, id, nb);
    ReadShape(c, s, id, nb, handles);
  }

  lemma ReadKeeps(c: Config, s: State, id: nat, failed: bool, nb: nat, handles: nat)
    requires Inv(c, s) && CanReadReturn(c, s, id, nb)
    ensures Inv(c, ReadReturns(c, s, id, failed, nb, handles))
  {
    FilledConsistent(c, s, id, nb);
    FilledRest(c, s, id, nb);
    var f := Filled(c, s, id, nb);
    if !s.hadError && failed {
      OnErrorKeeps(c, f, false, handles);
    } else if s.hadError || s.destroyed {
      assert ReadReturns(c, s, id, failed, nb, handles) == f;
    } else {
      ReadGoesOn(c, s, id, nb, handles);
    }
  }

  // ----- A write comes back -----

  /** The state once the bytes of a write are stored and counted. */
  function Settled(c: Config, s: State, id: nat): State
    requires CanWriteReturn(s, id)
  {
    var op := s.ops[id];
    s.(ops := s.ops - {id}, dst := StoredBy(SharedBy(c, s), op, s.dst),
       total := if s.hadError then s.total else s.total + op.nb)
  }

  lemma SettledConsistent(c: Config, s: State, id: nat)
    requires Consistent(SharedBy(c, s), s.ops, s.dst) && CanWriteReturn(s, id)
    ensures var f := Settled(c, s, id);
            && Consistent(SharedBy(c, f), f.ops, f.dst)
            && |f.dst| == |s.dst| + s.ops[id].nb
  {
    StorePiece(SharedBy(c, s), s.ops, s.dst, id);
  }

  lemma SettledRest(c: Config, s: State, id: nat)
    requires SizesGood(c, s) && ReportsGood(c, s) && CanWriteReturn(s, id)
    ensures var f := Settled(c, s, id);
            SizesGood(c, f) && ReportsGood(c, f)
  {
    assert id in s.ops.Keys;
    StoredByAt(SharedBy(c, s), s.ops[id], s.dst);
  }

  lemma SettledKeeps(c: Config, s: State, id: nat)
    requires SizesGood(c, s) && Consistent(SharedBy(c, s), s.ops, s.dst) && ReportsGood(c, s) && CanWriteReturn(s, id)
    requires !s.hadError ==> s.total == |s.dst|
    ensures var f := Settled(c, s, id);
            && SizesGood(c, f) && Consistent(SharedBy(c, f), f.ops, f.dst) && ReportsGood(c, f)
            && (!s.hadError ==> |f.dst| == f.total <= c.fsize)
  {
    SettledConsistent(c, s, id);
    SettledRest(c, s, id);
    assert id in s.ops.Keys;
    DstFits(c.fsize, c.src, s.pdst, Settled(c, s, id).dst);
  }

  lemma DstFits(fsize: nat, src: seq<Byte>, pdst: nat, dst: map<int, Byte>)
    requires pdst <= fsize && AllRight(src, pdst, dst)
    ensures |dst| <= fsize
    ensures forall x :: 0 <= x < fsize && x !in dst ==> |dst| < fsize
  {
    RangeSize(fsize);
    SubsetSize(dst.Keys, Range(fsize));
    assert |dst.Keys| == |dst|;
    forall x | 0 <= x < fsize && x !in dst
      ensures |dst| < fsize
    {
      SubsetSize(dst.Keys, Range(fsize) - {x});
    }
  }

  lemma SubsetSize(a: set<int>, b: set<int>)
    requires a <= b
    ensures |a| <= |b|
  {
    assert b == a + (b - a);
  }

  // The result of `WriteReturns`, branch by branch.

  /** What is still to be read of the chunk of a write. */
  function RestOf(s: State, op: Op): (rest: Op)
    requires op.Writing? && op.nb < op.len
  {
    NewOp(s, op.psrc, op.pos + op.nb, op.len - op.nb)
  }

  function Continued(c: Config, s: State, id: nat): State
    requires CanWriteReturn(s, id) && s.ops[id].nb < s.ops[id].len
  {
    Settled(c, s, id).(ops := (s.ops - {id})[s.nextId := RestOf(s, s.ops[id])], nextId := s.nextId + 1)
  }

  function Moved(c: Config, s: State, id: nat): State
    requires CanWriteReturn(s, id) && s.pdst < c.fsize
  {
    var chunk := Chunk(c, s.pdst);
    Settled(c, s, id).(
      ops := (s.ops - {id})[s.nextId := NewOp(s, s.ops[id].psrc, s.pdst, chunk)], nextId := s.nextId + 1,
      pdst := s.pdst + chunk)
  }

  lemma ContinueShape(c: Config, s: State, id: nat, handles: nat)
    requires CanWriteReturn(s, id) && !s.hadError && !s.destroyed && s.ops[id].nb < s.ops[id].len
    ensures WriteReturns(c, s, id, false, handles) == Continued(c, s, id)
  {
  }

  lemma CompleteShape(c: Config, s: State, id: nat, handles: nat)
    requires CanWriteReturn(s, id) && !s.hadError && s.ops[id].nb == s.ops[id].len && s.total + s.ops[id].nb == c.fsize
    ensures WriteReturns(c, s, id, false, handles) == OnError(Settled(c, s, id), true, handles)
  {
  }

  lemma RestShape(c: Config, s: State, id: nat, handles: nat)
    requires CanWriteReturn(s, id)
    requires s.hadError || (s.destroyed && s.ops[id].nb < s.ops[id].len)
             || (s.ops[id].nb == s.ops[id].len && s.total + s.ops[id].nb != c.fsize && s.pdst >= c.fsize)
    ensures WriteReturns(c, s, id, false, handles) == Settled(c, s, id)
  {
  }

  lemma MoveShape(c: Config, s: State, id: nat, handles: nat)
    requires CanWriteReturn(s, id) && !s.hadError && s.ops[id].nb == s.ops[id].len
    requires s.total + s.ops[id].nb != c.fsize && s.pdst < c.fsize
    ensures WriteReturns(c, s, id, false, handles) ==
            if s.destroyed then Settled(c, s, id).(pdst := s.pdst + Chunk(c, s.pdst)) else Moved(c, s, id)
  {
  }

  lemma ContinuedConsistent(c: Config, s: State, id: nat)
    requires Consistent(SharedBy(c, s), s.ops, s.dst) && Tiles(s.pdst, s.ops, s.dst)
    requires CanWriteReturn(s, id) && s.ops[id].nb < s.ops[id].len && IdsFresh(s.nextId, s.ops)
    ensures var after := Continued(c, s, id);
            Consistent(SharedBy(c, s), after.ops, after.dst) && Tiles(s.pdst, after.ops, after.dst)
  {
    ContinuePiece(SharedBy(c, s), s.ops, s.dst, id, s.nextId, RestOf(s, s.ops[id]));
  }

  lemma ContinuedRest(c: Config, s: State, id: nat)
    requires SizesGood(c, s) && ReportsGood(c, s) && !s.hadError
    requires CanWriteReturn(s, id) && s.ops[id].nb < s.ops[id].len
    ensures var after := Continued(c, s, id);
            SizesGood(c, after) && ReportsGood(c, after) && after.ops.Keys != {}
  {
    assert id in s.ops.Keys && s.nextId in Continued(c, s, id).ops.Keys;
  }

  /** A short read: the rest of the chunk is read into the same slot. */
  lemma WriteContinues(c: Config, s: State, id: nat, handles: nat)
    requires Inv(c, s) && CanWriteReturn(s, id) && Live(s) && s.ops[id].nb < s.ops[id].len
    ensures Inv(c, WriteReturns(c, s, id, false, handles))
  {
    var after := Continued(c, s, id);
    SettledKeeps(c, s, id);
    ContinuedConsistent(c, s, id);
    ContinuedRest(c, s, id);
    RestIsMissing(SharedBy(c, s), s.ops, s.dst, id);
    DstFits(c.fsize, c.src, s.pdst, after.dst);
    ContinueShape(c, s, id, handles);
  }

  /** The last bytes: success is decided. */
  lemma WriteCompletes(c: Config, s: State, id: nat, handles: nat)
    requires Inv(c, s) && CanWriteReturn(s, id) && !s.hadError && s.ops[id].nb == s.ops[id].len
    requires s.total + s.ops[id].nb == c.fsize
    ensures Inv(c, WriteReturns(c, s, id, false, handles))
  {
    var f := Settled(c, s, id);
    SettledKeeps(c, s, id);
    AllWritten(c.fsize, c.src, f.pdst, f.dst);
    OnErrorKeeps(c, f, true, handles);
    CompleteShape(c, s, id, handles);
  }

  /** The file is handed out completely: this pipeline ends. */
  lemma WriteRetires(c: Config, s: State, id: nat, handles: nat)
    requires Inv(c, s) && CanWriteReturn(s, id) && !s.hadError && s.ops[id].nb == s.ops[id].len
    requires s.total + s.ops[id].nb != c.fsize && s.pdst >= c.fsize
    ensures Inv(c, WriteReturns(c, s, id, false, handles))
  {
    var f := Settled(c, s, id);
    SettledKeeps(c, s, id);
    RestShape(c, s, id, handles);
    if Live(s) {
      RetirePiece(SharedBy(c, s), s.ops, s.dst, id);
    }
  }

  lemma MovedConsistent(c: Config, s: State, id: nat)
    requires Consistent(SharedBy(c, s), s.ops, s.dst) && IdsFresh(s.nextId, s.ops)
    requires CanWriteReturn(s, id) && s.ops[id].nb == s.ops[id].len && s.pdst < c.fsize
    requires 1 <= Chunk(c, s.pdst) <= SlotSize(c, s)
    ensures var h, chunk := SharedBy(c, s), Chunk(c, s.pdst);
            var after := Moved(c, s, id);
            && Consistent(h.(pdst := h.pdst + chunk), after.ops, after.dst)
            && Consistent(h.(pdst := h.pdst + chunk), s.ops - {id}, after.dst)
            && (Tiles(s.pdst, s.ops, s.dst) ==> Tiles(after.pdst, after.ops, after.dst))
  {
    var chunk := Chunk(c, s.pdst);
    MovePiece(SharedBy(c, s), s.ops, s.dst, id, s.nextId, NewOp(s, s.ops[id].psrc, s.pdst, chunk));
  }

  lemma MovedRest(c: Config, s: State, id: nat)
    requires SizesGood(c, s) && ReportsGood(c, s) && !s.hadError && CanWriteReturn(s, id) && s.pdst < c.fsize
    ensures var after := Moved(c, s, id);
            SizesGood(c, after) && ReportsGood(c, after) && after.ops.Keys != {}
    ensures var after := Settled(c, s, id).(pdst := s.pdst + Chunk(c, s.pdst));
            SizesGood(c, after) && ReportsGood(c, after)
  {
    assert id in s.ops.Keys && s.nextId in Moved(c, s, id).ops.Keys;
  }

  lemma ChunkFits(c: Config, s: State)
    requires SizesGood(c, s) && s.phase.Running? && s.pdst < c.fsize
    ensures 1 <= Chunk(c, s.pdst) <= SlotSize(c, s)
  {
  }

  lemma LiveMoves(c: Config, s: State, id: nat)
    requires SizesGood(c, s) && Consistent(SharedBy(c, s), s.ops, s.dst) && ReportsGood(c, s) && Advances(c, s)
    requires CanWriteReturn(s, id) && Live(s) && s.ops[id].nb == s.ops[id].len
    requires s.total + s.ops[id].nb != c.fsize && s.pdst < c.fsize && 1 <= Chunk(c, s.pdst) <= SlotSize(c, s)
    ensures Inv(c, Moved(c, s, id))
  {
    MovedAdvances(c, s, id);
    MovedConsistent(c, s, id);
    MovedRest(c, s, id);
  }

  lemma MovedAdvances(c: Config, s: State, id: nat)
    requires SizesGood(c, s) && Consistent(SharedBy(c, s), s.ops, s.dst) && ReportsGood(c, s) && Advances(c, s)
    requires CanWriteReturn(s, id) && Live(s) && s.ops[id].nb == s.ops[id].len
    requires s.total + s.ops[id].nb != c.fsize && s.pdst < c.fsize && 1 <= Chunk(c, s.pdst) <= SlotSize(c, s)
    ensures Advances(c, Moved(c, s, id))
  {
    SettledKeeps(c, s, id);
    MovedConsistent(c, s, id);
    assert s.nextId in Moved(c, s, id).ops.Keys;
  }

  lemma DestroyedMoves(c: Config, s: State, id: nat)
    requires SizesGood(c, s) && Consistent(SharedBy(c, s), s.ops, s.dst) && ReportsGood(c, s) && Advances(c, s)
    requires CanWriteReturn(s, id) && !s.hadError && s.destroyed && s.ops[id].nb == s.ops[id].len
    requires s.pdst < c.fsize && 1 <= Chunk(c, s.pdst) <= SlotSize(c, s)
    ensures Inv(c, Settled(c, s, id).(pdst := s.pdst + Chunk(c, s.pdst)))
  {
    SettledKeeps(c, s, id);
    MovedConsistent(c, s, id);
    MovedRest(c, s, id);
  }

  /** The next chunk of the file goes through the slot that is free again. */
  lemma WriteMovesOn(c: Config, s: State, id: nat, handles: nat)
    requires Inv(c, s) && CanWriteReturn(s, id) && !s.hadError && s.ops[id].nb == s.ops[id].len
    requires s.total + s.ops[id].nb != c.fsize && s.pdst < c.fsize
    ensures Inv(c, WriteReturns(c, s, id, false, handles))
  {
    assert id in s.ops.Keys;
    ChunkFits(c, s);
    if s.destroyed {
      DestroyedMoves(c, s, id);
    } else {
      LiveMoves(c, s, id);
    }
    MoveShape(c, s, id, handles);
  }

  lemma WriteFails(c: Config, s: State, id: nat, handles: nat)
    requires Inv(c, s) && CanWriteReturn(s, id)
    ensures Inv(c, WriteReturns(c, s, id, true, handles))
  {
    var gone := s.(ops := s.ops - {id});
    RemovePiece(SharedBy(c, s), s.ops, s.dst, id);
    assert SharedBy(c, gone) == SharedBy(c, s);
    assert id in s.ops.Keys;
    if !s.hadError {
      OnErrorKeeps(c, gone, false, handles);
    }
  }

  lemma WriteAfterEnd(c: Config, s: State, id: nat, handles: nat)
    requires Inv(c, s) && CanWriteReturn(s, id) && (s.hadError || (s.destroyed && s.ops[id].nb < s.ops[id].len))
    ensures Inv(c, WriteReturns(c, s, id, false, handles))
  {
    SettledKeeps(c, s, id);
    RestShape(c, s, id, handles);
  }

  lemma WriteKeeps(c: Config, s: State, id: nat, failed: bool, handles: nat)
    requires Inv(c, s) && CanWriteReturn(s, id)
    ensures Inv(c, WriteReturns(c, s, id, failed, handles))
  {
    var op := s.ops[id];
    assert OpFits(SharedBy(c, s), op);
    assert id in s.ops.Keys;
    if failed {
      WriteFails(c, s, id, handles);
    } else if s.hadError || (s.destroyed && op.nb < op.len) {
      WriteAfterEnd(c, s, id, handles);
    } else if op.nb < op.len {
      WriteContinues(c, s, id, handles);
    } else if s.total + op.nb == c.fsize {
      WriteCompletes(c, s, id, handles);
    } else if s.pdst >= c.fsize {
      WriteRetires(c, s, id, handles);
    } else {
      WriteMovesOn(c, s, id, handles);
    }
  }
}
