/**
 * The receiving side of remote output (`createStreamProgress`): which chunks
 * are accepted, and what is counted. The sending side numbers the chunks of
 * both streams with one counter. Redaction and UTF-8 decoding are not modelled.
 */
module StreamProgress {
  import opened Options
  import opened Sequences
  import Base64

  datatype Stream = Stdout | Stderr

  /** An output chunk as it arrives; an absent invocation id is the empty string. */
  datatype Chunk = Chunk(stream: Stream, invocationId: string, sequence: Option<int>,
                         data: string, byteLength: Option<int>)

  /** The bytes in a chunk's data (none when it does not decode). */
  function Bytes(c: Chunk): seq<Byte>
  {
    if Base64.IsStrictBase64(c.data) then Base64.Decode(c.data) else []
  }

  datatype Counters = Counters(stdoutBytes: nat, stderrBytes: nat, lastSequence: int, outputChunks: nat)

  const START := Counters(0, 0, 0, 0)

  predicate Accepts(expectedId: string, state: Counters, c: Chunk)
  {
    && !(expectedId != "" && c.invocationId != "" && c.invocationId != expectedId)
    && !(c.sequence.Some? && c.sequence.value != state.lastSequence + 1)
    && Base64.IsStrictBase64(c.data)
    && !(c.byteLength.Some? && c.byteLength.value != |Bytes(c)|)
  }

  function Consumed(expectedId: string, state: Counters, c: Chunk): Counters
  {
    if !Accepts(expectedId, state, c) then state
    else
      var n := |Bytes(c)|;
      Counters(
        state.stdoutBytes + (if c.stream.Stdout? then n else 0),
        state.stderrBytes + (if c.stream.Stderr? then n else 0),
        if c.sequence.Some? then c.sequence.value else state.lastSequence,
        state.outputChunks + 1)
  }

  class Progress {
    const expectedInvocationId: string
    var stdoutBytes: nat
    var stderrBytes: nat
    var lastSequence: int
    var outputChunks: nat

    ghost function State(): Counters
      reads this
    {
      Counters(stdoutBytes, stderrBytes, lastSequence, outputChunks)
    }

    constructor (expectedInvocationId: string)
      ensures State() == START && this.expectedInvocationId == expectedInvocationId
    {
      this.expectedInvocationId := expectedInvocationId;
      stdoutBytes, stderrBytes, lastSequence, outputChunks := 0, 0, 0, 0;
    }

    method Consume(value: Chunk) returns (accepted: bool)
      modifies this
      ensures accepted == Accepts(expectedInvocationId, old(State()), value)
      ensures State() == Consumed(expectedInvocationId, old(State()), value)
    {
      if (expectedInvocationId != "" && value.invocationId != "" && value.invocationId != expectedInvocationId)
         || (value.sequence.Some? && value.sequence.value != lastSequence + 1)
         || !Base64.IsStrictBase64(value.data) {
        return false;
      }
      var chunk := Bytes(value);
      if value.byteLength.Some? && value.byteLength.value != |chunk| {
        return false;
      }
      if value.sequence.Some? {
        lastSequence := value.sequence.value;
      }
      match value.stream {
        case Stdout => stdoutBytes := stdoutBytes + |chunk|;
        case Stderr => stderrBytes := stderrBytes + |chunk|;
      }
      outputChunks := outputChunks + 1;
      return true;
    }
  }

  // ----- Whole runs -----

  /** An accepted chunk, decoded. */
  datatype Received = Received(stream: Stream, sequence: Option<int>, bytes: seq<Byte>)

  datatype Outcome = Outcome(state: Counters, accepted: seq<Received>)

  function Next(expectedId: string, before: Outcome, c: Chunk): Outcome
  {
    Outcome(Consumed(expectedId, before.state, c),
            if Accepts(expectedId, before.state, c)
            then before.accepted + [Received(c.stream, c.sequence, Bytes(c))] else before.accepted)
  }

  function Run(expectedId: string, values: seq<Chunk>): Outcome
    decreases |values|
  {
    if values == [] then Outcome(START, [])
    else Next(expectedId, Run(expectedId, values[..|values| - 1]), values[|values| - 1])
  }

  /** 1, 2, ..., n */
  function CountTo(n: nat): (s: seq<int>)
    ensures |s| == n && forall i :: 0 <= i < n ==> s[i] == i + 1
  {
    if n == 0 then [] else CountTo(n - 1) + [n]
  }

  function Numbers(chunks: seq<Received>): seq<int>
  {
    if chunks == [] then []
    else
      var earlier, last := Numbers(chunks[..|chunks| - 1]), chunks[|chunks| - 1];
      if last.sequence.Some? then earlier + [last.sequence.value] else earlier
  }

  /** The bytes that chunks carry on one stream, in order. */
  function Carried(chunks: seq<Received>, stream: Stream): seq<Byte>
  {
    if chunks == [] then []
    else
      var earlier, last := Carried(chunks[..|chunks| - 1], stream), chunks[|chunks| - 1];
      if last.stream == stream then earlier + last.bytes else earlier
  }

  lemma OneMore(chunks: seq<Received>, c: Received)
    ensures Numbers(chunks + [c]) == if c.sequence.Some? then Numbers(chunks) + [c.sequence.value] else Numbers(chunks)
    ensures forall stream :: Carried(chunks + [c], stream) ==
                             if c.stream == stream then Carried(chunks, stream) + c.bytes else Carried(chunks, stream)
  {
    assert (chunks + [c])[..|chunks|] == chunks;
  }

  /** Numbered chunks are 1, 2, ..., lastSequence; the counters are those of the accepted chunks. */
  ghost predicate Consistent(r: Outcome)
  {
    && r.state.lastSequence >= 0
    && Numbers(r.accepted) == CountTo(r.state.lastSequence)
    && r.state.outputChunks == |r.accepted|
    && r.state.stdoutBytes == |Carried(r.accepted, Stdout)|
    && r.state.stderrBytes == |Carried(r.accepted, Stderr)|
  }

  lemma NextIsConsistent(expectedId: string, before: Outcome, c: Chunk)
    requires Consistent(before)
    ensures Consistent(Next(expectedId, before, c))
  {
    if Accepts(expectedId, before.state, c) {
      OneMore(before.accepted, Received(c.stream, c.sequence, Bytes(c)));
    }
  }

  /**
   * In any run the numbered chunks that were accepted are exactly 1, 2, ..., lastSequence in
   * order, and the counters are the number of accepted chunks and of their bytes on each stream.
   */
  lemma {:induction false} AcceptedAreConsecutive(expectedId: string, values: seq<Chunk>)
    ensures Consistent(Run(expectedId, values))
    decreases |values|
  {
    if values != [] {
      var earlier, c := values[..|values| - 1], values[|values| - 1];
      AcceptedAreConsecutive(expectedId, earlier);
      NextIsConsistent(expectedId, Run(expectedId, earlier), c);
    }
  }

  // ----- What is ignored -----

  /** The chunk names another invocation, is no strict base64, or announces a length that its data does not have. */
  predicate IsForeign(expectedId: string, c: Chunk)
  {
    || (expectedId != "" && c.invocationId != "" && c.invocationId != expectedId)
    || !Base64.IsStrictBase64(c.data)
    || (c.byteLength.Some? && c.byteLength.value != |Base64.Decode(c.data)|)
  }

  /** Of the others, exactly those are accepted that carry no number or the next one. */
  lemma AcceptedNextIff(expectedId: string, values: seq<Chunk>, c: Chunk)
    ensures var before, after := Run(expectedId, values), Run(expectedId, values + [c]);
            if !IsForeign(expectedId, c) && (c.sequence.None? || c.sequence.value == before.state.lastSequence + 1)
            then after.accepted == before.accepted + [Received(c.stream, c.sequence, Base64.Decode(c.data))]
            else after == before
  {
    assert (values + [c])[..|values|] == values;
  }

  /** Wherever such chunks arrive, the outcome is that of the run without them. */
  lemma {:induction false} ForeignIsIgnored(expectedId: string, values: seq<Chunk>)
    ensures Run(expectedId, values) == Run(expectedId, Filter((c: Chunk) => !IsForeign(expectedId, c), values))
    decreases |values|
  {
    if values != [] {
      var earlier, c := values[..|values| - 1], values[|values| - 1];
      var own := (c: Chunk) => !IsForeign(expectedId, c);
      ForeignIsIgnored(expectedId, earlier);
      assert values == earlier + [c];
      FilterAppend(own, earlier, [c]);
      FilterCons(own, c, []);
      assert [c] + [] == [c];
      AcceptedNextIff(expectedId, earlier, c);
      AcceptedNextIff(expectedId, Filter(own, earlier), c);
      if own(c) {
        SameNext(expectedId, earlier, Filter(own, earlier), c);
      } else {
        assert Filter(own, values) == Filter(own, earlier);
      }
    }
  }

  lemma SameNext(expectedId: string, a: seq<Chunk>, b: seq<Chunk>, c: Chunk)
    requires Run(expectedId, a) == Run(expectedId, b)
    ensures Run(expectedId, a + [c]) == Run(expectedId, b + [c])
  {
    assert (a + [c])[..|a|] == a && (b + [c])[..|b|] == b;
  }

  // ----- A sender and a receiver -----

  /** A write of a remote command to one of its streams. */
  datatype Write = Write(stream: Stream, bytes: seq<Byte>)

  /** The chunk that the sender emits for its write number `i + 1`: one counter for both streams. */
  function Emitted(invocationId: string, writes: seq<Write>, i: nat): Chunk
    requires i < |writes|
  {
    Chunk(writes[i].stream, invocationId, Some(i + 1), Base64.Encode(writes[i].bytes), Some(|writes[i].bytes|))
  }

  /** The first `n` writes as a receiver should know them. */
  function Delivered(writes: seq<Write>, n: nat): (r: seq<Received>)
    requires n <= |writes|
    ensures |r| == n
  {
    if n == 0 then []
    else Delivered(writes, n - 1) + [Received(writes[n - 1].stream, Some(n), writes[n - 1].bytes)]
  }

  /** What was accepted is the start of what was written. */
  ghost predicate IsPrefixOfWritten(writes: seq<Write>, r: Outcome)
  {
    && 0 <= r.state.lastSequence <= |writes|
    && r.accepted == Delivered(writes, r.state.lastSequence)
  }

  lemma DeliverOne(invocationId: string, writes: seq<Write>, before: Outcome, i: nat)
    requires IsPrefixOfWritten(writes, before) && i < |writes|
    ensures var after := Next(invocationId, before, Emitted(invocationId, writes, i));
            && IsPrefixOfWritten(writes, after)
            && (before.state.lastSequence == i ==> after.state.lastSequence == i + 1)
  {
    Base64.StrictHasOnePreimage(Base64.Encode(writes[i].bytes), writes[i].bytes);
  }

  ghost predicate WasEmitted(invocationId: string, writes: seq<Write>, c: Chunk)
  {
    exists i :: 0 <= i < |writes| && c == Emitted(invocationId, writes, i)
  }

  /**
   * However the transport drops, repeats or reorders what the sender emitted,
   * the receiver has accepted a prefix of what was written, without gap or repetition.
   */
  lemma {:induction false} AcceptedIsPrefixOfWritten(
      invocationId: string, writes: seq<Write>, delivered: seq<Chunk>)
    requires forall c :: c in delivered ==> WasEmitted(invocationId, writes, c)
    ensures IsPrefixOfWritten(writes, Run(invocationId, delivered))
    decreases |delivered|
  {
    if delivered != [] {
      var n := |delivered| - 1;
      AcceptedIsPrefixOfWritten(invocationId, writes, delivered[..n]);
      assert delivered[n] in delivered;
      var i :| 0 <= i < |writes| && delivered[n] == Emitted(invocationId, writes, i);
      DeliverOne(invocationId, writes, Run(invocationId, delivered[..n]), i);
    }
  }

  function AllOf(invocationId: string, writes: seq<Write>, n: nat): (chunks: seq<Chunk>)
    requires n <= |writes|
    ensures |chunks| == n
  {
    if n == 0 then [] else AllOf(invocationId, writes, n - 1) + [Emitted(invocationId, writes, n - 1)]
  }

  /** Delivered in order, everything is accepted, so the receiver has every byte of both streams. */
  lemma {:induction false} InOrderIsAllAccepted(invocationId: string, writes: seq<Write>, n: nat)
    requires n <= |writes|
    ensures var r := Run(invocationId, AllOf(invocationId, writes, n));
            r.state.lastSequence == n && r.accepted == Delivered(writes, n)
  {
    if n > 0 {
      var earlier := AllOf(invocationId, writes, n - 1);
      InOrderIsAllAccepted(invocationId, writes, n - 1);
      assert AllOf(invocationId, writes, n)[..n - 1] == earlier;
      DeliverOne(invocationId, writes, Run(invocationId, earlier), n - 1);
    }
  }
}
