/** Output of a channel before the first client attaches (`startPreWsBuffer`, `on`). */
module PreAttachBuffer {
  import opened Sequences

  type Chunk = seq<Byte>

  const MAX_BYTES := 256 * 1024

  function Total(chunks: seq<Chunk>): nat
  {
    if chunks == [] then 0 else |chunks[0]| + Total(chunks[1..])
  }

  lemma {:induction false} TotalAppend(a: seq<Chunk>, b: seq<Chunk>)
    ensures Total(a + b) == Total(a) + Total(b)
  {
    if a == [] {
      assert a + b == b;
    } else {
      assert (a + b)[0] == a[0] && (a + b)[1..] == a[1..] + b;
      TotalAppend(a[1..], b);
    }
  }

  /** What is kept of the chunks so far: old ones are dropped while there are too many bytes and more than one chunk. */
  function Retained(chunks: seq<Chunk>): seq<Chunk>
  {
    if Total(chunks) > MAX_BYTES && |chunks| > 1 then Retained(chunks[1..]) else chunks
  }

  /** Dropping as chunks come is the same as dropping at the end. */
  lemma {:induction false} RetainedStepwise(chunks: seq<Chunk>, x: Chunk)
    ensures Retained(Retained(chunks) + [x]) == Retained(chunks + [x])
  {
    if Total(chunks) > MAX_BYTES && |chunks| > 1 {
      RetainedStepwise(chunks[1..], x);
      TotalAppend(chunks, [x]);
      assert (chunks + [x])[1..] == chunks[1..] + [x];
    }
  }

  function DroppedCount(chunks: seq<Chunk>): (k: nat)
    ensures k <= |chunks| && (chunks != [] ==> k < |chunks|)
  {
    if Total(chunks) > MAX_BYTES && |chunks| > 1 then 1 + DroppedCount(chunks[1..]) else 0
  }

  /**
   * What is kept is a suffix of the output, cut between chunks: everything if that fits, otherwise
   * the longest suffix that fits, but never less than the last chunk.
   */
  lemma {:induction false} RetainedIsLongestSuffix(chunks: seq<Chunk>)
    ensures var k := DroppedCount(chunks);
            && Retained(chunks) == chunks[k..]
            && (Total(chunks[k..]) <= 256 * 1024 || k == |chunks| - 1)
            && (k > 0 ==> Total(chunks[k - 1..]) > 256 * 1024)
    ensures DroppedCount(chunks) == 0 <==> Total(chunks) <= 256 * 1024 || |chunks| <= 1
  {
    assert chunks[0..] == chunks;
    if Total(chunks) > MAX_BYTES && |chunks| > 1 {
      var rest := chunks[1..];
      var k := DroppedCount(rest);
      RetainedIsLongestSuffix(rest);
      assert rest[k..] == chunks[k + 1..];
      if k > 0 {
        assert rest[k - 1..] == chunks[k..];
      }
    }
  }

  class PreWsBuffer {
    var buffer: seq<Chunk>
    var bufferBytes: nat
    ghost var early: seq<Chunk>  // all output since the start

    ghost predicate Valid()
      reads this
    {
      buffer == Retained(early) && bufferBytes == Total(buffer)
    }

    constructor ()
      ensures Valid() && early == []
    {
      buffer, bufferBytes, early := [], 0, [];
    }

    method OnData(chunk: Chunk)
      requires Valid()
      modifies this
      ensures Valid() && early == old(early) + [chunk]
    {
      RetainedStepwise(early, chunk);
      TotalAppend(buffer, [chunk]);
      early := early + [chunk];
      buffer := buffer + [chunk];
      bufferBytes := bufferBytes + |chunk|;
      assert Total([chunk]) == |chunk| + Total([]);
      while bufferBytes > MAX_BYTES && |buffer| > 1
        invariant early == old(early) + [chunk]
        invariant Retained(buffer) == Retained(early) && bufferBytes == Total(buffer)
        decreases |buffer|
      {
        var dropped := buffer[0];
        buffer := buffer[1..];
        bufferBytes := bufferBytes - |dropped|;
      }
    }

    /** The first client attaches: it is handed what was kept. */
    method Attach() returns (handed: seq<Chunk>)
      requires Valid()
      modifies this
      ensures handed == Retained(old(early))
      ensures buffer == [] && bufferBytes == 0
    {
      handed := buffer;
      buffer, bufferBytes := [], 0;
    }
  }
}

/**
 * The coalescing of terminal output on its way to the websocket (the data
 * handler of `/terminals/:pid` and `flushBufferedData`). What the two
 * file-transfer detectors answer is part of the input; they may become active
 * only while they are handed data.
 */
module TerminalCoalescer {
  import opened Options
  import opened Sequences
  import opened PreAttachBuffer

  const FLUSH_INTERVAL_MS := 10
  const BYPASS_BYTES := 16384

  /** The answers of the detectors for one piece of data: taken or not, and active afterwards or not. */
  datatype Answers = Answers(zmodemTakes: bool, zmodemActive: bool, trzszTakes: bool, trzszActive: bool)

  const QUIET := Answers(false, false, false, false)

  predicate IsTaken(answers: Answers) { answers.zmodemTakes || answers.trzszTakes }

  datatype Route = ToClient | ToTransfer

  /** A piece of output and where it went. */
  datatype Piece = Piece(data: Chunk, route: Route)

  function AllData(pieces: seq<Piece>): seq<Byte>
  {
    if pieces == [] then [] else AllData(pieces[..|pieces| - 1]) + pieces[|pieces| - 1].data
  }

  /** The messages that went to the client. */
  function ClientData(pieces: seq<Piece>): seq<Chunk>
  {
    if pieces == [] then []
    else
      var last := pieces[|pieces| - 1];
      var earlier := ClientData(pieces[..|pieces| - 1]);
      if last.route.ToClient? then earlier + [last.data] else earlier
  }

  lemma OneMorePiece(pieces: seq<Piece>, p: Piece)
    ensures AllData(pieces + [p]) == AllData(pieces) + p.data
    ensures ClientData(pieces + [p]) == if p.route.ToClient? then ClientData(pieces) + [p.data] else ClientData(pieces)
  {
    assert (pieces + [p])[..|pieces|] == pieces;
  }

  lemma Account(logged: seq<Byte>, sent: seq<Chunk>, pieces: seq<Piece>, p: Piece)
    requires AllData(pieces) == logged && ClientData(pieces) == sent
    ensures AllData(pieces + [p]) == logged + p.data
    ensures ClientData(pieces + [p]) == if p.route.ToClient? then sent + [p.data] else sent
    ensures Flatten(sent) == logged ==> Flatten(sent + [p.data]) == logged + p.data
  {
    OneMorePiece(pieces, p);
    FlattenSnoc(sent, p.data);
  }

  /** The client's messages with one more, unless it is taken away before. */
  function Extended(sent: seq<Chunk>, taken: bool, data: Chunk): seq<Chunk>
  {
    if taken then sent else sent + [data]
  }

  lemma ExtendedTwice(sent: seq<Chunk>, taken: bool, data: Chunk, taken': bool, data': Chunk)
    ensures Extended(sent, taken, data) == sent + (if taken then [] else [data])
    ensures Extended(Extended(sent, taken, data), taken', data') ==
            sent + ((if taken then [] else [data]) + (if taken' then [] else [data']))
  {
  }

  class DataHandler {
    var dataBuffer: seq<Chunk>
    var sendTimeout: Option<int>  // when the timer is due
    var lastFlushTime: int
    var zmodemActive: bool
    var trzszActive: bool
    var logged: seq<Byte>
    var sent: seq<Chunk>
    ghost var received: seq<Byte>
    ghost var pieces: seq<Piece>
    ghost var quiet: bool  // no detector has taken anything so far

    /** The pieces account for what was logged, sent and taken. */
    ghost predicate Accounted()
      reads this
    {
      && AllData(pieces) == logged && ClientData(pieces) == sent
      && (quiet ==> Flatten(sent) == logged && !zmodemActive && !trzszActive)
    }

    ghost predicate Valid()
      reads this
    {
      // nothing is lost, doubled or reordered
      && logged + Flatten(dataBuffer) == received
      && Accounted()
      // waiting data has a timer, due one interval after the last flush, and only waiting data has
      && (sendTimeout.Some? <==> dataBuffer != [])
      && (sendTimeout.Some? ==> sendTimeout.value == lastFlushTime + FLUSH_INTERVAL_MS)
      // transfers never see data out of order
      && (zmodemActive || trzszActive ==> dataBuffer == [])
    }

    constructor ()
      ensures Valid() && received == [] && dataBuffer == [] && quiet
    {
      dataBuffer, sendTimeout, lastFlushTime := [], None, 0;
      zmodemActive, trzszActive, logged, sent := false, false, [], [];
      received, pieces, quiet := [], [], true;
    }

    /** Logs a piece, hands it to the detectors, and to the client if neither takes it. */
    method Deliver(data: Chunk, answers: Answers)
      requires Accounted()
      modifies this`zmodemActive, this`trzszActive, this`logged, this`sent, this`pieces, this`quiet
      ensures Accounted() && logged == old(logged) + data
      ensures quiet == (old(quiet) && answers == QUIET)
      ensures sent == if answers.zmodemTakes || answers.trzszTakes then old(sent) else old(sent) + [data]
      ensures zmodemActive == answers.zmodemActive
      ensures trzszActive == if answers.zmodemTakes then old(trzszActive) else answers.trzszActive
    {
      var taken := IsTaken(answers);
      ghost var piece := Piece(data, if taken then ToTransfer else ToClient);
      Account(logged, sent, pieces, piece);
      pieces := pieces + [piece];
      quiet := quiet && answers == QUIET;
      logged := logged + data;
      sent := if taken then sent else sent + [data];
      zmodemActive := answers.zmodemActive;
      trzszActive := if answers.zmodemTakes then trzszActive else answers.trzszActive;
    }

    method FlushBufferedData(answers: Answers, now: int)
      requires logged + Flatten(dataBuffer) == received && Accounted()
      modifies this
      ensures Valid() && received == old(received) && dataBuffer == []
      ensures logged == old(logged) + Flatten(old(dataBuffer))
      ensures old(dataBuffer) == [] ==> zmodemActive == old(zmodemActive) && trzszActive == old(trzszActive)
      ensures quiet == (old(quiet) && (answers == QUIET || old(dataBuffer) == []))
      ensures sent == Extended(old(sent), old(dataBuffer) == [] || IsTaken(answers), Flatten(old(dataBuffer)))
      ensures lastFlushTime == if old(dataBuffer) == [] then old(lastFlushTime) else now
      ensures old(dataBuffer) != [] ==>
                && zmodemActive == answers.zmodemActive
                && trzszActive == if answers.zmodemTakes then old(trzszActive) else answers.trzszActive
    {
      if dataBuffer == [] {
        sendTimeout := None;
        return;
      }
      lastFlushTime := now;
      var combinedData := Flatten(dataBuffer);
      dataBuffer := [];
      Deliver(combinedData, answers);
      sendTimeout := None;
    }

    /** A chunk while a transfer is active: logged, then handed to the transfer. */
    method Transfer(chunk: Chunk)
      requires Valid() && (zmodemActive || trzszActive)
      modifies this`logged, this`received, this`pieces
      ensures Valid() && received == old(received) + chunk
      ensures logged == old(logged) + chunk
    {
      OneMorePiece(pieces, Piece(chunk, ToTransfer));
      received, pieces := received + chunk, pieces + [Piece(chunk, ToTransfer)];
      logged := logged + chunk;
    }

    /** A very large chunk goes out at once, behind what waits. */
    method Bypass(chunk: Chunk, first: Answers, second: Answers, now: int)
      requires Valid()
      modifies this
      ensures Valid() && received == old(received) + chunk
      ensures old(quiet) && first == second == QUIET ==> quiet
      ensures dataBuffer == []
      ensures sent == Extended(Extended(old(sent), old(dataBuffer) == [] || IsTaken(first), Flatten(old(dataBuffer))),
                               IsTaken(second), chunk)
      ensures zmodemActive == second.zmodemActive && (!second.zmodemTakes ==> trzszActive == second.trzszActive)
    {
      if sendTimeout.Some? {
        sendTimeout := None;
      }
      if dataBuffer != [] {
        FlushBufferedData(first, now);
      }
      received := received + chunk;
      Deliver(chunk, second);
    }

    /** A chunk joins the buffer, which goes out at once after an idle interval. */
    method Buffer(chunk: Chunk, answers: Answers, now: int)
      requires Valid() && !zmodemActive && !trzszActive
      modifies this
      ensures Valid() && received == old(received) + chunk
      ensures old(quiet) && answers == QUIET ==> quiet
      ensures now - old(lastFlushTime) >= FLUSH_INTERVAL_MS ==>
                && dataBuffer == []
                && sent == Extended(old(sent), IsTaken(answers), Flatten(old(dataBuffer) + [chunk]))
                && zmodemActive == answers.zmodemActive && trzszActive == (!answers.zmodemTakes && answers.trzszActive)
      ensures now - old(lastFlushTime) < FLUSH_INTERVAL_MS ==>
                dataBuffer == old(dataBuffer) + [chunk] && sent == old(sent) && !zmodemActive && !trzszActive
    {
      FlattenSnoc(dataBuffer, chunk);
      received := received + chunk;
      dataBuffer := dataBuffer + [chunk];
      var elapsed := now - lastFlushTime;
      if elapsed >= FLUSH_INTERVAL_MS {
        if sendTimeout.Some? {
          sendTimeout := None;
        }
        FlushBufferedData(answers, now);
        return;
      }
      if sendTimeout.None? {
        sendTimeout := Some(now + (FLUSH_INTERVAL_MS - elapsed));
      }
    }

    /**
     * What goes to the client when a chunk arrives. While a transfer is active nothing does. A very
     * large chunk goes out behind what waits, each as its own message unless a detector takes it;
     * any other chunk goes out at once, in one message with what waits, if ten milliseconds have
     * gone by since the last flush, and else waits.
     */
    ghost function MessagesFor(chunk: Chunk, first: Answers, second: Answers, now: int): seq<Chunk>
      reads this
    {
      if zmodemActive || trzszActive then []
      else if |chunk| > 16384 then
        (if dataBuffer == [] || first.zmodemTakes || first.trzszTakes then [] else [Flatten(dataBuffer)])
        + (if second.zmodemTakes || second.trzszTakes then [] else [chunk])
      else if now - lastFlushTime >= 10 && !first.zmodemTakes && !first.trzszTakes then [Flatten(dataBuffer + [chunk])]
      else []
    }

    /** A chunk while no transfer is active. */
    method Plain(chunk: Chunk, first: Answers, second: Answers, now: int)
      requires Valid() && !zmodemActive && !trzszActive
      modifies this
      ensures Valid() && received == old(received) + chunk
      ensures old(quiet) && first == second == QUIET ==> quiet
      ensures sent == old(sent) + old(MessagesFor(chunk, first, second, now))
      ensures dataBuffer == if |chunk| <= 16384 && now - old(lastFlushTime) < 10 then old(dataBuffer) + [chunk] else []
      ensures if |chunk| > 16384 then
                zmodemActive == second.zmodemActive && (!second.zmodemTakes ==> trzszActive == second.trzszActive)
              else if now - old(lastFlushTime) >= 10 then
                zmodemActive == first.zmodemActive && trzszActive == (!first.zmodemTakes && first.trzszActive)
              else !zmodemActive && !trzszActive
    {
      if |chunk| > BYPASS_BYTES {
        ExtendedTwice(sent, dataBuffer == [] || IsTaken(first), Flatten(dataBuffer), IsTaken(second), chunk);
        Bypass(chunk, first, second, now);
      } else {
        ExtendedTwice(sent, IsTaken(first), Flatten(dataBuffer + [chunk]), true, chunk);
        Buffer(chunk, first, now);
      }
    }

    /** A chunk arrives; `first` answers for a flush that it causes, `second` for itself when it is not buffered. */
    method OnData(chunk: Chunk, first: Answers, second: Answers, now: int)
      requires Valid()
      modifies this
      ensures Valid() && received == old(received) + chunk
      ensures old(quiet) && first == second == QUIET ==> quiet
      ensures sent == old(sent) + old(MessagesFor(chunk, first, second, now))
      ensures dataBuffer == if !old(zmodemActive) && !old(trzszActive) && |chunk| <= 16384
                               && now - old(lastFlushTime) < 10 then old(dataBuffer) + [chunk] else []
      // whoever was last asked about data says whether a transfer is active now
      ensures old(zmodemActive) ==> zmodemActive == second.zmodemActive && trzszActive == old(trzszActive)
      ensures !old(zmodemActive) && old(trzszActive) ==> !zmodemActive && trzszActive == second.trzszActive
      ensures !old(zmodemActive) && !old(trzszActive) ==>
                if |chunk| > 16384 then
                  zmodemActive == second.zmodemActive && (!second.zmodemTakes ==> trzszActive == second.trzszActive)
                else if now - old(lastFlushTime) >= 10 then
                  zmodemActive == first.zmodemActive && trzszActive == (!first.zmodemTakes && first.trzszActive)
                else !zmodemActive && !trzszActive
    {
      if zmodemActive {
        Transfer(chunk);
        zmodemActive := second.zmodemActive;
      } else if trzszActive {
        Transfer(chunk);
        trzszActive := second.trzszActive;
      } else {
        Plain(chunk, first, second, now);
      }
    }
  }

  // ----- Whole sessions -----

  /** Either a chunk arrives or the timer fires. */
  datatype Input =
    | Data(chunk: Chunk, first: Answers, second: Answers, now: int)
    | Timer(answers: Answers, now: int)

  predicate IsQuiet(i: Input)
  {
    if i.Data? then i.first == QUIET && i.second == QUIET else i.answers == QUIET
  }

  /** The bytes that arrive with the inputs. */
  function Arrived(inputs: seq<Input>): seq<Byte>
  {
    if inputs == [] then []
    else
      var last := inputs[|inputs| - 1];
      Arrived(inputs[..|inputs| - 1]) + (if last.Data? then last.chunk else [])
  }

  lemma ArrivedSnoc(inputs: seq<Input>, i: Input)
    ensures Arrived(inputs + [i]) == Arrived(inputs) + (if i.Data? then i.chunk else [])
  {
    assert (inputs + [i])[..|inputs|] == inputs;
  }

  /** When a kept chunk is handed over, and what the detectors answer then. */
  datatype Moment = Moment(first: Answers, second: Answers, now: int)

  predicate IsQuietMoment(m: Moment) { m.first == QUIET && m.second == QUIET }

  /**
   * A session until it closes: output before the client attached, handed over chunk by chunk, then
   * any sequence of chunks and timer firings. The log followed by what still waits is exactly the kept early output followed
   * by everything that arrived, in order; without file transfers the client gets the same.
   */
  method Session(early: seq<Chunk>, inputs: seq<Input>, atAttach: seq<Moment>)
    returns (logged: seq<Byte>, sent: seq<Chunk>, waiting: seq<Chunk>, timer: Option<int>, ghost pieces: seq<Piece>)
    requires |atAttach| == |Retained(early)|
    ensures logged + Flatten(waiting) == Flatten(Retained(early)) + Arrived(inputs)
    ensures timer.Some? <==> waiting != []
    ensures AllData(pieces) == logged && ClientData(pieces) == sent
    ensures (forall m :: m in atAttach ==> IsQuietMoment(m)) && (forall i :: i in inputs ==> IsQuiet(i)) ==>
              Flatten(sent) + Flatten(waiting) == Flatten(Retained(early)) + Arrived(inputs)
  {
    var handed := BeforeAttach(early);
    var handler := new DataHandler();
    HandOver(handler, handed, atAttach);
    Feed(handler, inputs);
    logged, sent, waiting, timer := handler.logged, handler.sent, handler.dataBuffer, handler.sendTimeout;
    pieces := handler.pieces;
  }

  method BeforeAttach(early: seq<Chunk>) returns (handed: seq<Chunk>)
    ensures handed == Retained(early)
  {
    var preWs := new PreWsBuffer();
    for i := 0 to |early|
      invariant preWs.Valid() && fresh(preWs) && preWs.early == early[..i]
    {
      assert early[..i + 1] == early[..i] + [early[i]];
      preWs.OnData(early[i]);
    }
    assert early[..|early|] == early;
    handed := preWs.Attach();
  }

  method HandOver(handler: DataHandler, handed: seq<Chunk>, moments: seq<Moment>)
    requires handler.Valid() && |moments| == |handed|
    modifies handler
    ensures handler.Valid() && handler.received == old(handler.received) + Flatten(handed)
    ensures old(handler.quiet) && (forall m :: m in moments ==> IsQuietMoment(m)) ==> handler.quiet
  {
    ghost var before := handler.received;
    ghost var quiet := handler.quiet && forall m :: m in moments ==> IsQuietMoment(m);
    for i := 0 to |handed|
      invariant handler.Valid() && handler.received == before + Flatten(handed[..i])
      invariant quiet ==> handler.quiet
    {
      FlattenNext(before, handed, i);
      var m := moments[i];
      assert m in moments;
      handler.OnData(handed[i], m.first, m.second, m.now);
    }
    assert handed[..|handed|] == handed;
  }

  lemma FlattenNext(before: seq<Byte>, chunks: seq<Chunk>, i: nat)
    requires i < |chunks|
    ensures before + Flatten(chunks[..i + 1]) == before + Flatten(chunks[..i]) + chunks[i]
  {
    FlattenSnoc(chunks[..i], chunks[i]);
    assert chunks[..i + 1] == chunks[..i] + [chunks[i]];
  }

  method FeedOne(handler: DataHandler, input: Input)
    requires handler.Valid()
    modifies handler
    ensures handler.Valid()
    ensures handler.received == old(handler.received) + (if input.Data? then input.chunk else [])
    ensures old(handler.quiet) && IsQuiet(input) ==> handler.quiet
  {
    match input {
      case Data(chunk, first, second, now) => handler.OnData(chunk, first, second, now);
      case Timer(answers, now) =>
        if handler.sendTimeout.Some? {
          handler.FlushBufferedData(answers, now);
        }
    }
  }

  lemma ArrivedNext(before: seq<Byte>, inputs: seq<Input>, i: nat)
    requires i < |inputs|
    ensures inputs[i] in inputs
    ensures before + Arrived(inputs[..i + 1]) ==
            before + Arrived(inputs[..i]) + if inputs[i].Data? then inputs[i].chunk else []
  {
    ArrivedSnoc(inputs[..i], inputs[i]);
    assert inputs[..i + 1] == inputs[..i] + [inputs[i]];
  }

  method Feed(handler: DataHandler, inputs: seq<Input>)
    requires handler.Valid()
    modifies handler
    ensures handler.Valid() && handler.received == old(handler.received) + Arrived(inputs)
    ensures old(handler.quiet) && (forall i :: i in inputs ==> IsQuiet(i)) ==> handler.quiet
  {
    ghost var before := handler.received;
    ghost var quiet := handler.quiet && forall i :: i in inputs ==> IsQuiet(i);
    for i := 0 to |inputs|
      invariant handler.Valid() && handler.received == before + Arrived(inputs[..i])
      invariant quiet ==> handler.quiet
    {
      ArrivedNext(before, inputs, i);
      FeedOne(handler, inputs[i]);
    }
    assert inputs[..|inputs|] == inputs;
  }
}
