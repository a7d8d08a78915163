/**
 * The head/tail capture of command output (`createBoundedTextCapture`),
 * on bytes: the final UTF-8 decoding is not modelled.
 */
module BoundedCapture {
  import opened Sequences

  const CAPTURE_HEAD_BYTES := 32 * 1024
  const CAPTURE_TAIL_BYTES := 64 * 1024

  function Min(a: int, b: int): int { if a <= b then a else b }

  function First(stream: seq<Byte>, n: nat): seq<Byte> { stream[..Min(n, |stream|)] }

  function Last(stream: seq<Byte>, n: nat): seq<Byte> { stream[|stream| - Min(n, |stream|)..] }

  /** What a reader of the capture gets for a given whole stream. */
  function CapturedValue(stream: seq<Byte>): seq<Byte>
  {
    if |stream| <= CAPTURE_HEAD_BYTES then stream
    else First(stream, CAPTURE_HEAD_BYTES) + Last(stream, CAPTURE_TAIL_BYTES)
  }

  function OmittedBytes(stream: seq<Byte>): nat
  {
    var missing := |stream| - (CAPTURE_HEAD_BYTES + CAPTURE_TAIL_BYTES);
    if missing > 0 then missing else 0
  }

  class Capture {
    var head: seq<Byte>
    var tail: seq<Byte>
    var totalBytes: nat
    ghost var stream: seq<Byte>

    ghost predicate Valid()
      reads this
    {
      && head == First(stream, CAPTURE_HEAD_BYTES)
      && tail == Last(stream, CAPTURE_TAIL_BYTES)
      && totalBytes == |stream|
    }

    constructor ()
      ensures Valid() && stream == []
    {
      head, tail, totalBytes, stream := [], [], 0, [];
    }

    method Append(buffer: seq<Byte>)
      requires Valid()
      modifies this
      ensures Valid() && stream == old(stream) + buffer
    {
      totalBytes := totalBytes + |buffer|;
      if |head| < CAPTURE_HEAD_BYTES {
        var take := Min(CAPTURE_HEAD_BYTES - |head|, |buffer|);
        head := head + buffer[..take];
      }
      tail := tail + buffer;
      if |tail| > CAPTURE_TAIL_BYTES {
        tail := tail[|tail| - CAPTURE_TAIL_BYTES..];
      }
      stream := stream + buffer;
    }

    method Result() returns (value: seq<Byte>, total: nat, omitted: nat)
      requires Valid()
      ensures value == CapturedValue(stream)
      ensures total == |stream| && omitted == OmittedBytes(stream)
    {
      var overlap := if totalBytes <= |head| then [] else tail;
      value := head + overlap;
      total := totalBytes;
      omitted := if totalBytes - |value| > 0 then totalBytes - |value| else 0;
    }
  }

  /** A whole run: the result depends on the concatenated bytes only, however they were cut. */
  method CaptureChunks(chunks: seq<seq<Byte>>) returns (value: seq<Byte>, total: nat, omitted: nat)
    ensures value == CapturedValue(Flatten(chunks))
    ensures total == |Flatten(chunks)|
    ensures omitted == OmittedBytes(Flatten(chunks))
  {
    var capture := new Capture();
    for i := 0 to |chunks|
      invariant capture.Valid() && fresh(capture)
      invariant capture.stream == Flatten(chunks[..i])
    {
      FlattenSnoc(chunks[..i], chunks[i]);
      assert chunks[..i + 1] == chunks[..i] + [chunks[i]];
      capture.Append(chunks[i]);
    }
    assert chunks[..|chunks|] == chunks;
    value, total, omitted := capture.Result();
  }

  /**
   * The value is the stream itself exactly for short streams and for the one
   * length at which head and tail meet: between those the tail repeats bytes of the head.
   */
  lemma ValueIsStreamIff(stream: seq<Byte>)
    ensures CapturedValue(stream) == stream <==>
            |stream| <= 32 * 1024 || |stream| == 96 * 1024
  {
    if |stream| == CAPTURE_HEAD_BYTES + CAPTURE_TAIL_BYTES {
      assert stream == stream[..CAPTURE_HEAD_BYTES] + stream[CAPTURE_HEAD_BYTES..];
    }
  }

  /** In between, the value is the stream with the overlap written twice, and nothing counts as omitted. */
  lemma OverlapIsRepeated(stream: seq<Byte>)
    requires CAPTURE_HEAD_BYTES < |stream| < CAPTURE_HEAD_BYTES + CAPTURE_TAIL_BYTES
    ensures OmittedBytes(stream) == 0
    ensures var from := |stream| - Min(CAPTURE_TAIL_BYTES, |stream|);
            0 <= from < CAPTURE_HEAD_BYTES &&
            CapturedValue(stream) ==
            stream[..CAPTURE_HEAD_BYTES] + stream[from..CAPTURE_HEAD_BYTES] + stream[CAPTURE_HEAD_BYTES..]
  {
    var from := |stream| - Min(CAPTURE_TAIL_BYTES, |stream|);
    assert stream[from..] == stream[from..CAPTURE_HEAD_BYTES] + stream[CAPTURE_HEAD_BYTES..];
  }

  /** From the meeting length on, what is shown and what is counted as omitted add up to the stream. */
  lemma NothingLost(stream: seq<Byte>)
    requires |stream| >= CAPTURE_HEAD_BYTES + CAPTURE_TAIL_BYTES
    ensures var cut := |stream| - CAPTURE_TAIL_BYTES;
            stream == stream[..CAPTURE_HEAD_BYTES] + stream[CAPTURE_HEAD_BYTES..cut] + stream[cut..] &&
            CapturedValue(stream) == stream[..CAPTURE_HEAD_BYTES] + stream[cut..] &&
            |stream[CAPTURE_HEAD_BYTES..cut]| == OmittedBytes(stream)
  {
  }
}
