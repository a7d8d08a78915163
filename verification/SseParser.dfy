/**
 * The event-stream parser of the AI client (`parseSseJson`): `data:` lines are
 * collected, a blank line closes a frame, `[DONE]` ends the stream (a subset of
 * section 9.2.6 of the HTML Living Standard). JSON parsing is a parameter.
 */
module SseParser {
  import opened Sequences
  import opened JsText

  /** What the JSON parser makes of a frame; `truthy` values only are handed on. */
  datatype Frame<J> = Invalid | ProviderError(code: string) | Payload(value: J, truthy: bool)

  datatype Status = Running | Done | Ended | Interrupted | InvalidJson | ProviderFailed(code: string)

  datatype Core<J> = Core(dataLines: seq<string>, sawPayload: bool, out: seq<J>, status: Status)

  const DONE := "[DONE]"

  function JoinLines(ls: seq<string>): string
  {
    if ls == [] then "" else if |ls| == 1 then ls[0] else ls[0] + "\n" + JoinLines(ls[1..])
  }

  function Flush<J>(json: string -> Frame<J>, s: Core<J>): Core<J>
  {
    var value, cleared := Trim(JoinLines(s.dataLines)), s.(dataLines := []);
    if s.dataLines == [] || value == "" then cleared
    else if value == DONE then cleared.(status := Done)
    else
      match json(value)
      case Invalid => cleared.(status := InvalidJson)
      case ProviderError(code) => cleared.(status := ProviderFailed(code))
      case Payload(v, truthy) => cleared.(sawPayload := true, out := if truthy then s.out + [v] else s.out)
  }

  function Collected<J>(s: Core<J>, line: string): Core<J>
  {
    if StartsWith(line, "data:") then s.(dataLines := s.dataLines + [TrimStart(line[5..])]) else s
  }

  function ProcessLine<J>(json: string -> Frame<J>, s: Core<J>, line: string): Core<J>
  {
    if !s.status.Running? then s
    else if line == "" then Flush(json, s)
    else if StartsWith(line, ":") then s
    else Collected(s, line)
  }

  function ProcessLines<J>(json: string -> Frame<J>, s: Core<J>, lines: seq<string>): Core<J>
    decreases |lines|
  {
    if lines == [] then s else ProcessLines(json, ProcessLine(json, s, lines[0]), lines[1..])
  }

  /** The stream is over: the unfinished line and the open frame still count. */
  function Finish<J>(json: string -> Frame<J>, requireDone: bool, s: Core<J>, buffer: string): Core<J>
  {
    if !s.status.Running? then s
    else
      var flushed := Flush(json, Collected(s, buffer));
      if !flushed.status.Running? then flushed
      else flushed.(status := if requireDone && flushed.sawPayload then Interrupted else Ended)
  }

  function Start<J>(): Core<J> { Core([], false, [], Running) }

  class Parser<J> {
    const json: string -> Frame<J>
    const requireDone: bool
    var buffer: string
    var core: Core<J>
    ghost var text: string  // everything received so far

    ghost predicate Valid()
      reads this
    {
      var lines := Lines(text);
      && core == ProcessLines(json, Start(), Init(lines))
      && (core.status.Running? ==> buffer == Last(lines))
    }

    constructor (json: string -> Frame<J>, requireDone: bool)
      ensures Valid() && text == ""
      ensures this.json == json && this.requireDone == requireDone
    {
      this.json, this.requireDone := json, requireDone;
      buffer, core, text := "", Start(), "";
    }

    method Feed(chunk: string)
      requires Valid()
      modifies this
      ensures Valid() && text == old(text) + chunk
    {
      FeedText(json, text, chunk);
      text := text + chunk;
      if core.status.Running? {
        buffer := buffer + chunk;
        var lines := Lines(buffer);
        buffer := Last(lines);
        Process(Init(lines));
      }
    }

    method Process(lines: seq<string>)
      modifies this`core
      ensures core == ProcessLines(json, old(core), lines)
    {
      assert lines[..0] == [];
      for i := 0 to |lines|
        invariant core == ProcessLines(json, old(core), lines[..i])
      {
        assert lines[..i + 1] == lines[..i] + [lines[i]];
        ProcessAppend(json, old(core), lines[..i], [lines[i]]);
        core := ProcessLine(json, core, lines[i]);
      }
      assert lines[..|lines|] == lines;
    }

    method Close()
      requires Valid()
      modifies this`core
      ensures core == ParseText(json, requireDone, text)
    {
      core := Finish(json, requireDone, core, buffer);
    }
  }

  lemma {:induction false} ProcessAppend<J>(json: string -> Frame<J>, s: Core<J>, a: seq<string>, b: seq<string>)
    ensures ProcessLines(json, s, a + b) == ProcessLines(json, ProcessLines(json, s, a), b)
    decreases |a|
  {
    if a == [] {
      assert a + b == b;
    } else {
      ProcessAppend(json, ProcessLine(json, s, a[0]), a[1..], b);
      assert (a + b)[0] == a[0] && (a + b)[1..] == a[1..] + b;
    }
  }

  lemma {:induction false} StoppedStays<J>(json: string -> Frame<J>, s: Core<J>, lines: seq<string>)
    requires !s.status.Running?
    ensures ProcessLines(json, s, lines) == s
    decreases |lines|
  {
    if lines != [] {
      StoppedStays(json, s, lines[1..]);
    }
  }

  /** More text: the complete lines of the unfinished line and the chunk come next. */
  lemma FeedText<J>(json: string -> Frame<J>, text: string, chunk: string)
    ensures var lines, all := Lines(text), Lines(text + chunk);
            var more := Lines(Last(lines) + chunk);
            var core := ProcessLines(json, Start(), Init(lines));
            && Last(all) == Last(more)
            && ProcessLines(json, Start(), Init(all)) == ProcessLines(json, core, Init(more))
            && (!core.status.Running? ==> ProcessLines(json, Start(), Init(all)) == core)
  {
    var lines, all := Lines(text), Lines(text + chunk);
    var complete, more := Init(lines), Lines(Last(lines) + chunk);
    LinesResume(text, chunk);
    assert Init(all) == complete + Init(more);
    ProcessAppend(json, Start(), complete, Init(more));
    var core := ProcessLines(json, Start(), complete);
    if !core.status.Running? {
      StoppedStays(json, core, Init(more));
    }
  }

  /** Parsing a text that is there at once. */
  function ParseText<J>(json: string -> Frame<J>, requireDone: bool, text: string): Core<J>
  {
    var lines := Lines(text);
    Finish(json, requireDone, ProcessLines(json, Start(), Init(lines)), Last(lines))
  }

  /** Payloads and outcome depend on the concatenated text only, for every way of cutting it. */
  method ParseChunks<J>(json: string -> Frame<J>, requireDone: bool, chunks: seq<string>) returns (r: Core<J>)
    ensures r == ParseText(json, requireDone, Flatten(chunks))
  {
    var parser := new Parser(json, requireDone);
    for i := 0 to |chunks|
      invariant parser.Valid() && fresh(parser)
      invariant parser.text == Flatten(chunks[..i])
    {
      FlattenSnoc(chunks[..i], chunks[i]);
      assert chunks[..i + 1] == chunks[..i] + [chunks[i]];
      parser.Feed(chunks[i]);
    }
    assert chunks[..|chunks|] == chunks;
    parser.Close();
    r := parser.core;
  }

  // ----- What the outcome is: first the frames of the text, then their meaning -----

  function FrameOf(pending: seq<string>): (frames: seq<string>)
    ensures |frames| <= 1
  {
    var value := Trim(JoinLines(pending));
    if pending == [] || value == "" then [] else [value]
  }

  /** The non-empty frames of a sequence of lines, `pending` being the data lines of an open one. */
  function Frames(lines: seq<string>, pending: seq<string>): seq<string>
    decreases |lines|
  {
    if lines == [] then FrameOf(pending)
    else if lines[0] == "" then FrameOf(pending) + Frames(lines[1..], [])
    else if StartsWith(lines[0], "data:") then Frames(lines[1..], pending + [TrimStart(lines[0][5..])])
    else Frames(lines[1..], pending)
  }

  /** A frame that ends the stream. */
  predicate Stops<J>(json: string -> Frame<J>, frame: string)
  {
    frame == DONE || !json(frame).Payload?
  }

  /** The frames before the first one that ends the stream. */
  function Live<J>(json: string -> Frame<J>, frames: seq<string>): (n: nat)
    ensures n <= |frames|
    ensures forall i :: 0 <= i < n ==> !Stops(json, frames[i])
    ensures n < |frames| ==> Stops(json, frames[n])
  {
    if frames == [] || Stops(json, frames[0]) then 0 else 1 + Live(json, frames[1..])
  }

  function Values<J>(json: string -> Frame<J>, frames: seq<string>): seq<J>
    requires forall i :: 0 <= i < |frames| ==> !Stops(json, frames[i])
  {
    if frames == [] then []
    else
      assert !Stops(json, frames[0]);
      (if json(frames[0]).truthy then [json(frames[0]).value] else []) + Values(json, frames[1..])
  }

  function StopStatus<J>(json: string -> Frame<J>, frame: string): Status
    requires Stops(json, frame)
  {
    if frame == DONE then Done
    else match json(frame)
      case Invalid => InvalidJson
      case ProviderError(code) => ProviderFailed(code)
  }

  /** What the parser has to say about frames that follow what it already knows. */
  ghost predicate Reports<J>(json: string -> Frame<J>, requireDone: bool, s: Core<J>, frames: seq<string>, r: Core<J>)
  {
    var n := Live(json, frames);
    && r.out == s.out + Values(json, frames[..n])
    && r.sawPayload == (s.sawPayload || n > 0)
    && r.status == if n < |frames| then StopStatus(json, frames[n])
                   else if requireDone && r.sawPayload then Interrupted else Ended
  }

  lemma {:induction false} FlushReports<J>(
      json: string -> Frame<J>, requireDone: bool, s: Core<J>, rest: seq<string>, r: Core<J>)
    requires s.status.Running?
    requires var f := Flush(json, s);
             if f.status.Running? then Reports(json, requireDone, f, rest, r) else r == f
    ensures Reports(json, requireDone, s, FrameOf(s.dataLines) + rest, r)
  {
    var first := FrameOf(s.dataLines);
    if first == [] {
      assert first + rest == rest;
    } else {
      var frames := first + rest;
      assert frames[0] == first[0] && frames[1..] == rest;
      var n := Live(json, frames);
      if Stops(json, first[0]) {
        assert n == 0 && frames[..0] == [];
      } else {
        assert frames[..n][1..] == rest[..n - 1] && frames[..n][0] == first[0];
      }
    }
  }

  lemma {:induction false} LinesReport<J>(
      json: string -> Frame<J>, requireDone: bool, s: Core<J>, lines: seq<string>)
    requires s.status.Running? && lines != []
    ensures var n := |lines| - 1;
            var r := Finish(json, requireDone, ProcessLines(json, s, lines[..n]), lines[n]);
            Reports(json, requireDone, s, Frames(lines, s.dataLines), r)
    decreases |lines|
  {
    var n := |lines| - 1;
    var r := Finish(json, requireDone, ProcessLines(json, s, lines[..n]), lines[n]);
    if n == 0 {
      LastLineReports(json, requireDone, s, lines[0]);
      assert lines == [lines[0]];
    } else {
      var next := ProcessLine(json, s, lines[0]);
      assert lines[..n][0] == lines[0] && lines[..n][1..] == lines[1..][..n - 1];
      if next.status.Running? {
        LinesReport(json, requireDone, next, lines[1..]);
      } else {
        StoppedStays(json, next, lines[1..][..n - 1]);
      }
      assert StartsWith(lines[0], ":") ==> lines[0][0] == ':' && !StartsWith(lines[0], "data:");
      if lines[0] == "" {
        FlushReports(json, requireDone, s, Frames(lines[1..], []), r);
      }
    }
  }

  lemma LastLineReports<J>(json: string -> Frame<J>, requireDone: bool, s: Core<J>, line: string)
    requires s.status.Running?
    ensures Reports(json, requireDone, s, Frames([line], s.dataLines), Finish(json, requireDone, s, line))
  {
    var c := Collected(s, line);
    var r := Finish(json, requireDone, s, line);
    assert [line][1..] == [];
    assert Frames([], []) == [];
    assert Frames([line], s.dataLines) == FrameOf(c.dataLines) + [];
    FlushReports(json, requireDone, c, [], r);
  }

  /**
   * The outcome of a text is read off its frames: payloads up to the first frame that
   * ends the stream, and that frame's verdict, or none.
   */
  lemma OutcomeOfText<J>(json: string -> Frame<J>, requireDone: bool, text: string)
    ensures Reports(json, requireDone, Start(), Frames(Lines(text), []), ParseText(json, requireDone, text))
  {
    LinesReport(json, requireDone, Start<J>(), Lines(text));
  }

  /** An interruption is reported exactly when it was asked for, some frame came, and all frames were payloads. */
  lemma InterruptedIff<J>(json: string -> Frame<J>, requireDone: bool, text: string)
    ensures ParseText(json, requireDone, text).status == Interrupted <==>
            var frames := Frames(Lines(text), []);
            requireDone && frames != [] && forall f :: f in frames ==> !Stops(json, f)
  {
    OutcomeOfText(json, requireDone, text);
    var frames := Frames(Lines(text), []);
    var n := Live(json, frames);
    if n < |frames| {
      assert frames[n] in frames;
    }
  }

  // ----- The other side: a server that writes one frame per event -----

  predicate Sendable(frame: string)
  {
    frame != "" && Trim(frame) == frame && '\n' !in frame
  }

  function Encoded(frames: seq<string>, eol: string): string
  {
    if frames == [] then "" else "data: " + frames[0] + eol + eol + Encoded(frames[1..], eol)
  }

  lemma {:induction false} EncodedLines(frame: string, eol: string, rest: string)
    requires Sendable(frame) && (eol == "\n" || eol == "\r\n")
    ensures Lines("data: " + frame + eol + eol + rest) == ["data: " + frame, ""] + Lines(rest)
  {
    var line := "data: " + frame;
    assert line[|line| - 1] == frame[|frame| - 1] && IsSpace('\r');
    if eol == "\n" {
      assert line + eol + eol + rest == line + "\n" + ("" + "\n" + rest);
      LinesOfLine(line, "" + "\n" + rest);
      LinesOfLine("", rest);
    } else {
      assert line + eol + eol + rest == (line + "\r") + "\n" + ("\r" + "\n" + rest);
      LinesOfLine(line + "\r", "\r" + "\n" + rest);
      LinesOfLine("\r", rest);
      assert Chomp(line + "\r") == line;
    }
  }

  lemma FrameOfOne(frame: string)
    requires Sendable(frame)
    ensures TrimStart(("data: " + frame)[5..]) == frame && FrameOf([frame]) == [frame]
  {
    var s := ("data: " + frame)[5..];
    assert s[0] == ' ' && s[1..] == frame;
    assert !IsSpace(frame[0]);
    assert TrimStart(frame) == frame;
    assert JoinLines([frame]) == frame;
  }

  lemma OneFrame(frame: string, rest: seq<string>)
    requires Sendable(frame)
    ensures Frames(["data: " + frame, ""] + rest, []) == [frame] + Frames(rest, [])
  {
    FrameOfOne(frame);
    var lines := ["data: " + frame, ""] + rest;
    assert lines[1..] == [""] + rest && lines[1..][1..] == rest;
    assert lines[0][..5] == "data:";
    assert Frames(lines, []) == Frames(lines[1..], [frame]);
  }

  /** The `data:` lines of a frame of several lines. */
  function DataLines(ls: seq<string>): seq<string>
  {
    if ls == [] then [] else ["data: " + ls[0]] + DataLines(ls[1..])
  }

  lemma JoinGlued(c: char, ls: seq<string>)
    requires ls != []
    ensures JoinLines(Glue(c, ls)) == [c] + JoinLines(ls)
  {
    if |ls| > 1 {
      assert Glue(c, ls)[1..] == ls[1..];
    }
  }

  lemma {:induction false} JoinOfLines(text: string)
    requires '\r' !in text
    ensures JoinLines(Lines(text)) == text
    decreases |text|
  {
    if text != "" {
      JoinOfLines(text[1..]);
      assert text == [text[0]] + text[1..];
      if text[0] == '\n' {
        assert ([""] + Lines(text[1..]))[1..] == Lines(text[1..]);
      } else {
        JoinGlued(text[0], Lines(text[1..]));
      }
    }
  }

  lemma DataLineCollects(l: string, rest: seq<string>, pending: seq<string>)
    requires TrimStart(l) == l
    ensures Frames(["data: " + l] + rest, pending) == Frames(rest, pending + [l])
  {
    var line := "data: " + l;
    assert line[..5] == "data:" && line[5..][0] == ' ' && line[5..][1..] == l;
    assert TrimStart(line[5..]) == l;
    assert ([line] + rest)[1..] == rest;
  }

  lemma {:induction false} DataLinesCollect(ls: seq<string>, rest: seq<string>, pending: seq<string>)
    requires forall i :: 0 <= i < |ls| ==> TrimStart(ls[i]) == ls[i]
    ensures Frames(DataLines(ls) + rest, pending) == Frames(rest, pending + ls)
  {
    if ls == [] {
      assert DataLines(ls) + rest == rest && pending + ls == pending;
    } else {
      assert DataLines(ls) + rest == ["data: " + ls[0]] + (DataLines(ls[1..]) + rest);
      DataLineCollects(ls[0], DataLines(ls[1..]) + rest, pending);
      DataLinesCollect(ls[1..], rest, pending + [ls[0]]);
      assert pending + [ls[0]] + ls[1..] == pending + ls;
    }
  }

  /** A frame of several lines, written as one `data:` line each, comes out with its line feeds. */
  lemma ManyLinesOneFrame(frame: string, rest: seq<string>)
    requires frame != "" && Trim(frame) == frame && '\r' !in frame
    requires forall i :: 0 <= i < |Lines(frame)| ==> TrimStart(Lines(frame)[i]) == Lines(frame)[i]
    ensures Frames(DataLines(Lines(frame)) + ([""] + rest), []) == [frame] + Frames(rest, [])
  {
    DataLinesCollect(Lines(frame), [""] + rest, []);
    assert [] + Lines(frame) == Lines(frame) && ([""] + rest)[1..] == rest;
    JoinOfLines(frame);
  }

  /** What such a server writes, with either line ending, comes out frame by frame. */
  lemma {:induction false} EncodedFrames(frames: seq<string>, eol: string)
    requires forall f :: f in frames ==> Sendable(f)
    requires eol == "\n" || eol == "\r\n"
    ensures Frames(Lines(Encoded(frames, eol)), []) == frames
    decreases |frames|
  {
    if frames == [] {
      assert Lines("") == [""];
      assert [""][1..] == [];
      assert Frames([""], []) == FrameOf([]) + Frames([], []);
    } else {
      var frame, rest := frames[0], Lines(Encoded(frames[1..], eol));
      EncodedLines(frame, eol, Encoded(frames[1..], eol));
      OneFrame(frame, rest);
      EncodedFrames(frames[1..], eol);
      assert frames == [frame] + frames[1..];
    }
  }
}
