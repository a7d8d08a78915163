/**
 * The streaming terminal cleaner: a seven-state machine that drops two-character
 * escape sequences, control sequences (CSI; ECMA-48, section 5.4) and two of the
 * control strings of section 5.6, OSC and DCS, from remote output. Sequences are
 * in their 7-bit form. Text is a sequence of code points.
 */
module TerminalCleaner {
  import opened Sequences

  const ESC := '\U{1b}'
  const BEL := '\U{7}'
  const DEL := '\U{7f}'

  datatype Mode = Text | Escape | Csi | Osc | OscEscape | Dcs | DcsEscape
  datatype Cleaned = Cleaned(mode: Mode, text: string)

  predicate Visible(c: char)
  {
    c == '\n' || c == '\r' || c == '\t' || (c >= ' ' && c != DEL)
  }

  function NextMode(mode: Mode, c: char): Mode
  {
    match mode
    case Text => if c == ESC then Escape else Text
    case Escape => if c == '[' then Csi else if c == ']' then Osc else if c == 'P' then Dcs else Text
    case Csi => if '@' <= c <= '~' then Text else Csi
    case Osc => if c == BEL then Text else if c == ESC then OscEscape else Osc
    case OscEscape => if c == '\\' then Text else if c == ESC then OscEscape else Osc
    case Dcs => if c == ESC then DcsEscape else Dcs
    case DcsEscape => if c == '\\' then Text else if c == ESC then DcsEscape else Dcs
  }

  function Emitted(mode: Mode, c: char): string
  {
    if mode == Text && c != ESC && Visible(c) then [c] else ""
  }

  /** The whole effect of feeding `value` to a cleaner that is in `mode`. */
  function Clean(mode: Mode, value: string): Cleaned
    decreases |value|
  {
    if value == "" then Cleaned(mode, "")
    else
      var rest := Clean(NextMode(mode, value[0]), value[1..]);
      Cleaned(rest.mode, Emitted(mode, value[0]) + rest.text)
  }

  lemma {:induction false} CleanAppend(mode: Mode, a: string, b: string)
    ensures var first := Clean(mode, a);
            var second := Clean(first.mode, b);
            Clean(mode, a + b) == Cleaned(second.mode, first.text + second.text)
    decreases |a|
  {
    if a == "" {
      assert a + b == b;
    } else {
      assert (a + b)[1..] == a[1..] + b;
      CleanAppend(NextMode(mode, a[0]), a[1..], b);
    }
  }

  class StreamingTerminalCleaner {
    var state: Mode

    constructor ()
      ensures state == Text
    {
      state := Text;
    }

    /** Cleans a chunk without touching this cleaner: the work is done by a clone. */
    method Preview(value: string) returns (output: string)
      ensures output == Clean(state, value).text
    {
      var clone := new StreamingTerminalCleaner();
      clone.state := state;
      output := clone.Push(value, false);
    }

    method Push(value: string, final: bool) returns (output: string)
      modifies this
      ensures output == Clean(old(state), value).text
      ensures state == if final then Text else Clean(old(state), value).mode
    {
      output := "";
      for i := 0 to |value|
        invariant Cleaned(state, output) == Clean(old(state), value[..i])
      {
        var c := value[i];
        CleanAppend(old(state), value[..i], [c]);
        assert value[..i + 1] == value[..i] + [c];
        assert Clean(state, [c]) == Cleaned(NextMode(state, c), Emitted(state, c) + "");
        output := output + Emitted(state, c);
        state := NextMode(state, c);
      }
      assert value[..|value|] == value;
      if final {
        state := Text;
      }
    }
  }

  /** Any way of cutting the input into chunks gives the same text and final mode as one push. */
  method PushAll(chunks: seq<string>) returns (output: string, mode: Mode)
    ensures Cleaned(mode, output) == Clean(Text, Flatten(chunks))
  {
    var cleaner := new StreamingTerminalCleaner();
    output := "";
    for i := 0 to |chunks|
      invariant fresh(cleaner)
      invariant Cleaned(cleaner.state, output) == Clean(Text, Flatten(chunks[..i]))
    {
      FlattenSnoc(chunks[..i], chunks[i]);
      assert chunks[..i + 1] == chunks[..i] + [chunks[i]];
      CleanAppend(Text, Flatten(chunks[..i]), chunks[i]);
      var seen := cleaner.Preview(chunks[i]);
      var more := cleaner.Push(chunks[i], false);
      assert seen == more;
      output := output + more;
    }
    assert chunks[..|chunks|] == chunks;
    mode := cleaner.state;
  }

  /** Tab, line feed, carriage return, or any code point from the space on but DEL. */
  predicate Shown(n: int)
  {
    n == 0x09 || n == 0x0A || n == 0x0D || 0x20 <= n < 0x7F || n >= 0x80
  }

  /** No escape, delete or other C0 control except line feed, carriage return and tab comes out. */
  lemma {:induction false} OutputIsSafe(mode: Mode, value: string)
    ensures forall c :: c in Clean(mode, value).text ==>
                          Shown(c as int) && c in value
    decreases |value|
  {
    if value != "" {
      OutputIsSafe(NextMode(mode, value[0]), value[1..]);
    }
  }

  /** Text without an ESC loses exactly its other controls. */
  lemma {:induction false} PlainIsShown(value: string)
    requires forall i :: 0 <= i < |value| ==> value[i] as int != 0x1B
    ensures Clean(Text, value) == Cleaned(Text, Filter((c: char) => Shown(c as int), value))
    decreases |value|
  {
    if value != "" {
      PlainIsShown(value[1..]);
      assert value[0] as int != 0x1B;
    }
  }

  // ----- A whole-text reference: what a terminal would show, by looking for the end of each sequence -----

  /** Position `i` ends a control string: ESC \ , or (operating system commands only) a BEL not preceded by ESC. */
  predicate EndsControlString(body: string, i: nat, bel: bool)
    requires i < |body|
  {
    var afterEsc := i > 0 && body[i - 1] == ESC;
    (afterEsc && body[i] == '\\') || (bel && !afterEsc && body[i] == BEL)
  }

  /** The length of a control string's body with its terminator; all of it when there is none. */
  function ControlStringLength(body: string, from: nat, bel: bool): (n: nat)
    requires from <= |body|
    ensures from <= n <= |body|
    ensures forall i :: from <= i < n - 1 ==> !EndsControlString(body, i, bel)
    ensures n == |body| || (n > from && EndsControlString(body, n - 1, bel))
    decreases |body| - from
  {
    if from == |body| then from
    else if EndsControlString(body, from, bel) then from + 1
    else ControlStringLength(body, from + 1, bel)
  }

  predicate FinalByte(c: char) { '@' <= c <= '~' }

  /** The length of a control sequence's parameters with its final byte; all of it when there is none. */
  function ControlSequenceLength(body: string, from: nat): (n: nat)
    requires from <= |body|
    ensures from <= n <= |body|
    ensures forall i :: from <= i < n - 1 ==> !FinalByte(body[i])
    ensures n == |body| || (n > from && FinalByte(body[n - 1]))
    decreases |body| - from
  {
    if from == |body| then from
    else if FinalByte(body[from]) then from + 1
    else ControlSequenceLength(body, from + 1)
  }

  /** The length of the escape sequence at the start of `s`. */
  function SequenceLength(s: string): (n: nat)
    requires s != "" && s[0] == ESC
    ensures 1 <= n <= |s|
  {
    if |s| == 1 then 1
    else if s[1] == '[' then 2 + ControlSequenceLength(s[2..], 0)
    else if s[1] == ']' then 2 + ControlStringLength(s[2..], 0, true)
    else if s[1] == 'P' then 2 + ControlStringLength(s[2..], 0, false)
    else 2
  }

  /** The text outside all CSI, OSC, DCS and two-character sequences, without invisible controls. */
  function VisibleText(s: string): string
    decreases |s|
  {
    if s == "" then ""
    else if s[0] == ESC then VisibleText(s[SequenceLength(s)..])
    else (if Visible(s[0]) then [s[0]] else "") + VisibleText(s[1..])
  }

  function ControlStringMode(body: string, from: nat, bel: bool): Mode
    requires from <= |body|
  {
    if from > 0 && body[from - 1] == ESC then (if bel then OscEscape else DcsEscape)
    else (if bel then Osc else Dcs)
  }

  lemma {:induction false} SkipControlString(body: string, from: nat, bel: bool)
    requires from <= |body|
    ensures Clean(ControlStringMode(body, from, bel), body[from..]).text ==
            Clean(Text, body[ControlStringLength(body, from, bel)..]).text
    decreases |body| - from
  {
    if from < |body| {
      assert body[from..][0] == body[from] && body[from..][1..] == body[from + 1..];
      if !EndsControlString(body, from, bel) {
        assert NextMode(ControlStringMode(body, from, bel), body[from]) == ControlStringMode(body, from + 1, bel);
        SkipControlString(body, from + 1, bel);
      }
    }
  }

  lemma {:induction false} SkipControlSequence(body: string, from: nat)
    requires from <= |body|
    ensures Clean(Csi, body[from..]).text == Clean(Text, body[ControlSequenceLength(body, from)..]).text
    decreases |body| - from
  {
    if from < |body| {
      assert body[from..][0] == body[from] && body[from..][1..] == body[from + 1..];
      if !FinalByte(body[from]) {
        SkipControlSequence(body, from + 1);
      }
    }
  }

  lemma SkipSequence(s: string)
    requires s != "" && s[0] == ESC
    ensures Clean(Text, s).text == Clean(Text, s[SequenceLength(s)..]).text
  {
    if |s| >= 2 {
      var body := s[2..];
      assert s[1..][0] == s[1] && s[1..][1..] == body;
      if s[1] == '[' {
        SkipFrom(s, Csi, ControlSequenceLength(body, 0));
        SkipControlSequence(body, 0);
      } else if s[1] == ']' {
        SkipFrom(s, Osc, ControlStringLength(body, 0, true));
        SkipControlString(body, 0, true);
      } else if s[1] == 'P' {
        SkipFrom(s, Dcs, ControlStringLength(body, 0, false));
        SkipControlString(body, 0, false);
      }
    }
  }

  lemma SkipFrom(s: string, mode: Mode, n: nat)
    requires |s| >= 2 && n <= |s| - 2
    requires s[0] == ESC && NextMode(Escape, s[1]) == mode
    ensures s[2..][0..] == s[2..] && s[2..][n..] == s[2 + n..]
    ensures Clean(Text, s).text == Clean(mode, s[2..]).text
  {
    assert s[1..][0] == s[1] && s[1..][1..] == s[2..];
  }

  /** The state machine shows exactly the text outside all CSI, OSC, DCS and two-character sequences. */
  lemma {:induction false} CleanIsVisibleText(s: string)
    ensures Clean(Text, s).text == VisibleText(s)
    decreases |s|
  {
    if s == "" {
    } else if s[0] != ESC {
      CleanIsVisibleText(s[1..]);
    } else {
      SkipSequence(s);
      CleanIsVisibleText(s[SequenceLength(s)..]);
    }
  }

  // ----- The standard's control strings -----

  /** Section 5.6 has three more control strings: SOS, PM and APC. */
  predicate OpensOther(c: char) { c == 'X' || c == '^' || c == '_' }

  /** The length of the sequence at the start of `s` by the standard, all five control strings included. */
  function StandardLength(s: string): (n: nat)
    requires s != "" && s[0] == ESC
    ensures 1 <= n <= |s|
  {
    if |s| >= 2 && OpensOther(s[1]) then 2 + ControlStringLength(s[2..], 0, false) else SequenceLength(s)
  }

  /** The text outside all sequences of the standard. */
  function StandardText(s: string): string
    decreases |s|
  {
    if s == "" then ""
    else if s[0] == ESC then StandardText(s[StandardLength(s)..])
    else (if Visible(s[0]) then [s[0]] else "") + StandardText(s[1..])
  }

  /** The SOS, PM and APC strings of `s` hold nothing that the cleaner takes for visible text. */
  predicate OthersAreEmpty(s: string)
    decreases |s|
  {
    if s == "" then true
    else if s[0] == ESC then
      var n := StandardLength(s);
      && (|s| >= 2 && OpensOther(s[1]) ==> VisibleText(s[2..n]) == "")
      && OthersAreEmpty(s[n..])
    else OthersAreEmpty(s[1..])
  }

  lemma TerminatorEndsAll(mode: Mode, s: string)
    requires |s| >= 2 && s[|s| - 2] == ESC && s[|s| - 1] == '\\'
    ensures Clean(mode, s).mode == Text
  {
    var front := s[..|s| - 2];
    assert s == front + [ESC, '\\'];
    CleanAppend(mode, front, [ESC, '\\']);
    var between := Clean(mode, front).mode;
    assert [ESC, '\\'][1..] == ['\\'] && ['\\'][1..] == "";
    assert Clean(between, [ESC, '\\']).mode == NextMode(NextMode(between, ESC), '\\');
  }

  /** After text that leaves the machine outside all sequences, the rest is shown as on its own. */
  lemma VisibleAppend(inner: string, rest: string)
    requires rest == "" || Clean(Text, inner).mode == Text
    ensures VisibleText(inner + rest) == VisibleText(inner) + VisibleText(rest)
  {
    CleanIsVisibleText(inner + rest);
    CleanIsVisibleText(inner);
    CleanIsVisibleText(rest);
    CleanAppend(Text, inner, rest);
  }

  /** Of such a string the cleaner shows what it takes for visible text, and then it is back in step. */
  lemma OtherIsShown(s: string)
    requires |s| >= 2 && s[0] == ESC && OpensOther(s[1])
    ensures var n := StandardLength(s);
            VisibleText(s) == VisibleText(s[2..n]) + VisibleText(s[n..])
  {
    var inner, rest := s[2..StandardLength(s)], s[StandardLength(s)..];
    OtherParts(s);
    VisibleAppend(inner, rest);
    OtherIsSkipped(s);
  }

  lemma OtherParts(s: string)
    requires |s| >= 2 && s[0] == ESC && OpensOther(s[1])
    ensures var n := StandardLength(s);
            n >= 2 && s[2..] == s[2..n] + s[n..] && (s[n..] == "" || Clean(Text, s[2..n]).mode == Text)
  {
    var n := StandardLength(s);
    if n < |s| {
      OtherEnds(s);
      TerminatorEndsAll(Text, s[2..n]);
    }
  }

  lemma OtherIsSkipped(s: string)
    requires |s| >= 2 && s[0] == ESC && OpensOther(s[1])
    ensures VisibleText(s) == VisibleText(s[2..])
  {
    assert SequenceLength(s) == 2;
  }

  lemma OtherEnds(s: string)
    requires |s| >= 2 && s[0] == ESC && OpensOther(s[1]) && StandardLength(s) < |s|
    ensures var inner := s[2..StandardLength(s)];
            |inner| >= 2 && inner[|inner| - 2] == ESC && inner[|inner| - 1] == '\\'
  {
    var body, n := s[2..], ControlStringLength(s[2..], 0, false);
    assert EndsControlString(body, n - 1, false);
    assert s[2..StandardLength(s)] == body[..n];
  }

  /** Nothing that the standard shows is ever dropped. */
  lemma {:induction false} ShowsNoLess(s: string)
    ensures |VisibleText(s)| >= |StandardText(s)|
    decreases |s|
  {
    if s == "" {
    } else if s[0] != ESC {
      ShowsNoLess(s[1..]);
    } else {
      ShowsNoLess(s[StandardLength(s)..]);
      if |s| >= 2 && OpensOther(s[1]) {
        OtherIsShown(s);
      }
    }
  }

  /**
   * The cleaner shows exactly the text outside all sequences of the standard
   * if and only if the SOS, PM and APC strings hold nothing visible: it shows
   * the contents of those three.
   */
  lemma {:induction false} CleanIsStandardIff(s: string)
    ensures Clean(Text, s).text == StandardText(s) <==> OthersAreEmpty(s)
    decreases |s|
  {
    CleanIsVisibleText(s);
    if s == "" {
    } else if s[0] != ESC {
      CleanIsVisibleText(s[1..]);
      CleanIsStandardIff(s[1..]);
      var first := if Visible(s[0]) then [s[0]] else "";
      SameBehind(first, VisibleText(s[1..]), StandardText(s[1..]));
    } else {
      var rest := s[StandardLength(s)..];
      CleanIsVisibleText(rest);
      CleanIsStandardIff(rest);
      if |s| >= 2 && OpensOther(s[1]) {
        OtherIsShown(s);
        ShowsNoLess(rest);
        assert "" + VisibleText(rest) == VisibleText(rest);
      }
    }
  }

  lemma SameBehind(first: string, a: string, b: string)
    ensures first + a == first + b <==> a == b
  {
    assert (first + a)[|first|..] == a && (first + b)[|first|..] == b;
  }
}
