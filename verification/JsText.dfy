/** The string operations of the platform that the text parsers rely on. */
module JsText {

  /** White space and line terminators, as trim() and \s treat them. */
  predicate IsSpace(c: char)
  {
    || '\U{9}' <= c <= '\U{D}' || c == ' ' || c == '\U{A0}' || c == '\U{1680}'
    || '\U{2000}' <= c <= '\U{200A}' || c == '\U{2028}' || c == '\U{2029}'
    || c == '\U{202F}' || c == '\U{205F}' || c == '\U{3000}' || c == '\U{FEFF}'
  }

  function TrimStart(s: string): (r: string)
    ensures |r| <= |s|
    ensures r != "" ==> !IsSpace(r[0])
  {
    if s != "" && IsSpace(s[0]) then TrimStart(s[1..]) else s
  }

  function TrimEnd(s: string): (r: string)
    ensures r <= s
    ensures r != "" ==> !IsSpace(r[|r| - 1])
  {
    if s != "" && IsSpace(s[|s| - 1]) then TrimEnd(s[..|s| - 1]) else s
  }

  function Trim(s: string): (r: string)
    ensures r != "" ==> !IsSpace(r[0]) && !IsSpace(r[|r| - 1])
  {
    TrimEnd(TrimStart(s))
  }

  predicate StartsWith(s: string, prefix: string) { prefix <= s }

  /** split(/\r?\n/) */
  function Lines(text: string): (ls: seq<string>)
    ensures |ls| >= 1
    decreases |text|
  {
    if text == "" then [""]
    else if text[0] == '\n' then [""] + Lines(text[1..])
    else if |text| >= 2 && text[0] == '\r' && text[1] == '\n' then [""] + Lines(text[2..])
    else Glue(text[0], Lines(text[1..]))
  }

  /** One more character in front of the first line. */
  function Glue(c: char, ls: seq<string>): (r: seq<string>)
    requires ls != []
    ensures |r| == |ls|
  {
    [[c] + ls[0]] + ls[1..]
  }

  function Last(ls: seq<string>): string
    requires ls != []
  {
    ls[|ls| - 1]
  }

  function Init(ls: seq<string>): seq<string>
    requires ls != []
  {
    ls[..|ls| - 1]
  }

  /** Without one carriage return at the end. */
  function Chomp(line: string): string
  {
    if line != "" && line[|line| - 1] == '\r' then line[..|line| - 1] else line
  }

  lemma {:induction false} LinesOfLine(a: string, b: string)
    requires '\n' !in a
    ensures Lines(a + "\n" + b) == [Chomp(a)] + Lines(b)
    decreases |a|
  {
    var text := a + "\n" + b;
    if a == "" {
      assert text[1..] == b;
    } else if a == "\r" {
      assert text[0] == '\r' && text[1] == '\n' && text[2..] == b;
    } else {
      LinesOfLine(a[1..], b);
      assert text[0] == a[0] && text[1..] == a[1..] + "\n" + b;
      assert |a| >= 2 ==> text[1] == a[1];
      assert [a[0]] + Chomp(a[1..]) == Chomp(a);
    }
  }

  lemma {:induction false} OneLine(a: string)
    requires '\n' !in a
    ensures Lines(a) == [a]
    decreases |a|
  {
    if a != "" {
      OneLine(a[1..]);
      assert [a[0]] + a[1..] == a;
    }
  }

  lemma {:induction false} LinesHaveNoFeed(text: string)
    ensures forall line :: line in Lines(text) ==> '\n' !in line
    decreases |text|
  {
    if text != "" {
      LinesHaveNoFeed(text[1..]);
      if |text| >= 2 {
        LinesHaveNoFeed(text[2..]);
      }
      var rest := Lines(text[1..]);
      assert rest[0] in rest;
    }
  }

  lemma InitOfCons(x: string, ls: seq<string>, more: seq<string>)
    requires ls != []
    ensures Last([x] + ls) == Last(ls) && Init([x] + ls) + more == [x] + (Init(ls) + more)
  {
  }

  /** Splitting can be resumed: only the unfinished last line of the text so far matters. */
  lemma {:induction false} LinesResume(a: string, b: string)
    ensures Lines(a + b) == Init(Lines(a)) + Lines(Last(Lines(a)) + b)
    decreases |a|
  {
    if a == "" {
      assert Init([""]) == [] && "" + b == b && a + b == b;
    } else if a[0] == '\n' {
      LinesResume(a[1..], b);
      assert (a + b)[1..] == a[1..] + b;
      InitOfCons("", Lines(a[1..]), Lines(Last(Lines(a[1..])) + b));
    } else if |a| >= 2 && a[0] == '\r' && a[1] == '\n' {
      LinesResume(a[2..], b);
      assert (a + b)[2..] == a[2..] + b;
      InitOfCons("", Lines(a[2..]), Lines(Last(Lines(a[2..])) + b));
    } else {
      LinesResume(a[1..], b);
      PrependChar(a, b);
    }
  }

  lemma {:induction false} SingleLine(text: string)
    requires |Lines(text)| == 1
    ensures Lines(text) == [text]
    decreases |text|
  {
    if text != "" {
      assert |Lines(text[1..])| == 1;
      SingleLine(text[1..]);
      assert [text[0]] + text[1..] == text;
    }
  }

  lemma GlueFirst(c: char, r: seq<string>, more: seq<string>)
    requires |r| > 1
    ensures Last(Glue(c, r)) == Last(r)
    ensures Glue(c, Init(r) + more) == Init(Glue(c, r)) + more
  {
  }

  predicate Glues(text: string)
  {
    text != "" && text[0] != '\n' && !(|text| >= 2 && text[0] == '\r' && text[1] == '\n')
  }

  lemma GluesOn(a: string, b: string)
    requires |a| > 1 && Glues(a)
    ensures Lines(a + b) == Glue(a[0], Lines(a[1..] + b))
  {
    var text := a + b;
    assert text[0] == a[0] && text[1] == a[1] && text[1..] == a[1..] + b;
  }

  lemma PrependChar(a: string, b: string)
    requires Glues(a)
    requires Lines(a[1..] + b) == Init(Lines(a[1..])) + Lines(Last(Lines(a[1..])) + b)
    ensures Lines(a + b) == Init(Lines(a)) + Lines(Last(Lines(a)) + b)
  {
    if |Lines(a)| == 1 {
      SingleLine(a);
      assert Init([a]) == [];
    } else {
      var r := Lines(a[1..]);
      assert Lines(a) == Glue(a[0], r);
      GlueFirst(a[0], r, Lines(Last(r) + b));
      GluesOn(a, b);
    }
  }
}
