/** What the host verifier guarantees about the known_hosts file it leaves behind. */
module KnownHostsSafety {
  import opened Options
  import opened Sequences
  import opened JsText
  import opened WordSplitting
  import opened KnownHosts

  // ----- Entries do not depend on line endings -----

  function ParseWords(parts: seq<string>): Option<Entry>
    requires forall i :: 0 <= i < |parts| ==> IsWord(parts[i])
  {
    if |parts| < 3 then None
    else
      assert IsWord(parts[0]);
      if parts[0][0] == '#' then None
      else if parts[0][0] == '@' then
        if |parts| < 4 then None else Some(Entry(Some(parts[0]), parts[1], parts[2], parts[3]))
      else Some(Entry(None, parts[0], parts[1], parts[2]))
  }

  lemma ParseByWords(line: string)
    ensures ParseLine(line) == ParseWords(Words(line))
  {
    WordsTrim(line);
    var trimmed := Trim(line);
    if trimmed != "" {
      var parts := Words(trimmed);
      assert parts[0] == trimmed[..WordLength(trimmed)];
      assert parts[0][0] == trimmed[0];
    }
  }

  lemma ParseChomp(line: string)
    ensures ParseLine(Chomp(line)) == ParseLine(line)
  {
    ParseByWords(line);
    ParseByWords(Chomp(line));
    WordsChomp(line);
  }

  lemma NoEntry()
    ensures ParsedLines([""]) == []
  {
    assert [""][1..] == [];
    ParseByWords("");
  }

  // ----- Appending a line -----

  lemma {:induction false} LastAfterFeed(text: string)
    requires text != "" && text[|text| - 1] == '\n'
    ensures Last(Lines(text)) == ""
    decreases |text|
  {
    if |text| == 1 {
      assert text[1..] == "";
    } else {
      if |text| > 2 || text[0] != '\r' {
        LastAfterFeed(text[1..]);
      }
      if |text| > 2 {
        LastAfterFeed(text[2..]);
      }
      LastOfLines(text);
      if |Lines(text[1..])| == 1 {
        LastOfSingle(text);
      }
    }
  }

  lemma LastOfLines(text: string)
    requires |text| >= 2
    ensures text[0] == '\n' ==> Last(Lines(text)) == Last(Lines(text[1..]))
    ensures text[0] == '\r' && text[1] == '\n' ==> Last(Lines(text)) == Last(Lines(text[2..]))
    ensures Glues(text) && |Lines(text[1..])| > 1 ==> Last(Lines(text)) == Last(Lines(text[1..]))
  {
  }

  lemma LastOfSingle(text: string)
    requires |text| >= 2 && |Lines(text[1..])| == 1
    ensures text[|text| - 1] != '\n'
  {
    SingleLine(text[1..]);
    LinesHaveNoFeed(text[1..]);
    assert text[1..] in Lines(text[1..]);
    assert text[|text| - 1] == text[1..][|text| - 2];
  }

  lemma {:induction false} EmptyLast(text: string)
    requires Last(Lines(text)) == ""
    ensures text == "" || text[|text| - 1] == '\n'
    decreases |text|
  {
    if |text| == 1 {
      assert text[1..] == "";
    } else if |text| >= 2 {
      LastOfLines(text);
      if Glues(text) && |Lines(text[1..])| == 1 {
        SingleLine(text);
      } else if Glues(text) || text[0] == '\n' {
        EmptyLast(text[1..]);
      } else {
        EmptyLast(text[2..]);
      }
    }
  }

  /** The lines of a text once its last line is ended with a line feed. */
  function Settled(lines: seq<string>): seq<string>
    requires lines != []
  {
    if Last(lines) == "" then Init(lines) else Init(lines) + [Chomp(Last(lines))]
  }

  lemma LinesOfClosed(text: string, more: string)
    requires Last(Lines(text)) == ""
    ensures Lines(text + more) == Init(Lines(text)) + Lines(more)
  {
    LinesResume(text, more);
    assert "" + more == more;
  }

  lemma LinesOfOpen(text: string, more: string)
    ensures Lines(text + "\n" + more) == Init(Lines(text)) + [Chomp(Last(Lines(text)))] + Lines(more)
  {
    var last := Last(Lines(text));
    LinesResume(text, "\n" + more);
    LinesHaveNoFeed(text);
    assert last in Lines(text);
    LinesOfLine(last, more);
    assert text + "\n" + more == text + ("\n" + more);
    assert last + ("\n" + more) == last + "\n" + more;
  }

  lemma LinesOfAppendedClosed(text: string, more: string)
    requires text == "" || text[|text| - 1] == '\n'
    ensures Lines(text + more) == Settled(Lines(text)) + Lines(more)
  {
    if text != "" {
      LastAfterFeed(text);
    }
    LinesOfClosed(text, more);
  }

  lemma LinesOfAppendedOpen(text: string, more: string)
    requires text != "" && text[|text| - 1] != '\n'
    ensures Lines(text + "\n" + more) == Settled(Lines(text)) + Lines(more)
  {
    if Last(Lines(text)) == "" {
      EmptyLast(text);
    }
    LinesOfOpen(text, more);
  }

  /** Appending keeps every line and puts the new one behind them. */
  lemma LinesOfAppended(text: string, t: Target, key: HostKey)
    ensures Lines(Appended(text, t, key)) == Settled(Lines(text)) + Lines(NewLine(t, key) + "\n")
  {
    var more := NewLine(t, key) + "\n";
    if text == "" || text[|text| - 1] == '\n' {
      LinesOfAppendedClosed(text, more);
    } else {
      LinesOfAppendedOpen(text, more);
    }
  }

  lemma ParsedSettled(lines: seq<string>)
    requires lines != []
    ensures ParsedLines(Settled(lines)) == ParsedLines(lines)
  {
    var init, last := Init(lines), Last(lines);
    assert lines == init + [last];
    ParsedSnoc(init, last);
    ParsedSnoc(init, Chomp(last));
    ParseChomp(last);
    ParseByWords("");
  }

  lemma EntriesOfAppended(text: string, t: Target, key: HostKey)
    ensures Entries(Appended(text, t, key)) == Entries(text) + Entries(NewLine(t, key) + "\n")
  {
    LinesOfAppended(text, t, key);
    ParsedAppend(Settled(Lines(text)), Lines(NewLine(t, key) + "\n"));
    ParsedSettled(Lines(text));
  }

  // ----- Verdicts -----

  lemma {:induction false} CheckAfterNotFound(m: Matchers, a: seq<Entry>, b: seq<Entry>, t: Target, key: HostKey)
    requires CheckEntries(m, a, t, key) == NotFound
    ensures CheckEntries(m, a + b, t, key) == CheckEntries(m, b, t, key)
    decreases |a|
  {
    if a == [] {
      assert a + b == b;
    } else {
      CheckAfterNotFound(m, a[1..], b, t, key);
      assert (a + b)[0] == a[0] && (a + b)[1..] == a[1..] + b;
    }
  }

  /** No entry concerns the host and key type exactly when the verdict is "not found". */
  lemma {:induction false} NotFoundIff(m: Matchers, entries: seq<Entry>, t: Target, key: HostKey)
    ensures CheckEntries(m, entries, t, key) == NotFound <==>
            forall e :: e in entries ==> !Concerns(m, e, t, key.keyType)
    decreases |entries|
  {
    if entries != [] {
      NotFoundIff(m, entries[1..], t, key);
      assert entries == [entries[0]] + entries[1..];
    }
  }

  // ----- The new entry -----

  /** No character with a special meaning to the token matcher. */
  predicate IsLiteral(s: string) { '*' !in s && '?' !in s && '|' !in s }

  predicate LiteralKey(key: HostKey) { ValidKey(key) && IsLiteral(key.keyType) && IsLiteral(key.keyData) }

  /** A host token that is read back as one plain name. */
  predicate PlainName(token: string)
  {
    IsWord(token) && ',' !in token && token[0] != '#' && token[0] != '@' && token[0] != '!'
  }

  lemma TokenCharacters(t: Target)
    ensures var host, token := NormalizeHost(t.host), HostToken(t);
            && (forall c :: c in host ==> c in token)
            && (forall candidate, c :: candidate in Candidates(t) && c in host ==> c in candidate)
            && (IsLiteral(t.host) ==> IsLiteral(token))
            && (forall c :: c in token && (IsSpace(c) || c == ',') ==> c in host)
  {
    var host, token := NormalizeHost(t.host), HostToken(t);
    forall c | c in host
      ensures c in token
      ensures forall candidate :: candidate in Candidates(t) ==> c in candidate
    {
      var i :| 0 <= i < |host| && host[i] == c;
      assert WithPort(host, PortNumber(t.port))[i + 1] == c;
    }
    WithPortCharacters(host, PortNumber(t.port));
    assert forall c :: c in host ==> c in t.host;
  }

  lemma WithPortCharacters(host: string, port: nat)
    ensures forall c :: c in WithPort(host, port) ==> c in host || c == '[' || c == ']' || c == ':' || '0' <= c <= '9'
  {
    var w, digits := WithPort(host, port), Decimal(port);
    forall c | c in w
      ensures c in host || c == '[' || c == ']' || c == ':' || '0' <= c <= '9'
    {
      var i :| 0 <= i < |w| && w[i] == c;
      if 0 < i <= |host| {
        assert c == host[i - 1];
      } else if i >= |host| + 3 {
        assert c == digits[i - |host| - 3];
      }
    }
  }

  lemma {:induction false} SplitPlain(s: string, c: char)
    requires c !in s
    ensures SplitOn(s, c) == [s]
  {
    if s != "" {
      SplitPlain(s[1..], c);
      assert [s[0]] + s[1..] == s;
    }
  }

  lemma {:induction false} SplitCharacters(s: string, c: char)
    ensures forall part :: part in SplitOn(s, c) ==> c !in part && forall x :: x in part ==> x in s
  {
    if s != "" {
      SplitCharacters(s[1..], c);
      var rest := SplitOn(s[1..], c);
      assert rest[0] in rest;
    }
  }

  lemma {:induction false} TrimStartCharacters(s: string)
    ensures forall x :: x in TrimStart(s) ==> x in s
  {
    if s != "" {
      TrimStartCharacters(s[1..]);
    }
  }

  /** Tokens are made of the field's characters, without commas. */
  lemma TokensCharacters(field: string)
    ensures forall token :: token in Tokens(field) ==> ',' !in token && forall x :: x in token ==> x in field
  {
    var parts := SplitOn(field, ',');
    SplitCharacters(field, ',');
    forall token | token in Tokens(field)
      ensures ',' !in token && forall x :: x in token ==> x in field
    {
      FilterIn(t => t != "", Map(t => Trim(t), parts), token);
      var i :| 0 <= i < |parts| && Map(t => Trim(t), parts)[i] == token;
      assert parts[i] in parts;
      TrimStartCharacters(parts[i]);
      assert TrimEnd(TrimStart(parts[i])) <= TrimStart(parts[i]);
    }
  }

  lemma TrimWord(w: string)
    requires IsWord(w)
    ensures Trim(w) == w
  {
    assert TrimStart(w) == w;
  }

  lemma TokensOfPlain(w: string)
    requires IsWord(w) && ',' !in w
    ensures Tokens(w) == [w]
  {
    SplitPlain(w, ',');
    TrimWord(w);
    var trimmed := Map(t => Trim(t), [w]);
    assert trimmed == [w];
    assert trimmed[1..] == [];
  }

  lemma HashedHasBar(token: string)
    ensures StartsWith(token, "|1|") ==> '|' in token
  {
    if StartsWith(token, "|1|") {
      assert token[0] == '|';
    }
  }

  /** A literal field matches only when one of its tokens is a candidate, or would be without its '!'. */
  lemma LiteralFieldMatch(m: Matchers, field: string, t: Target)
    requires IsLiteral(field) && FieldMatches(m, field, t)
    ensures exists token :: token in Tokens(field) && token in Candidates(t) && !IsNegative(token)
  {
    TokensCharacters(field);
    var token :| token in Tokens(field) && !IsNegative(token) && TokenMatches(m, token, Candidates(t));
    HashedHasBar(token);
    assert token in Candidates(t);
  }

  /** A host name with a space or comma is matched by no literal entry of the file format. */
  lemma OddHostNeverMatches(m: Matchers, field: string, t: Target)
    requires IsLiteral(field) && IsWord(field)
    requires exists c :: c in NormalizeHost(t.host) && (IsSpace(c) || c == ',')
    ensures !FieldMatches(m, field, t)
  {
    var c :| c in NormalizeHost(t.host) && (IsSpace(c) || c == ',');
    TokensCharacters(field);
    TokenCharacters(t);
    forall token | token in Tokens(field)
      ensures token !in Candidates(t)
    {
      assert c !in token;
    }
    if FieldMatches(m, field, t) {
      LiteralFieldMatch(m, field, t);
    }
  }

  lemma {:induction false} LinesCharacters(text: string)
    ensures forall line :: line in Lines(text) ==> forall c :: c in line ==> c in text
    decreases |text|
  {
    if text != "" {
      LinesCharacters(text[1..]);
      if |text| >= 2 {
        LinesCharacters(text[2..]);
      }
      var rest := Lines(text[1..]);
      assert rest[0] in rest;
      forall line, c | line in Lines(text) && c in line
        ensures c in text
      {
        if Glues(text) {
          assert line == [text[0]] + rest[0] || line in rest;
        } else if text[0] == '\n' {
          assert line == "" || line in rest;
        } else {
          assert line == "" || line in Lines(text[2..]);
        }
      }
    }
  }

  lemma {:induction false} WordsCharacters(s: string)
    ensures forall w :: w in Words(s) ==> forall c :: c in w ==> c in s
    decreases |s|
  {
    if s != "" {
      if IsSpace(s[0]) {
        WordsCharacters(s[1..]);
      } else {
        WordsCharacters(s[WordLength(s)..]);
      }
    }
  }

  lemma {:induction false} EntryOfLine(lines: seq<string>, e: Entry)
    requires e in ParsedLines(lines)
    ensures exists line :: line in lines && ParseLine(line) == Some(e)
  {
    var first := ParseLine(lines[0]);
    if first == Some(e) {
      assert lines[0] in lines;
    } else {
      EntryOfLine(lines[1..], e);
      var line :| line in lines[1..] && ParseLine(line) == Some(e);
      assert line in lines;
    }
  }

  /** The host field of an entry is made of characters of the text. */
  lemma HostsCharacters(text: string, e: Entry)
    requires e in Entries(text)
    ensures IsWord(e.hosts) && forall c :: c in e.hosts ==> c in text
  {
    EntryOfLine(Lines(text), e);
    var line :| line in Lines(text) && ParseLine(line) == Some(e);
    LinesCharacters(text);
    ParseByWords(line);
    WordsCharacters(line);
    assert e.hosts in Words(line);
  }

  lemma WordsOfTail(keyType: string, keyData: string)
    requires IsWord(keyType) && IsWord(keyData)
    ensures Words(" " + keyType + " " + keyData) == [keyType, keyData]
  {
    var tail := " " + keyType + " " + keyData;
    assert keyData + "" == keyData;
    WordsOfWord(keyData, "");
    assert (" " + keyData)[1..] == keyData;
    WordsOfWord(keyType, " " + keyData);
    assert tail[1..] == keyType + (" " + keyData);
  }

  lemma NewLineInTwo(t: Target, key: HostKey)
    ensures NewLine(t, key) == HostToken(t) + (" " + key.keyType + " " + key.keyData)
  {
  }

  /** Written for a name that is one word, the new line has three words. */
  lemma WordsOfNewLine(t: Target, key: HostKey)
    requires ValidKey(key) && (HostToken(t) == "" || IsWord(HostToken(t)))
    ensures Words(NewLine(t, key)) == (if HostToken(t) == "" then [] else [HostToken(t)]) + [key.keyType, key.keyData]
  {
    var token, tail := HostToken(t), " " + key.keyType + " " + key.keyData;
    WordsOfTail(key.keyType, key.keyData);
    NewLineInTwo(t, key);
    if token == "" {
      assert token + tail == tail;
    } else {
      WordsOfWord(token, tail);
    }
  }

  lemma EntriesOfNewLine(t: Target, key: HostKey)
    requires ValidKey(key) && (HostToken(t) == "" || IsWord(HostToken(t)))
    ensures var e := ParseWords(Words(NewLine(t, key)));
            Entries(NewLine(t, key) + "\n") == if e.Some? then [e.value] else []
  {
    var line := NewLine(t, key);
    forall i | 0 <= i < |line|
      ensures line[i] != '\n'
    {
      assert IsSpace('\n');
    }
    assert line + "\n" == line + "\n" + "";
    LinesOfLine(line, "");
    assert Lines("") == [""];
    ParsedSnoc([Chomp(line)], "");
    ParsedSnoc([], Chomp(line));
    assert [] + [Chomp(line)] == [Chomp(line)];
    ParseByWords("");
    ParseChomp(line);
    ParseByWords(line);
  }

  lemma OddLine(m: Matchers, t: Target, key: HostKey)
    requires LiteralKey(key) && IsLiteral(t.host)
    requires exists c :: c in NormalizeHost(t.host) && (IsSpace(c) || c == ',')
    ensures CheckEntries(m, Entries(NewLine(t, key) + "\n"), t, key) == NotFound
  {
    var entries := Entries(NewLine(t, key) + "\n");
    LineIsLiteral(t, key);
    forall e | e in entries
      ensures !Concerns(m, e, t, key.keyType)
    {
      HostsCharacters(NewLine(t, key) + "\n", e);
      OddHostNeverMatches(m, e.hosts, t);
    }
    NotFoundIff(m, entries, t, key);
  }

  lemma LineIsLiteral(t: Target, key: HostKey)
    requires LiteralKey(key) && IsLiteral(t.host)
    ensures IsLiteral(NewLine(t, key) + "\n")
  {
    TokenCharacters(t);
  }

  /** The verdict on the freshly written line alone. */
  lemma NewLineIff(m: Matchers, t: Target, key: HostKey)
    requires LiteralKey(key) && IsLiteral(t.host)
    ensures var status := CheckEntries(m, Entries(NewLine(t, key) + "\n"), t, key);
            if PlainName(HostToken(t)) then status == Match else status == NotFound
  {
    var token := HostToken(t);
    TokenCharacters(t);
    if exists c :: c in NormalizeHost(t.host) && (IsSpace(c) || c == ',') {
      var c :| c in NormalizeHost(t.host) && (IsSpace(c) || c == ',');
      assert c in token;
      OddLine(m, t, key);
    } else {
      OneWordLine(m, t, key);
    }
  }

  lemma PlainFieldMatches(m: Matchers, t: Target)
    requires IsLiteral(t.host) && IsWord(HostToken(t)) && ',' !in HostToken(t)
    ensures FieldMatches(m, HostToken(t), t) <==> HostToken(t)[0] != '!'
  {
    var token := HostToken(t);
    TokenCharacters(t);
    TokensOfPlain(token);
    HashedHasBar(token);
    assert token in Tokens(token);
    assert IsNegative(token) <==> token[0] == '!';
    if token[0] != '!' {
      assert TokenMatches(m, token, Candidates(t));
    }
  }

  lemma OneEntry(m: Matchers, e: Entry, t: Target, key: HostKey)
    requires e == Entry(None, e.hosts, key.keyType, key.keyData)
    ensures CheckEntries(m, [e], t, key) == if FieldMatches(m, e.hosts, t) then Match else NotFound
  {
    assert [e][1..] == [];
  }

  lemma OneWordLine(m: Matchers, t: Target, key: HostKey)
    requires LiteralKey(key) && IsLiteral(t.host)
    requires !exists c :: c in NormalizeHost(t.host) && (IsSpace(c) || c == ',')
    ensures var status := CheckEntries(m, Entries(NewLine(t, key) + "\n"), t, key);
            if PlainName(HostToken(t)) then status == Match else status == NotFound
  {
    var token, entries := HostToken(t), Entries(NewLine(t, key) + "\n");
    TokenCharacters(t);
    assert forall i :: 0 <= i < |token| ==> token[i] in token && !IsSpace(token[i]);
    WordsOfNewLine(t, key);
    EntriesOfNewLine(t, key);
    if token == "" || token[0] == '#' || token[0] == '@' {
      assert entries == [];
    } else {
      assert IsWord(token) && ',' !in token;
      OneEntry(m, Entry(None, token, key.keyType, key.keyData), t, key);
      PlainFieldMatches(m, t);
    }
  }

  // ----- Removing lines -----

  function ChompInit(lines: seq<string>): (r: seq<string>)
    ensures |r| == |lines|
  {
    if |lines| <= 1 then lines else [Chomp(lines[0])] + ChompInit(lines[1..])
  }

  lemma {:induction false} LinesOfJoin(lines: seq<string>)
    requires lines != [] && forall line :: line in lines ==> '\n' !in line
    ensures Lines(Join(lines)) == ChompInit(lines)
    decreases |lines|
  {
    if |lines| == 1 {
      OneLine(lines[0]);
    } else {
      LinesOfJoin(lines[1..]);
      LinesOfLine(lines[0], Join(lines[1..]));
    }
  }

  lemma {:induction false} ParsedChompInit(lines: seq<string>)
    ensures ParsedLines(ChompInit(lines)) == ParsedLines(lines)
    decreases |lines|
  {
    if |lines| > 1 {
      ParsedChompInit(lines[1..]);
      ParseChomp(lines[0]);
      assert ChompInit(lines)[1..] == ChompInit(lines[1..]);
    }
  }

  ghost function Unconcerned(m: Matchers, t: Target, keyType: string): Entry -> bool
  {
    e => !Concerns(m, e, t, keyType)
  }

  lemma {:induction false} ParsedFilter(keepLine: string -> bool, keepEntry: Entry -> bool, lines: seq<string>)
    requires forall line :: keepLine(line) <==> (ParseLine(line).Some? ==> keepEntry(ParseLine(line).value))
    ensures ParsedLines(Filter(keepLine, lines)) == Filter(keepEntry, ParsedLines(lines))
    decreases |lines|
  {
    if lines != [] {
      var line, rest := lines[0], lines[1..];
      assert lines == [line] + rest;
      ParsedFilter(keepLine, keepEntry, rest);
      ParsedCons(line, Filter(keepLine, rest));
      ParsedCons(line, rest);
      if ParseLine(line).Some? {
        FilterCons(keepEntry, ParseLine(line).value, ParsedLines(rest));
      }
    }
  }

  lemma ParsedKept(m: Matchers, lines: seq<string>, t: Target, keyType: string)
    ensures ParsedLines(KeptLines(m, lines, t, keyType)) ==
            Filter(Unconcerned(m, t, keyType), ParsedLines(lines))
  {
    ParsedFilter(Keeper(m, t, keyType), Unconcerned(m, t, keyType), lines);
  }

  /** Exactly the entries for this host and key type are gone. */
  lemma EntriesOfRemoved(m: Matchers, text: string, t: Target, keyType: string)
    ensures Entries(Removed(m, text, t, keyType)) == Filter(Unconcerned(m, t, keyType), Entries(text))
  {
    NoEntry();
    if text == "" {
      assert Lines("") == [""];
    } else {
      var kept := KeptLines(m, Lines(text), t, keyType);
      ParsedKept(m, Lines(text), t, keyType);
      if kept == [] {
        assert Lines("") == [""];
      } else {
        LinesHaveNoFeed(text);
        KeptAreLines(m, Lines(text), t, keyType);
        LinesOfJoin(kept);
        ParsedChompInit(kept);
      }
    }
  }

  lemma KeptAreLines(m: Matchers, lines: seq<string>, t: Target, keyType: string)
    ensures forall line :: line in KeptLines(m, lines, t, keyType) ==> line in lines
  {
    forall line | line in KeptLines(m, lines, t, keyType)
      ensures line in lines
    {
      FilterIn(Keeper(m, t, keyType), lines, line);
    }
  }

  lemma NothingLeft(m: Matchers, text: string, t: Target, key: HostKey)
    ensures Check(m, Removed(m, text, t, key.keyType), t, key) == NotFound
  {
    EntriesOfRemoved(m, text, t, key.keyType);
    var keep := Unconcerned(m, t, key.keyType);
    forall e | e in Filter(keep, Entries(text))
      ensures !Concerns(m, e, t, key.keyType)
    {
      FilterIn(keep, Entries(text), e);
    }
    NotFoundIff(m, Filter(keep, Entries(text)), t, key);
  }

  // ----- The verifier -----

  lemma AppendedIsFoundIff(m: Matchers, text: string, t: Target, key: HostKey)
    requires LiteralKey(key) && IsLiteral(t.host)
    requires Check(m, text, t, key) == NotFound
    ensures var after := Check(m, Appended(text, t, key), t, key);
            if PlainName(HostToken(t)) then after == Match else after == NotFound
  {
    EntriesOfAppended(text, t, key);
    CheckAfterNotFound(m, Entries(text), Entries(NewLine(t, key) + "\n"), t, key);
    NewLineIff(m, t, key);
  }

  /**
   * A key accepted by any route is found again exactly when it was there already or
   * the host's name can be written as one plain name of the file format.
   */
  lemma AcceptedIsFoundIff(m: Matchers, text: string, t: Target, key: HostKey, confirmed: bool)
    requires LiteralKey(key) && IsLiteral(t.host)
    requires Verified(m, text, t, key, confirmed).0
    ensures var after := Check(m, Verified(m, text, t, key, confirmed).1, t, key);
            after == Match <==> Check(m, text, t, key) == Match || PlainName(HostToken(t))
  {
    match Check(m, text, t, key)
    case Match =>
    case Revoked =>
    case NotFound => AppendedIsFoundIff(m, text, t, key);
    case Mismatch =>
      NothingLeft(m, text, t, key);
      AppendedIsFoundIff(m, Removed(m, text, t, key.keyType), t, key);
  }

  lemma {:induction false} CheckAppend(m: Matchers, a: seq<Entry>, b: seq<Entry>, t: Target, key: HostKey)
    ensures var first, second := CheckEntries(m, a, t, key), CheckEntries(m, b, t, key);
            CheckEntries(m, a + b, t, key) ==
            match first
            case Match => Match
            case Revoked => Revoked
            case NotFound => second
            case Mismatch => if second == NotFound then Mismatch else second
    decreases |a|
  {
    if a == [] {
      assert a + b == b;
    } else {
      CheckAppend(m, a[1..], b, t, key);
      assert (a + b)[0] == a[0] && (a + b)[1..] == a[1..] + b;
    }
  }

  /** Appending to any text: the key is found exactly if it was found there, or is not revoked there and the name is plain. */
  lemma LateAppendIff(m: Matchers, now: string, t: Target, key: HostKey)
    requires LiteralKey(key) && IsLiteral(t.host)
    ensures Check(m, Appended(now, t, key), t, key) == Match <==>
              Check(m, now, t, key) == Match || (Check(m, now, t, key) != Revoked && PlainName(HostToken(t)))
  {
    EntriesOfAppended(now, t, key);
    CheckAppend(m, Entries(now), Entries(NewLine(t, key) + "\n"), t, key);
    NewLineIff(m, t, key);
  }

  /**
   * The file may change between the verdict and the user's answer, as when two verifiers overlap. A
   * key that is accepted after a verdict of "unknown" or "changed" is found in the file as it then is
   * exactly if it was there already when it was written, or the name is plain; but an unknown key
   * that was revoked meanwhile stays revoked, and a changed one replaces whatever is there.
   */
  lemma LateAnswerIff(m: Matchers, now: string, t: Target, key: HostKey, status: Status)
    requires LiteralKey(key) && IsLiteral(t.host) && (status == NotFound || status == Mismatch)
    ensures var (accepted, text) := Answered(m, now, t, key, status, true);
            && accepted
            && (Check(m, text, t, key) == Match <==>
                  if status == Mismatch then PlainName(HostToken(t))
                  else Check(m, now, t, key) == Match || (Check(m, now, t, key) != Revoked && PlainName(HostToken(t))))
  {
    if status == Mismatch {
      NothingLeft(m, now, t, key);
      LateAppendIff(m, Removed(m, now, t, key.keyType), t, key);
    } else {
      LateAppendIff(m, now, t, key);
    }
  }

  /** A name that is accepted and written but never found again: the line reads as a comment. */
  lemma CommentHostIsForgotten(m: Matchers, key: HostKey)
    requires LiteralKey(key)
    ensures var t := Target("#build", None);
            var (accepted, text) := Verified(m, "", t, key, true);
            accepted && Check(m, text, t, key) == NotFound
  {
    var t := Target("#build", None);
    assert Lines("") == [""];
    NoEntry();
    AppendedIsFoundIff(m, "", t, key);
  }

  // ----- What else is in the file -----

  /** The same lines, up to a carriage return at the end of some. */
  ghost predicate SameLines(a: seq<string>, b: seq<string>)
  {
    |a| == |b| && forall i :: 0 <= i < |a| ==> b[i] == a[i] || b[i] == Chomp(a[i])
  }

  /** Without the empty piece after a final line feed. */
  function Body(lines: seq<string>): seq<string>
  {
    if lines != [] && Last(lines) == "" then Init(lines) else lines
  }

  lemma {:induction false} ChompInitAt(lines: seq<string>, i: nat)
    requires i < |lines|
    ensures ChompInit(lines)[i] == if i == |lines| - 1 then lines[i] else Chomp(lines[i])
    decreases |lines|
  {
    if i > 0 {
      ChompInitAt(lines[1..], i - 1);
    }
  }

  lemma ChompInitIsSame(lines: seq<string>)
    ensures SameLines(lines, ChompInit(lines))
    ensures lines != [] ==> Last(ChompInit(lines)) == Last(lines)
    ensures lines != [] ==> SameLines(Init(lines), Init(ChompInit(lines)))
  {
    forall i | 0 <= i < |lines|
      ensures ChompInit(lines)[i] == if i == |lines| - 1 then lines[i] else Chomp(lines[i])
    {
      ChompInitAt(lines, i);
    }
  }

  /** The kept lines, each ended with a line feed. */
  function Survivors(kept: seq<string>): seq<string>
  {
    if kept == [] then [] else Settled(ChompInit(kept))
  }

  lemma SurvivorsAreSame(kept: seq<string>)
    ensures SameLines(Body(kept), Survivors(kept))
  {
    ChompInitIsSame(kept);
  }

  lemma SettledRemoved(m: Matchers, text: string, t: Target, keyType: string)
    ensures Settled(Lines(Removed(m, text, t, keyType))) == Survivors(KeptLines(m, Lines(text), t, keyType))
  {
    var kept := KeptLines(m, Lines(text), t, keyType);
    assert Lines("") == [""] && Settled([""]) == [];
    if text == "" {
      EmptyIsKept(m, t, keyType);
    } else if kept != [] {
      LinesHaveNoFeed(text);
      KeptAreLines(m, Lines(text), t, keyType);
      LinesOfJoin(kept);
    }
  }

  /** Replacing keeps, in order, every line that is no entry for this host and key type. */
  lemma ReplaceKeepsLines(m: Matchers, text: string, t: Target, key: HostKey)
    ensures var kept := KeptLines(m, Lines(text), t, key.keyType);
            && Lines(Replaced(m, text, t, key)) == Survivors(kept) + Lines(NewLine(t, key) + "\n")
            && SameLines(Body(kept), Survivors(kept))
  {
    LinesOfAppended(Removed(m, text, t, key.keyType), t, key);
    SettledRemoved(m, text, t, key.keyType);
    SurvivorsAreSame(KeptLines(m, Lines(text), t, key.keyType));
  }

  lemma EmptyIsKept(m: Matchers, t: Target, keyType: string)
    ensures KeptLines(m, [""], t, keyType) == [""]
  {
    ParseByWords("");
    FilterOne(Keeper(m, t, keyType), "");
  }

  /** Appending keeps every line. */
  lemma AppendKeepsLines(text: string, t: Target, key: HostKey)
    ensures Lines(Appended(text, t, key)) == Settled(Lines(text)) + Lines(NewLine(t, key) + "\n")
    ensures SameLines(Body(Lines(text)), Settled(Lines(text)))
  {
    LinesOfAppended(text, t, key);
    SettledIsSame(Lines(text));
  }

  lemma SettledIsSame(lines: seq<string>)
    requires lines != []
    ensures SameLines(Body(lines), Settled(lines))
  {
  }
  /**
   * What an answer leaves in the file. Accepting an unknown key keeps every line and puts the new one
   * behind them; accepting a changed one takes out the entries for this host and key type first;
   * every other answer leaves the file as it is.
   */
  lemma AnswerKeepsLines(m: Matchers, now: string, t: Target, key: HostKey, status: Status, confirmed: bool)
    ensures var (accepted, text) := Answered(m, now, t, key, status, confirmed);
            var added := Lines(NewLine(t, key) + "\n");
            if accepted && status == NotFound then Lines(text) == Settled(Lines(now)) + added
            else if accepted && status == Mismatch then
              Lines(text) == Survivors(KeptLines(m, Lines(now), t, key.keyType)) + added
            else text == now
  {
    AppendKeepsLines(now, t, key);
    ReplaceKeepsLines(m, now, t, key);
  }

  // ----- What a verdict means -----

  /** An entry for this host with exactly this key. */
  ghost predicate IsExact(m: Matchers, e: Entry, t: Target, key: HostKey)
  {
    Concerns(m, e, t, key.keyType) && e.keyData == key.keyData
  }

  /** Entry `i` is the first one. */
  ghost predicate FirstExact(m: Matchers, entries: seq<Entry>, t: Target, key: HostKey, i: nat)
  {
    && i < |entries| && IsExact(m, entries[i], t, key)
    && forall j :: 0 <= j < i ==> !IsExact(m, entries[j], t, key)
  }

  lemma NotExactFirst(m: Matchers, entries: seq<Entry>, t: Target, key: HostKey)
    requires entries != [] && !IsExact(m, entries[0], t, key)
    ensures var rest := CheckEntries(m, entries[1..], t, key);
            rest == Match || rest == Revoked ==> CheckEntries(m, entries, t, key) == rest
  {
  }

  /** The first entry with exactly this key decides whether it is trusted or revoked. */
  lemma {:induction false} FirstExactDecides(m: Matchers, entries: seq<Entry>, t: Target, key: HostKey, i: nat)
    requires FirstExact(m, entries, t, key, i)
    ensures CheckEntries(m, entries, t, key) == if entries[i].marker == Some("@revoked") then Revoked else Match
    decreases |entries|
  {
    if i > 0 {
      NotExactFirst(m, entries, t, key);
      FirstExactDecides(m, entries[1..], t, key, i - 1);
    }
  }

  lemma {:induction false} NoExactIff(m: Matchers, entries: seq<Entry>, t: Target, key: HostKey)
    ensures CheckEntries(m, entries, t, key) == Mismatch || CheckEntries(m, entries, t, key) == NotFound <==>
            forall e :: e in entries && Concerns(m, e, t, key.keyType) ==> e.keyData != key.keyData
    decreases |entries|
  {
    if entries != [] {
      NoExactIff(m, entries[1..], t, key);
      assert entries == [entries[0]] + entries[1..];
    }
  }

  /** Without one, the key has changed exactly if there is an entry for this host and key type. */
  lemma MismatchIff(m: Matchers, entries: seq<Entry>, t: Target, key: HostKey)
    ensures CheckEntries(m, entries, t, key) == Mismatch <==>
              && (exists e :: e in entries && Concerns(m, e, t, key.keyType))
              && (forall e :: e in entries && Concerns(m, e, t, key.keyType) ==> e.keyData != key.keyData)
  {
    NoExactIff(m, entries, t, key);
    NotFoundIff(m, entries, t, key);
  }

  // ----- What a line means -----

  /** Words with one space between any two of them. */
  function Spaced(words: seq<string>): string
  {
    if words == [] then "" else if |words| == 1 then words[0] else words[0] + (" " + Spaced(words[1..]))
  }

  lemma {:induction false} WordsOfSpaced(words: seq<string>)
    requires forall i :: 0 <= i < |words| ==> IsWord(words[i])
    ensures Words(Spaced(words)) == words
  {
    if |words| == 1 {
      WordsOfWord(words[0], "");
      assert words[0] + "" == words[0];
    } else if |words| > 1 {
      var rest := Spaced(words[1..]);
      WordsOfSpaced(words[1..]);
      assert (" " + rest)[1..] == rest;
      WordsOfWord(words[0], " " + rest);
    }
  }

  /** Three words, the first without a mark, are an entry; further words do not matter. */
  lemma PlainLine(words: seq<string>)
    requires |words| >= 3 && forall i :: 0 <= i < |words| ==> IsWord(words[i])
    requires !("#" <= words[0]) && !("@" <= words[0])
    ensures ParseLine(Spaced(words)) == Some(Entry(None, words[0], words[1], words[2]))
  {
    WordsOfSpaced(words);
    ParseByWords(Spaced(words));
  }

  /** A word with a mark in front of them is the marker of the entry. */
  lemma MarkedLine(words: seq<string>)
    requires |words| >= 4 && forall i :: 0 <= i < |words| ==> IsWord(words[i])
    requires "@" <= words[0]
    ensures ParseLine(Spaced(words)) == Some(Entry(Some(words[0]), words[1], words[2], words[3]))
  {
    WordsOfSpaced(words);
    ParseByWords(Spaced(words));
  }

  /** Comments and lines of fewer words are no entries. */
  lemma NoEntryIff(line: string)
    ensures ParseLine(line).None? <==>
              var words := Words(line);
              |words| < 3 || words[0][0] == '#' || (words[0][0] == '@' && |words| == 3)
  {
    ParseByWords(line);
    if Words(line) != [] {
      assert IsWord(Words(line)[0]);
    }
  }

  // ----- What a host field means -----

  /** The two names of a target: the host, if it has a name, and the host with its port. */
  predicate IsNameOf(name: string, t: Target)
  {
    var host := if |t.host| >= 2 && t.host[0] == '[' && t.host[|t.host| - 1] == ']' then t.host[1..|t.host| - 1] else t.host;
    var port := if t.port.Some? && t.port.value > 0 then t.port.value else 22;
    (name == host && host != "") || name == "[" + host + "]:" + Decimal(port)
  }

  /** A pattern of the host field stands for a name: by its hash, as a wildcard or literally. */
  predicate StandsFor(m: Matchers, pattern: string, name: string)
  {
    && pattern != ""
    && (if "|1|" <= pattern then m.hashed(pattern, name)
        else if '*' in pattern || '?' in pattern then m.wild(pattern, name)
        else pattern == name)
  }

  ghost predicate StandsForTarget(m: Matchers, pattern: string, t: Target)
  {
    exists name :: IsNameOf(name, t) && StandsFor(m, pattern, name)
  }

  lemma TokenStandsFor(m: Matchers, token: string, t: Target)
    ensures TokenMatches(m, token, Candidates(t)) <==> StandsForTarget(m, token, t)
  {
    var c := Candidates(t);
    forall name
      ensures IsNameOf(name, t) <==> name in c
    {
    }
    if TokenMatches(m, token, c) {
      if StartsWith(token, "|1|") {
        var i :| 0 <= i < |c| && m.hashed(token, c[i]);
        assert IsNameOf(c[i], t) && StandsFor(m, token, c[i]);
      } else if IsWildcard(token) {
        var i :| 0 <= i < |c| && m.wild(token, c[i]);
        assert IsNameOf(c[i], t) && StandsFor(m, token, c[i]);
      } else {
        assert IsNameOf(token, t) && StandsFor(m, token, token);
      }
    }
    if StandsForTarget(m, token, t) {
      var name :| IsNameOf(name, t) && StandsFor(m, token, name);
      assert name in c;
    }
  }

  /** The patterns with commas in between, as a host field lists them. */
  function Listed(patterns: seq<string>): string
    requires patterns != []
  {
    if |patterns| == 1 then patterns[0] else patterns[0] + "," + Listed(patterns[1..])
  }

  lemma {:induction false} SplitComma(first: string, rest: string)
    requires ',' !in first
    ensures SplitOn(first + "," + rest, ',') == [first] + SplitOn(rest, ',')
  {
    if first == "" {
      assert (first + "," + rest)[1..] == rest;
    } else {
      SplitComma(first[1..], rest);
      assert (first + "," + rest)[1..] == first[1..] + "," + rest;
      assert [first[0]] + first[1..] == first;
    }
  }

  lemma {:induction false} SplitListed(patterns: seq<string>)
    requires patterns != [] && forall p :: p in patterns ==> IsWord(p) && ',' !in p
    ensures SplitOn(Listed(patterns), ',') == patterns
  {
    assert patterns[0] in patterns;
    if |patterns| == 1 {
      SplitPlain(patterns[0], ',');
    } else {
      SplitListed(patterns[1..]);
      SplitComma(patterns[0], Listed(patterns[1..]));
      assert patterns == [patterns[0]] + patterns[1..];
    }
  }

  lemma TokensOfListed(patterns: seq<string>)
    requires patterns != [] && forall p :: p in patterns ==> IsWord(p) && ',' !in p
    ensures Tokens(Listed(patterns)) == patterns
  {
    SplitListed(patterns);
    var trimmed := Map(t => Trim(t), patterns);
    forall i | 0 <= i < |patterns|
      ensures trimmed[i] == patterns[i]
    {
      assert patterns[i] in patterns;
      TrimWord(patterns[i]);
    }
    assert trimmed == patterns;
    FilterKeepsAll(t => t != "", patterns);
  }

  /** A host field covers a target exactly if a pattern stands for it and no pattern after a '!' does. */
  lemma ListedMatchesIff(m: Matchers, patterns: seq<string>, t: Target)
    requires patterns != [] && forall p :: p in patterns ==> IsWord(p) && ',' !in p
    ensures FieldMatches(m, Listed(patterns), t) <==>
              && (exists p :: p in patterns && !("!" <= p) && StandsForTarget(m, p, t))
              && (forall p :: p in patterns && "!" <= p ==> !StandsForTarget(m, p[1..], t))
  {
    TokensOfListed(patterns);
    forall p | p in patterns
      ensures TokenMatches(m, p, Candidates(t)) <==> StandsForTarget(m, p, t)
      ensures TokenMatches(m, Clean(p), Candidates(t)) <==> StandsForTarget(m, Clean(p), t)
    {
      TokenStandsFor(m, p, t);
      TokenStandsFor(m, Clean(p), t);
    }
  }

  // ----- Ports -----

  function Numeral(s: string): int
  {
    if s == "" then 0 else 10 * Numeral(s[..|s| - 1]) + (s[|s| - 1] as int - '0' as int)
  }

  lemma {:induction false} DecimalReads(n: nat)
    ensures Numeral(Decimal(n)) == n
  {
    var s := Decimal(n);
    if n < 10 {
      assert s[..0] == "";
    } else {
      DecimalReads(n / 10);
      assert s[..|s| - 1] == Decimal(n / 10);
    }
  }

  lemma PortsDiffer(host: string, p: nat, q: nat)
    ensures WithPort(host, p) == WithPort(host, q) <==> p == q
    ensures WithPort(host, p) != host
  {
    DecimalReads(p);
    DecimalReads(q);
    assert WithPort(host, p)[|host| + 3..] == Decimal(p);
    assert WithPort(host, q)[|host| + 3..] == Decimal(q);
    assert |WithPort(host, p)| > |host|;
  }

  /**
   * An entry written for one port of a host covers another port of it exactly if that is the same
   * port, or if it was written for port 22: then it holds the bare name and covers every port.
   */
  lemma CoversPortIff(m: Matchers, host: string, written: Option<nat>, asked: Option<nat>)
    requires var t := Target(host, written); IsLiteral(host) && PlainName(HostToken(t))
    ensures FieldMatches(m, HostToken(Target(host, written)), Target(host, asked)) <==>
              var p := if written.Some? && written.value > 0 then written.value else 22;
              var q := if asked.Some? && asked.value > 0 then asked.value else 22;
              p == q || p == 22
  {
    var t, u := Target(host, written), Target(host, asked);
    var token, name := HostToken(t), NormalizeHost(host);
    TokenCharacters(t);
    TokensOfPlain(token);
    HashedHasBar(token);
    PortsDiffer(name, PortNumber(written), PortNumber(asked));
    PortsDiffer(name, PortNumber(asked), PortNumber(asked));
    assert token in Tokens(token) && !IsNegative(token);
    assert TokenMatches(m, token, Candidates(u)) <==> token in Candidates(u);
  }
}
