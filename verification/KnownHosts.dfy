/** Words of a line, as split(/\s+/) gives them on a trimmed line. */
module WordSplitting {
  import opened JsText

  predicate IsWord(w: string) { w != "" && forall i :: 0 <= i < |w| ==> !IsSpace(w[i]) }

  function WordLength(s: string): (n: nat)
    ensures n <= |s| && forall i :: 0 <= i < n ==> !IsSpace(s[i])
    ensures n < |s| ==> IsSpace(s[n])
  {
    if s == "" || IsSpace(s[0]) then 0 else 1 + WordLength(s[1..])
  }

  function Words(s: string): (ws: seq<string>)
    ensures forall i :: 0 <= i < |ws| ==> IsWord(ws[i])
    decreases |s|
  {
    if s == "" then []
    else if IsSpace(s[0]) then Words(s[1..])
    else [s[..WordLength(s)]] + Words(s[WordLength(s)..])
  }

  lemma {:induction false} WordLengthIs(w: string, rest: string)
    requires forall i :: 0 <= i < |w| ==> !IsSpace(w[i])
    requires rest == "" || IsSpace(rest[0])
    ensures WordLength(w + rest) == |w|
    decreases |w|
  {
    if w == "" {
      assert w + rest == rest;
    } else {
      assert (w + rest)[1..] == w[1..] + rest;
      WordLengthIs(w[1..], rest);
    }
  }

  lemma WordsOfWord(w: string, rest: string)
    requires IsWord(w)
    requires rest == "" || IsSpace(rest[0])
    ensures Words(w + rest) == [w] + Words(rest)
  {
    WordLengthIs(w, rest);
    assert (w + rest)[..|w|] == w && (w + rest)[|w|..] == rest;
    assert (w + rest)[0] == w[0];
  }

  lemma {:induction false} WordsSnocSpace(s: string, c: char)
    requires IsSpace(c)
    ensures Words(s + [c]) == Words(s)
    decreases |s|
  {
    if s == "" {
      assert s + [c] == [c] && [c][1..] == "";
    } else if IsSpace(s[0]) {
      assert (s + [c])[1..] == s[1..] + [c];
      WordsSnocSpace(s[1..], c);
    } else {
      var n := WordLength(s);
      assert s == s[..n] + s[n..] && s + [c] == s[..n] + (s[n..] + [c]);
      WordsSnocSpace(s[n..], c);
      WordsOfWord(s[..n], s[n..]);
      WordsOfWord(s[..n], s[n..] + [c]);
    }
  }

  lemma {:induction false} WordsTrimStart(s: string)
    ensures Words(TrimStart(s)) == Words(s)
  {
    if s != "" && IsSpace(s[0]) {
      WordsTrimStart(s[1..]);
    }
  }

  lemma {:induction false} WordsTrimEnd(s: string)
    ensures Words(TrimEnd(s)) == Words(s)
    decreases |s|
  {
    if s != "" && IsSpace(s[|s| - 1]) {
      var init := s[..|s| - 1];
      WordsTrimEnd(init);
      WordsSnocSpace(init, s[|s| - 1]);
      assert s == init + [s[|s| - 1]];
    }
  }

  lemma WordsTrim(s: string)
    ensures Words(Trim(s)) == Words(s)
  {
    WordsTrimStart(s);
    WordsTrimEnd(TrimStart(s));
  }

  lemma WordsChomp(line: string)
    ensures Words(Chomp(line)) == Words(line)
  {
    if line != "" && line[|line| - 1] == '\r' {
      WordsSnocSpace(line[..|line| - 1], '\r');
      assert line == line[..|line| - 1] + ['\r'];
    }
  }
}

/**
 * The known_hosts file (sshd(8), SSH_KNOWN_HOSTS FILE FORMAT) and the host
 * verifier. Hashed and wildcard tokens are matched by uninterpreted predicates.
 */
module KnownHosts {
  import opened Options
  import opened Sequences
  import opened JsText
  import opened WordSplitting

  /** Hashed tokens (HMAC of a candidate) and wildcard tokens. */
  datatype Matchers = Matchers(hashed: (string, string) -> bool, wild: (string, string) -> bool)

  datatype Entry = Entry(marker: Option<string>, hosts: string, keyType: string, keyData: string)

  /** A presented key in the two words that the file format has for it. */
  datatype HostKey = HostKey(keyType: string, keyData: string)

  predicate ValidKey(key: HostKey) { IsWord(key.keyType) && IsWord(key.keyData) }

  /** Host and port as given; an absent, zero or non-numeric port is `None` or `Some(0)`. */
  datatype Target = Target(host: string, port: Option<nat>)

  datatype Status = Match | Revoked | Mismatch | NotFound

  // ----- Names of a host -----

  function NormalizeHost(host: string): string
  {
    if |host| >= 2 && host[0] == '[' && host[|host| - 1] == ']' then host[1..|host| - 1] else host
  }

  function PortNumber(port: Option<nat>): nat
  {
    if port.Some? && port.value != 0 then port.value else 22
  }

  function Decimal(n: nat): (s: string)
    ensures s != "" && forall i :: 0 <= i < |s| ==> '0' <= s[i] <= '9'
  {
    var digit := ('0' as int + n % 10) as char;
    if n < 10 then [digit] else Decimal(n / 10) + [digit]
  }

  function WithPort(host: string, port: nat): string { "[" + host + "]:" + Decimal(port) }

  function Candidates(t: Target): (c: seq<string>)
    ensures WithPort(NormalizeHost(t.host), PortNumber(t.port)) in c
    ensures NormalizeHost(t.host) != "" ==> NormalizeHost(t.host) in c
  {
    var host := NormalizeHost(t.host);
    var full := WithPort(host, PortNumber(t.port));
    if host == "" then [full] else [host, full]
  }

  /** The name under which a new entry is written. */
  function HostToken(t: Target): string
  {
    var host, port := NormalizeHost(t.host), PortNumber(t.port);
    if port != 22 then WithPort(host, port) else host
  }

  // ----- Matching the host field -----

  predicate IsWildcard(token: string) { '*' in token || '?' in token }

  predicate TokenMatches(m: Matchers, token: string, candidates: seq<string>)
  {
    if token == "" then false
    else if StartsWith(token, "|1|") then exists i :: 0 <= i < |candidates| && m.hashed(token, candidates[i])
    else if IsWildcard(token) then exists i :: 0 <= i < |candidates| && m.wild(token, candidates[i])
    else token in candidates
  }

  function SplitOn(s: string, c: char): (parts: seq<string>)
    ensures |parts| >= 1
  {
    if s == "" then [""]
    else if s[0] == c then [""] + SplitOn(s[1..], c)
    else Glue(s[0], SplitOn(s[1..], c))
  }

  function Tokens(field: string): seq<string>
  {
    Filter(t => t != "", Map(t => Trim(t), SplitOn(field, ',')))
  }

  predicate IsNegative(token: string) { StartsWith(token, "!") }

  function Clean(token: string): string { if IsNegative(token) then token[1..] else token }

  /** Some plain token matches and no negated one does. */
  ghost predicate FieldMatches(m: Matchers, field: string, t: Target)
  {
    var tokens := Tokens(field);
    && (exists token :: token in tokens && !IsNegative(token) && TokenMatches(m, token, Candidates(t)))
    && !(exists token :: token in tokens && IsNegative(token) && TokenMatches(m, Clean(token), Candidates(t)))
  }

  method MatchesKnownHostField(m: Matchers, field: string, t: Target) returns (matched: bool)
    ensures matched == FieldMatches(m, field, t)
  {
    var candidates, tokens := Candidates(t), Tokens(field);
    matched := false;
    for i := 0 to |tokens|
      invariant matched <==> exists token :: token in tokens[..i] && !IsNegative(token) && TokenMatches(m, token, candidates)
      invariant forall token :: token in tokens[..i] && IsNegative(token) ==> !TokenMatches(m, Clean(token), candidates)
    {
      var token := tokens[i];
      assert tokens[..i + 1] == tokens[..i] + [token];
      if TokenMatches(m, Clean(token), candidates) {
        if IsNegative(token) {
          assert token in tokens;
          return false;
        }
        matched := true;
        assert token in tokens[..i + 1];
      }
    }
    assert tokens[..|tokens|] == tokens;
  }

  // ----- Lines and entries -----

  function ParseLine(line: string): (e: Option<Entry>)
    ensures e.Some? ==> IsWord(e.value.hosts) && IsWord(e.value.keyType) && IsWord(e.value.keyData)
  {
    var trimmed := Trim(line);
    if trimmed == "" || StartsWith(trimmed, "#") then None
    else
      var parts := Words(trimmed);
      if |parts| < 3 then None
      else if StartsWith(parts[0], "@") then
        if |parts| < 4 then None else Some(Entry(Some(parts[0]), parts[1], parts[2], parts[3]))
      else Some(Entry(None, parts[0], parts[1], parts[2]))
  }

  function ParsedLines(lines: seq<string>): (entries: seq<Entry>)
    ensures forall e :: e in entries ==> IsWord(e.hosts)
  {
    if lines == [] then []
    else
      match ParseLine(lines[0])
      case Some(first) => [first] + ParsedLines(lines[1..])
      case None => ParsedLines(lines[1..])
  }

  function Entries(text: string): seq<Entry> { ParsedLines(Lines(text)) }

  /** An entry for this host with this type of key. */
  ghost predicate Concerns(m: Matchers, e: Entry, t: Target, keyType: string)
  {
    e.keyType == keyType && FieldMatches(m, e.hosts, t)
  }

  /** The verdict on a key, looking for the first entry with exactly this key. */
  ghost function CheckEntries(m: Matchers, entries: seq<Entry>, t: Target, key: HostKey): Status
    decreases |entries|
  {
    if entries == [] then NotFound
    else if !Concerns(m, entries[0], t, key.keyType) then CheckEntries(m, entries[1..], t, key)
    else if entries[0].keyData == key.keyData then
      (if entries[0].marker == Some("@revoked") then Revoked else Match)
    else
      var rest := CheckEntries(m, entries[1..], t, key);
      if rest == NotFound then Mismatch else rest
  }

  ghost function Check(m: Matchers, text: string, t: Target, key: HostKey): Status
  {
    CheckEntries(m, Entries(text), t, key)
  }

  // ----- The file -----

  function Join(lines: seq<string>): string
  {
    if lines == [] then "" else if |lines| == 1 then lines[0] else lines[0] + "\n" + Join(lines[1..])
  }

  function NewLine(t: Target, key: HostKey): string
  {
    HostToken(t) + " " + key.keyType + " " + key.keyData
  }

  /** A text whose last line, if it has one, is ended. */
  function Ended(text: string): string
  {
    if text != "" && text[|text| - 1] != '\n' then text + "\n" else text
  }

  function Appended(text: string, t: Target, key: HostKey): string
  {
    Ended(text) + (NewLine(t, key) + "\n")
  }

  ghost predicate Keeps(m: Matchers, t: Target, keyType: string, line: string)
  {
    var e := ParseLine(line);
    e.Some? ==> !Concerns(m, e.value, t, keyType)
  }

  ghost function Keeper(m: Matchers, t: Target, keyType: string): string -> bool
  {
    line => Keeps(m, t, keyType, line)
  }

  /** The lines that are no entry for this host with this type of key. */
  ghost function KeptLines(m: Matchers, lines: seq<string>, t: Target, keyType: string): seq<string>
  {
    Filter(Keeper(m, t, keyType), lines)
  }

  ghost function Removed(m: Matchers, text: string, t: Target, keyType: string): string
  {
    if text == "" then "" else Join(KeptLines(m, Lines(text), t, keyType))
  }

  ghost function Replaced(m: Matchers, text: string, t: Target, key: HostKey): string
  {
    Appended(Removed(m, text, t, key.keyType), t, key)
  }

  /** The part of the host verifier after the user's answer: the file may have changed since the verdict. */
  ghost function Answered(m: Matchers, now: string, t: Target, key: HostKey, status: Status, confirmed: bool): (bool, string)
  {
    match status
    case Match => (true, now)
    case Revoked => (false, now)
    case Mismatch => if confirmed then (true, Replaced(m, now, t, key)) else (false, now)
    case NotFound => if confirmed then (true, Appended(now, t, key)) else (false, now)
  }

  /** What one run of the host verifier decides and leaves in the file, if nothing else changes it meanwhile. */
  ghost function Verified(m: Matchers, text: string, t: Target, key: HostKey, confirmed: bool): (bool, string)
  {
    Answered(m, text, t, key, Check(m, text, t, key), confirmed)
  }

  /** The verdict, from whether an entry concerns host and key type and from the first one with exactly this key. */
  function Verdict(sameType: bool, exact: Option<Entry>): Status
  {
    if exact.Some? then (if exact.value.marker == Some("@revoked") then Revoked else Match)
    else if sameType then Mismatch
    else NotFound
  }

  class KnownHostsFile {
    const matchers: Matchers
    var content: string

    constructor (matchers: Matchers, content: string)
      ensures this.matchers == matchers && this.content == content
    {
      this.matchers, this.content := matchers, content;
    }

    method CheckKnownHosts(t: Target, key: HostKey) returns (status: Status)
      ensures status == Check(matchers, content, t, key)
    {
      var lines := Lines(content);
      var sameType := false;
      var exact: Option<Entry> := None;
      ghost var all := Entries(content);
      ghost var seen: seq<Entry> := [];
      assert lines[..0] == [] && ParsedLines([]) == [];
      for i := 0 to |lines|
        invariant seen == ParsedLines(lines[..i])
        invariant CheckEntries(matchers, seen, t, key) ==
                  Verdict(sameType, exact)
      {
        assert lines[..i + 1] == lines[..i] + [lines[i]];
        ParsedSnoc(lines[..i], lines[i]);
        var entry := ParseLine(lines[i]);
        if entry.Some? {
          var matched := MatchesKnownHostField(matchers, entry.value.hosts, t);
          CheckSnoc(matchers, seen, entry.value, t, key);
          seen := seen + [entry.value];
          if matched && entry.value.keyType == key.keyType {
            sameType := true;
            if exact.None? && entry.value.keyData == key.keyData {
              exact := Some(entry.value);
            }
          }
        }
      }
      assert lines[..|lines|] == lines;
      status := Verdict(sameType, exact);
    }

    method AppendKnownHost(t: Target, key: HostKey)
      modifies this
      ensures content == Appended(old(content), t, key)
    {
      var needsNewline := content != "" && content[|content| - 1] != '\n';
      var line := HostToken(t) + " " + key.keyType + " " + key.keyData + "\n";
      var separator := if needsNewline then "\n" else "";
      assert content + separator + line == content + separator + NewLine(t, key) + "\n";
      content := content + separator + line;
    }

    method RemoveKnownHost(t: Target, keyType: string)
      modifies this
      ensures content == Removed(matchers, old(content), t, keyType)
    {
      if content == "" {
        return;
      }
      var lines := Lines(content);
      var filtered := [];
      assert lines[..0] == [];
      for i := 0 to |lines|
        invariant filtered == KeptLines(matchers, lines[..i], t, keyType)
      {
        assert lines[..i + 1] == lines[..i] + [lines[i]];
        FilterAppend(Keeper(matchers, t, keyType), lines[..i], [lines[i]]);
        FilterOne(Keeper(matchers, t, keyType), lines[i]);
        var entry := ParseLine(lines[i]);
        var drop := false;
        if entry.Some? {
          var matched := MatchesKnownHostField(matchers, entry.value.hosts, t);
          drop := matched && entry.value.keyType == keyType;
        }
        if !drop {
          filtered := filtered + [lines[i]];
        }
      }
      assert lines[..|lines|] == lines;
      content := Join(filtered);
    }

    method ReplaceKnownHost(t: Target, key: HostKey)
      modifies this
      ensures content == Replaced(matchers, old(content), t, key)
    {
      RemoveKnownHost(t, key.keyType);
      AppendKnownHost(t, key);
    }

    /** One run of the host verifier; `confirmed` is the user's answer, a key that does not parse is `None`. */
    method Verify(t: Target, hostKey: Option<HostKey>, confirmed: bool) returns (accepted: bool)
      modifies this
      ensures hostKey.None? ==> !accepted && content == old(content)
      ensures hostKey.Some? ==>
                (accepted, content) == Verified(matchers, old(content), t, hostKey.value, confirmed)
      ensures hostKey.Some? ==>
                var status := Check(matchers, old(content), t, hostKey.value);
                && (accepted <==> status == Match || (confirmed && (status == NotFound || status == Mismatch)))
                && (status == Match ==> content == old(content))
      ensures !accepted ==> content == old(content)
    {
      if hostKey.None? {
        return false;
      }
      var result := CheckKnownHosts(t, hostKey.value);
      accepted := Finish(t, hostKey.value, result, confirmed);
    }

    /** The verifier once the verdict is there and the user has answered. */
    method Finish(t: Target, key: HostKey, result: Status, confirmed: bool) returns (accepted: bool)
      modifies this
      ensures (accepted, content) == Answered(matchers, old(content), t, key, result, confirmed)
      ensures accepted <==> result == Match || (confirmed && (result == NotFound || result == Mismatch))
      ensures !accepted || result == Match ==> content == old(content)
    {
      match result {
        case Match => return true;
        case Revoked => return false;
        case Mismatch =>
          if confirmed {
            ReplaceKnownHost(t, key);
          }
          return confirmed;
        case NotFound =>
          if confirmed {
            AppendKnownHost(t, key);
          }
          return confirmed;
      }
    }
  }

  lemma ParsedCons(line: string, rest: seq<string>)
    ensures ParsedLines([line] + rest) ==
            if ParseLine(line).Some? then [ParseLine(line).value] + ParsedLines(rest) else ParsedLines(rest)
  {
    assert ([line] + rest)[1..] == rest;
  }

  lemma {:induction false} ParsedAppend(a: seq<string>, b: seq<string>)
    ensures ParsedLines(a + b) == ParsedLines(a) + ParsedLines(b)
    decreases |a|
  {
    if a == [] {
      assert a + b == b;
    } else {
      var line, rest := a[0], a[1..];
      assert a + b == [line] + (rest + b);
      ParsedCons(line, rest + b);
      ParsedAppend(rest, b);
    }
  }

  lemma ParsedSnoc(a: seq<string>, line: string)
    ensures ParsedLines(a + [line]) ==
            if ParseLine(line).Some? then ParsedLines(a) + [ParseLine(line).value] else ParsedLines(a)
  {
    ParsedAppend(a, [line]);
    assert [line] + [] == [line];
    ParsedCons(line, []);
  }

  lemma FilterOne(keep: string -> bool, line: string)
    ensures Filter(keep, [line]) == if keep(line) then [line] else []
  {
    assert [line][1..] == [];
  }

  lemma {:induction false} CheckSnoc(m: Matchers, entries: seq<Entry>, e: Entry, t: Target, key: HostKey)
    ensures var before := CheckEntries(m, entries, t, key);
            CheckEntries(m, entries + [e], t, key) ==
            if before == Match || before == Revoked || !Concerns(m, e, t, key.keyType) then before
            else if e.keyData != key.keyData then Mismatch
            else if e.marker == Some("@revoked") then Revoked else Match
    decreases |entries|
  {
    if entries == [] {
      assert entries + [e] == [e] && [e][1..] == [];
    } else {
      CheckSnoc(m, entries[1..], e, t, key);
      assert (entries + [e])[0] == entries[0] && (entries + [e])[1..] == entries[1..] + [e];
    }
  }
}
