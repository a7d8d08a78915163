/**
 * The base64 codec (RFC 4648, section 4) and the strict test that the
 * execution runtime applies to output chunks before decoding them.
 */
module Base64 {
  import opened Sequences

  type Sextet = n: int | 0 <= n < 64

  function Symbol(v: Sextet): (c: char)
    ensures IsSymbol(c) && Value(c) == v
  {
    if v < 26 then ('A' as int + v) as char
    else if v < 52 then ('a' as int + v - 26) as char
    else if v < 62 then ('0' as int + v - 52) as char
    else if v == 62 then '+' else '/'
  }

  predicate IsSymbol(c: char)
  {
    'A' <= c <= 'Z' || 'a' <= c <= 'z' || '0' <= c <= '9' || c == '+' || c == '/'
  }

  function Value(c: char): Sextet
  {
    if 'A' <= c <= 'Z' then c as int - 'A' as int
    else if 'a' <= c <= 'z' then c as int - 'a' as int + 26
    else if '0' <= c <= '9' then c as int - '0' as int + 52
    else if c == '+' then 62 else if c == '/' then 63 else 0
  }

  function Symbols(vs: seq<Sextet>): (text: string)
    ensures |text| == |vs|
    ensures forall i :: 0 <= i < |vs| ==> IsSymbol(text[i]) && Value(text[i]) == vs[i]
  {
    seq(|vs|, i requires 0 <= i < |vs| => Symbol(vs[i]))
  }

  function Values(text: string): (vs: seq<Sextet>)
    ensures |vs| == |text|
    ensures forall i :: 0 <= i < |text| ==> vs[i] == Value(text[i])
  {
    seq(|text|, i requires 0 <= i < |text| => Value(text[i]))
  }

  /** n bytes regrouped as n + 1 sextets, the last one filled with zero bits. */
  function ToSextets(g: seq<Byte>): (vs: seq<Sextet>)
    requires 1 <= |g| <= 3
    ensures |vs| == |g| + 1
  {
    if |g| == 1 then [g[0] / 4, g[0] % 4 * 16]
    else if |g| == 2 then [g[0] / 4, g[0] % 4 * 16 + g[1] / 16, g[1] % 16 * 4]
    else [g[0] / 4, g[0] % 4 * 16 + g[1] / 16, g[1] % 16 * 4 + g[2] / 64, g[2] % 64]
  }

  /** n + 1 sextets regrouped as n bytes; left-over bits are dropped. */
  function ToBytes(vs: seq<Sextet>): (g: seq<Byte>)
    requires 2 <= |vs| <= 4
    ensures |g| == |vs| - 1
  {
    var v0: int, v1: int := vs[0], vs[1];
    var b0: Byte := v0 * 4 + v1 / 16;
    if |vs| == 2 then [b0]
    else
      var v2: int := vs[2];
      var b1: Byte := v1 % 16 * 16 + v2 / 4;
      if |vs| == 3 then [b0, b1]
      else
        var b2: Byte := v2 % 4 * 64 + vs[3];
        [b0, b1, b2]
  }

  function Padding(n: nat): (text: string)
    requires n <= 2
    ensures |text| == n && forall c :: c in text ==> c == '='
  {
    if n == 0 then "" else if n == 1 then "=" else "=="
  }

  /** One to three bytes become four characters, padded with '='. */
  function EncodeGroup(g: seq<Byte>): (quad: string)
    requires 1 <= |g| <= 3
    ensures |quad| == 4
  {
    Symbols(ToSextets(g)) + Padding(3 - |g|)
  }

  function Encode(bytes: seq<Byte>): string
    decreases |bytes|
  {
    if |bytes| == 0 then ""
    else if |bytes| <= 3 then EncodeGroup(bytes)
    else EncodeGroup(bytes[..3]) + Encode(bytes[3..])
  }

  /** The alphabet (RFC 4648, table 1): four runs of consecutive characters, of which these are the ends. */
  lemma Alphabet(v: Sextet)
    ensures Symbol(0) == 'A' && Symbol(25) == 'Z' && Symbol(26) == 'a' && Symbol(51) == 'z'
    ensures Symbol(52) == '0' && Symbol(61) == '9' && Symbol(62) == '+' && Symbol(63) == '/'
    ensures v < 25 || 26 <= v < 51 || 52 <= v < 61 ==> Symbol(v + 1) as int == Symbol(v) as int + 1
  {
  }

  /** The number that three bytes make up. */
  function Number(g: seq<Byte>): (n: nat)
    requires |g| == 3
    ensures n < 0x100_0000
  {
    var a: int, b: int, c: int := g[0], g[1], g[2];
    a * 0x1_0000 + b * 0x100 + c
  }

  lemma SixBitDigits(n: nat, a: nat, b: nat, c: nat, d: nat)
    requires a < 64 && b < 64 && c < 64 && d < 64 && n == a * 0x4_0000 + b * 0x1000 + c * 64 + d
    ensures n / 0x4_0000 == a && n / 0x1000 % 64 == b && n / 64 % 64 == c && n % 64 == d
  {
    assert n / 64 == a * 0x1000 + b * 64 + c;
    assert n / 0x1000 == a * 64 + b;
  }

  /** Three bytes are spelled as the four digits of their number to the base 64. */
  lemma GroupSpells(g: seq<Byte>)
    requires |g| == 3
    ensures var n := Number(g);
            EncodeGroup(g) == [Symbol(n / 0x4_0000), Symbol(n / 0x1000 % 64), Symbol(n / 64 % 64), Symbol(n % 64)]
  {
    var vs := ToSextets(g);
    var a: int, b: int, c: int := g[0], g[1], g[2];
    assert a == a / 4 * 4 + a % 4 && b == b / 16 * 16 + b % 16 && c == c / 64 * 64 + c % 64;
    SixBitDigits(Number(g), vs[0], vs[1], vs[2], vs[3]);
  }

  /** One byte is spelled like three that end in zeros, with '=' for the characters that carry none of its bits. */
  lemma SingleSpells(g: seq<Byte>)
    requires |g| == 1
    ensures EncodeGroup(g) == EncodeGroup([g[0], 0, 0])[..2] + "=="
  {
  }

  /** ... and two bytes likewise. */
  lemma DoubleSpells(g: seq<Byte>)
    requires |g| == 2
    ensures EncodeGroup(g) == EncodeGroup([g[0], g[1], 0])[..3] + "="
  {
  }

  function QuadAt(text: string, i: nat): string
    requires 4 * i + 4 <= |text|
  {
    text[4 * i..4 * i + 4]
  }

  lemma QuadBehind(quad: string, rest: string, i: nat)
    requires |quad| == 4 && i > 0 && 4 * i <= |rest|
    ensures QuadAt(quad + rest, i) == QuadAt(rest, i - 1)
  {
  }

  lemma EncodeStep(bytes: seq<Byte>)
    requires |bytes| > 3
    ensures Encode(bytes) == EncodeGroup(bytes[..3]) + Encode(bytes[3..])
  {
  }

  /** Every group of three bytes has its own four characters, in order; what is left over comes last. */
  lemma {:induction false} EncodeAt(bytes: seq<Byte>, i: nat)
    requires 3 * i < |bytes|
    ensures 4 * i + 4 <= |Encode(bytes)| && QuadAt(Encode(bytes), i) == EncodeGroup(GroupAt(bytes, i))
    decreases i
  {
    if i == 0 {
      EncodeFirst(bytes);
    } else {
      EncodeAt(bytes[3..], i - 1);
      GroupBehind(bytes, i);
      EncodeStep(bytes);
      QuadBehind(EncodeGroup(bytes[..3]), Encode(bytes[3..]), i);
    }
  }

  lemma EncodeFirst(bytes: seq<Byte>)
    requires bytes != []
    ensures |Encode(bytes)| >= 4 && Encode(bytes)[..4] == EncodeGroup(GroupAt(bytes, 0))
  {
    assert GroupAt(bytes, 0) == if |bytes| <= 3 then bytes else bytes[..3];
  }

  /** Bytes 3 * i to 3 * i + 2, as far as they are there. */
  function GroupAt(bytes: seq<Byte>, i: nat): (g: seq<Byte>)
    requires 3 * i < |bytes|
    ensures 1 <= |g| <= 3
  {
    if 3 * i + 3 <= |bytes| then bytes[3 * i..3 * i + 3] else bytes[3 * i..]
  }

  lemma GroupBehind(bytes: seq<Byte>, i: nat)
    requires i > 0 && 3 * i < |bytes|
    ensures GroupAt(bytes, i) == GroupAt(bytes[3..], i - 1)
  {
  }

  predicate FullQuad(q: string)
    requires |q| == 4
  {
    IsSymbol(q[0]) && IsSymbol(q[1]) && IsSymbol(q[2]) && IsSymbol(q[3])
  }

  predicate PaddedQuad(q: string)
    requires |q| == 4
  {
    IsSymbol(q[0]) && IsSymbol(q[1]) && q[3] == '=' && (q[2] == '=' || IsSymbol(q[2]))
  }

  /** The regular expression of the strict test: quads of symbols, the last one possibly padded. */
  predicate WellFormed(text: string)
    decreases |text|
  {
    if text == "" then true
    else if |text| < 4 then false
    else if |text| == 4 then FullQuad(text) || PaddedQuad(text)
    else FullQuad(text[..4]) && WellFormed(text[4..])
  }

  /** How many characters of a quad are not padding. */
  function SymbolCount(q: string): (n: nat)
    requires |q| == 4 && (FullQuad(q) || PaddedQuad(q))
    ensures 2 <= n <= 4
    ensures q == q[..n] + Padding(4 - n) && forall i :: 0 <= i < n ==> IsSymbol(q[i])
  {
    if q[2] == '=' then 2 else if q[3] == '=' then 3 else 4
  }

  /** The lenient decoder: bits left over before the padding are dropped. */
  function DecodeGroup(q: string): (g: seq<Byte>)
    requires |q| == 4 && (FullQuad(q) || PaddedQuad(q))
    ensures 1 <= |g| <= 3
    ensures |g| == 3 <==> FullQuad(q)
  {
    ToBytes(Values(q[..SymbolCount(q)]))
  }

  function Decode(text: string): seq<Byte>
    requires WellFormed(text)
    decreases |text|
  {
    if text == "" then []
    else if |text| == 4 then DecodeGroup(text)
    else DecodeGroup(text[..4]) + Decode(text[4..])
  }

  predicate IsStrictBase64(text: string)
  {
    |text| % 4 == 0 && WellFormed(text) && Canonical(text)
  }

  lemma BytesRoundTrip(g: seq<Byte>)
    requires 1 <= |g| <= 3
    ensures ToBytes(ToSextets(g)) == g
  {
    var back := ToBytes(ToSextets(g));
    assert back[0] == g[0];
    assert |g| >= 2 ==> back[1] == g[1];
    assert |g| == 3 ==> back[2] == g[2];
  }

  lemma SextetsRoundTrip(vs: seq<Sextet>)
    requires 2 <= |vs| <= 4
    ensures ToSextets(ToBytes(vs)) == vs <==>
            (|vs| == 2 ==> vs[1] % 16 == 0) && (|vs| == 3 ==> vs[2] % 4 == 0)
  {
    var back := ToSextets(ToBytes(vs));
    assert back[0] == vs[0];
    if |vs| == 2 {
      assert back[1] == vs[1] - vs[1] % 16;
    } else {
      assert back[1] == vs[1];
      if |vs| == 3 {
        assert back[2] == vs[2] - vs[2] % 4;
      } else {
        assert back[2] == vs[2] && back[3] == vs[3];
      }
    }
  }

  lemma SymbolOfValue(c: char)
    requires IsSymbol(c)
    ensures Symbol(Value(c)) == c
  {
  }

  lemma ValuesAreInjective(a: string, b: string)
    requires |a| == |b| && Values(a) == Values(b)
    requires forall i :: 0 <= i < |a| ==> IsSymbol(a[i]) && IsSymbol(b[i])
    ensures a == b
  {
    forall i | 0 <= i < |a|
      ensures a[i] == b[i]
    {
      assert Values(a)[i] == Values(b)[i];
      SymbolOfValue(a[i]);
      SymbolOfValue(b[i]);
    }
  }

  lemma GroupRoundTrip(g: seq<Byte>)
    requires 1 <= |g| <= 3
    ensures var q := EncodeGroup(g);
            (FullQuad(q) || PaddedQuad(q)) && DecodeGroup(q) == g
  {
    var q, vs := EncodeGroup(g), ToSextets(g);
    BytesRoundTrip(g);
    assert forall i :: 0 <= i < |vs| ==> q[i] == Symbols(vs)[i];
    assert forall i :: |vs| <= i < 4 ==> q[i] == '=';
    assert SymbolCount(q) == |vs|;
    assert Values(q[..|vs|]) == vs;
  }

  /** Bits of the last symbol before the padding that no byte accounts for. */
  predicate NoStrayBits(q: string)
    requires |q| == 4
  {
    if q[2] == '=' then Value(q[1]) % 16 == 0
    else if q[3] == '=' then Value(q[2]) % 4 == 0
    else true
  }

  lemma QuadRoundTrip(q: string)
    requires |q| == 4 && (FullQuad(q) || PaddedQuad(q))
    ensures EncodeGroup(DecodeGroup(q)) == q <==> NoStrayBits(q)
  {
    var n := SymbolCount(q);
    var vs := Values(q[..n]);
    var back := Symbols(ToSextets(ToBytes(vs)));
    SextetsRoundTrip(vs);
    assert EncodeGroup(DecodeGroup(q)) == back + Padding(4 - n);
    assert (back + Padding(4 - n))[..n] == back;
    if ToSextets(ToBytes(vs)) == vs {
      assert Values(back) == vs;
      ValuesAreInjective(back, q[..n]);
    }
    if back == q[..n] {
      assert ToSextets(ToBytes(vs)) == Values(back) == vs;
    }
  }

  lemma {:induction false} WellFormedLength(text: string)
    requires WellFormed(text)
    ensures |text| % 4 == 0
    decreases |text|
  {
    if |text| > 4 {
      WellFormedLength(text[4..]);
      FourMore(|text[4..]|);
    }
  }

  lemma FourMore(n: int)
    ensures (n + 4) % 4 == n % 4
  {
  }

  lemma FirstQuad(q: string, rest: string)
    requires |q| == 4 && FullQuad(q) && WellFormed(rest) && rest != ""
    ensures WellFormed(q + rest) && Decode(q + rest) == DecodeGroup(q) + Decode(rest)
  {
    assert (q + rest)[..4] == q && (q + rest)[4..] == rest;
  }

  lemma FirstGroup(g: seq<Byte>, rest: seq<Byte>)
    requires |g| == 3 && rest != []
    ensures Encode(g + rest) == EncodeGroup(g) + Encode(rest)
  {
    assert (g + rest)[..3] == g && (g + rest)[3..] == rest;
  }

  lemma {:induction false} DecodeEncode(bytes: seq<Byte>)
    ensures bytes != [] ==> Encode(bytes) != ""
    ensures WellFormed(Encode(bytes)) && Decode(Encode(bytes)) == bytes
    decreases |bytes|
  {
    if |bytes| > 3 {
      var g, rest := bytes[..3], bytes[3..];
      assert bytes == g + rest;
      GroupRoundTrip(g);
      DecodeEncode(rest);
      FirstGroup(g, rest);
      FirstQuad(EncodeGroup(g), Encode(rest));
    } else if |bytes| > 0 {
      GroupRoundTrip(bytes);
    }
  }

  /** Exactly the image of the encoder is accepted. */
  lemma StrictIffEncoded(text: string)
    ensures IsStrictBase64(text) <==> exists bytes: seq<Byte> :: Encode(bytes) == text
  {
    if IsStrictBase64(text) {
      assert Encode(Decode(text)) == text;
    }
    if bytes: seq<Byte> :| Encode(bytes) == text {
      DecodeEncode(bytes);
      WellFormedLength(text);
    }
  }

  /** ... and every accepted text stands for one byte string only. */
  lemma StrictHasOnePreimage(text: string, bytes: seq<Byte>)
    requires Encode(bytes) == text
    ensures IsStrictBase64(text) && bytes == Decode(text)
    ensures forall other: seq<Byte> :: Encode(other) == text ==> other == bytes
  {
    DecodeEncode(bytes);
    WellFormedLength(text);
    forall other: seq<Byte> | Encode(other) == text
      ensures other == bytes
    {
      DecodeEncode(other);
    }
  }

  /** A well-formed text is canonical when encoding what it decodes to gives it back. */
  predicate Canonical(text: string)
    requires WellFormed(text)
  {
    Encode(Decode(text)) == text
  }

  lemma CanonicalAfterFullQuad(q: string, rest: string)
    requires |q| == 4 && FullQuad(q) && WellFormed(rest) && rest != "" && Decode(rest) != []
    ensures WellFormed(q + rest) && Decode(q + rest) != []
    ensures Canonical(q + rest) <==> Canonical(rest)
  {
    var g, back := DecodeGroup(q), Encode(Decode(rest));
    FirstQuad(q, rest);
    FirstGroup(g, Decode(rest));
    QuadRoundTrip(q);
    assert Encode(Decode(q + rest)) == q + back;
    assert (q + back)[4..] == back && (q + rest)[4..] == rest;
  }

  lemma {:induction false} CanonicalIffNoStrayBits(text: string)
    requires WellFormed(text)
    ensures text != "" ==> Decode(text) != []
    ensures Canonical(text) <==> text == "" || NoStrayBits(text[|text| - 4..])
    decreases |text|
  {
    if |text| > 4 {
      var q, rest := text[..4], text[4..];
      CanonicalIffNoStrayBits(rest);
      CanonicalAfterFullQuad(q, rest);
      assert text == q + rest;
      assert rest[|rest| - 4..] == text[|text| - 4..];
    } else if |text| == 4 {
      QuadRoundTrip(text);
      OneQuad(text);
      assert text[0..] == text;
    }
  }

  lemma OneQuad(q: string)
    requires |q| == 4 && (FullQuad(q) || PaddedQuad(q))
    ensures WellFormed(q) && Canonical(q) == (EncodeGroup(DecodeGroup(q)) == q)
  {
  }

  /** What strictness adds to the regular expression: the bits dropped before the padding are zero. */
  lemma StrictIffNoStrayBits(text: string)
    ensures IsStrictBase64(text) <==>
            WellFormed(text) && (text == "" || (|text| >= 4 && NoStrayBits(text[|text| - 4..])))
  {
    if WellFormed(text) {
      WellFormedLength(text);
      CanonicalIffNoStrayBits(text);
    }
  }
}
