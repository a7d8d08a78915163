/** UTF-8 as the platform's TextEncoder and TextDecoder apply it to storage values. */
module Utf8 {
  import opened Sequences

  const BYTE_ORDER_MARK := '\U{FEFF}'
  const REPLACEMENT := '\U{FFFD}'

  function EncodeChar(c: char): (b: seq<Byte>)
    ensures 1 <= |b| <= 4
  {
    var n := c as int;
    if n < 0x80 then [n]
    else if n < 0x800 then [0xC0 + n / 64, 0x80 + n % 64]
    else if n < 0x1_0000 then [0xE0 + n / 64 / 64, 0x80 + n / 64 % 64, 0x80 + n % 64]
    else [0xF0 + n / 64 / 64 / 64, 0x80 + n / 64 / 64 % 64, 0x80 + n / 64 % 64, 0x80 + n % 64]
  }

  function Encode(s: string): seq<Byte>
  {
    if s == "" then [] else EncodeChar(s[0]) + Encode(s[1..])
  }

  /** The length announced by a lead byte, 0 when it is not one. */
  function LeadLength(b: Byte): (n: nat)
    ensures n <= 4
  {
    if b < 0x80 then 1
    else if 0xC0 <= b < 0xE0 then 2
    else if 0xE0 <= b < 0xF0 then 3
    else if 0xF0 <= b < 0xF8 then 4
    else 0
  }

  predicate Continuation(b: Byte) { 0x80 <= b < 0xC0 }

  /** The number carried by the bytes of one encoded character. */
  function Payload(b: seq<Byte>): nat
    requires 1 <= |b| <= 4 && LeadLength(b[0]) == |b|
    requires forall i :: 1 <= i < |b| ==> Continuation(b[i])
  {
    if |b| == 1 then b[0]
    else if |b| == 2 then Low(b[0], 0xC0) * 64 + Six(b[1])
    else if |b| == 3 then (Low(b[0], 0xE0) * 64 + Six(b[1])) * 64 + Six(b[2])
    else ((Low(b[0], 0xF0) * 64 + Six(b[1])) * 64 + Six(b[2])) * 64 + Six(b[3])
  }

  function Six(b: Byte): nat
    requires Continuation(b)
  {
    b - 0x80
  }

  /** The data bits of a lead byte with the given marker. */
  function Low(b: Byte, marker: nat): nat
    requires marker <= b
  {
    b - marker
  }

  /** Bytes that encode one Unicode scalar value in the shortest form. */
  predicate IsEncodedChar(b: seq<Byte>)
  {
    && 1 <= |b| <= 4 && LeadLength(b[0]) == |b|
    && (forall i :: 1 <= i < |b| ==> Continuation(b[i]))
    && var n := Payload(b);
       (n < 0xD800 || 0xE000 <= n < 0x11_0000) && EncodeChar(n as char) == b
  }

  /** The first two bytes of a character of three or four. */
  predicate StartsChar(lead: Byte, second: Byte)
  {
    && 0xE0 <= lead < 0xF5 && Continuation(second)
    && (lead == 0xE0 ==> second >= 0xA0) && (lead == 0xED ==> second < 0xA0)
    && (lead == 0xF0 ==> second >= 0x90) && (lead == 0xF4 ==> second < 0x90)
  }

  /** How many bytes one replacement character stands for where no character is encoded. */
  function ErrorLength(b: seq<Byte>): (n: nat)
    requires b != []
    ensures 1 <= n <= |b|
  {
    if |b| < 2 || !StartsChar(b[0], b[1]) then 1
    else if |b| < 3 || b[0] < 0xF0 || !Continuation(b[2]) then 2
    else 3
  }

  function Decode(b: seq<Byte>): string
    decreases |b|
  {
    if b == [] then ""
    else
      var n := LeadLength(b[0]);
      if n <= |b| && IsEncodedChar(b[..n]) then [Payload(b[..n]) as char] + Decode(b[n..])
      else [REPLACEMENT] + Decode(b[ErrorLength(b)..])
  }

  /** TextDecoder drops one leading byte order mark. */
  function TextDecode(b: seq<Byte>): string
  {
    if EncodeChar(BYTE_ORDER_MARK) <= b then Decode(b[3..]) else Decode(b)
  }

  /** The bits that one byte carries besides its mark. */
  function Carried(b: Byte, mark: nat): int { b - mark }

  /** The encoded forms (RFC 3629, section 3): the ranges of their lengths, the marks of their bytes and the bits they carry. */
  lemma EncodedForm(c: char)
    ensures var n, b := c as int, EncodeChar(c);
            && (|b| == 1 <==> n < 0x80) && (|b| == 2 <==> 0x80 <= n < 0x800)
            && (|b| == 3 <==> 0x800 <= n < 0x1_0000) && (|b| == 4 <==> 0x1_0000 <= n)
            && (forall i :: 1 <= i < |b| ==> 0x80 <= b[i] < 0xC0)
            && (|b| == 1 ==> n == b[0])
            && (|b| == 2 ==> (0xC0 <= b[0] < 0xE0 && n == Carried(b[0], 0xC0) * 0x40 + Carried(b[1], 0x80)))
            && (|b| == 3 ==> (0xE0 <= b[0] < 0xF0
                  && n == Carried(b[0], 0xE0) * 0x1000 + Carried(b[1], 0x80) * 0x40 + Carried(b[2], 0x80)))
            && (|b| == 4 ==> (0xF0 <= b[0] < 0xF8
                  && n == Carried(b[0], 0xF0) * 0x4_0000 + Carried(b[1], 0x80) * 0x1000
                          + Carried(b[2], 0x80) * 0x40 + Carried(b[3], 0x80)))
  {
  }

  /** The bytes are the beginning of an encoded character, but not all of it. */
  ghost predicate BeginsChar(b: seq<Byte>)
  {
    exists c: char :: b < EncodeChar(c)
  }

  lemma TwoBegin(lead: Byte, second: Byte)
    requires StartsChar(lead, second)
    ensures BeginsChar([lead, second])
  {
    if lead < 0xF0 {
      TwoOfThree(lead, second);
    } else {
      ThreeBegin(lead, second, 0x80);
      var c: char :| [lead, second, 0x80] < EncodeChar(c);
      assert [lead, second] == [lead, second, 0x80][..2] < EncodeChar(c);
    }
  }

  lemma TwoOfThree(lead: Byte, second: Byte)
    requires StartsChar(lead, second) && lead < 0xF0
    ensures BeginsChar([lead, second])
  {
    var n := Carried(lead, 0xE0) * 0x1000 + Carried(second, 0x80) * 0x40;
    assert 0x800 <= n < 0xD800 || 0xE000 <= n < 0x1_0000;
    var c := n as char;
    assert EncodeChar(c) == [lead, second] + [0x80];
  }

  lemma BeginningOf(lead: Byte, second: Byte, c: char)
    requires [lead, second] < EncodeChar(c)
    ensures StartsChar(lead, second)
  {
    EncodedForm(c);
    var b := EncodeChar(c);
    assert b[0] == [lead, second][0] && b[1] == [lead, second][1];
  }

  lemma TwoBeginIff(lead: Byte, second: Byte)
    ensures BeginsChar([lead, second]) <==> StartsChar(lead, second)
  {
    if StartsChar(lead, second) {
      TwoBegin(lead, second);
    }
    if c: char :| [lead, second] < EncodeChar(c) {
      BeginningOf(lead, second, c);
    }
  }

  lemma ThreeBegin(lead: Byte, second: Byte, third: Byte)
    requires StartsChar(lead, second) && lead >= 0xF0 && Continuation(third)
    ensures BeginsChar([lead, second, third])
  {
    var n := Carried(lead, 0xF0) * 0x4_0000 + Carried(second, 0x80) * 0x1000 + Carried(third, 0x80) * 0x40;
    assert 0x1_0000 <= n < 0x11_0000;
    var c := n as char;
    assert EncodeChar(c) == [lead, second, third] + [0x80];
  }

  lemma ThreeBeginIff(lead: Byte, second: Byte, third: Byte)
    ensures BeginsChar([lead, second, third]) <==> StartsChar(lead, second) && lead >= 0xF0 && Continuation(third)
  {
    if StartsChar(lead, second) && lead >= 0xF0 && Continuation(third) {
      ThreeBegin(lead, second, third);
    }
    if c: char :| [lead, second, third] < EncodeChar(c) {
      assert [lead, second] == [lead, second, third][..2] < EncodeChar(c);
      BeginningOf(lead, second, c);
      EncodedForm(c);
      assert EncodeChar(c)[2] == [lead, second, third][2];
      assert EncodeChar(c)[0] == [lead, second, third][0];
    }
  }

  /**
   * One replacement character stands for as many bytes as can be the beginning of a character, and
   * for one byte if none can (The Unicode Standard, section 3.9, "U+FFFD Substitution of Maximal
   * Subparts").
   */
  lemma ErrorIsMaximal(b: seq<Byte>, n: nat)
    requires b != [] && 2 <= n <= |b|
    ensures n <= ErrorLength(b) <==> BeginsChar(b[..n])
  {
    TwoBeginIff(b[0], b[1]);
    assert b[..2] == [b[0], b[1]];
    if n >= 3 {
      ThreeBeginIff(b[0], b[1], b[2]);
      assert b[..3] == [b[0], b[1], b[2]];
    }
  }

  /** An encoded character is decoded, and the rest goes on from behind it. */
  lemma DecodeStep(b: seq<Byte>, c: char)
    requires EncodeChar(c) <= b
    ensures Decode(b) == [c] + Decode(b[|EncodeChar(c)|..])
  {
    EncodedCharIsValid(c);
    assert b[..|EncodeChar(c)|] == EncodeChar(c);
  }

  lemma EncodedBySome(b: seq<Byte>, k: nat)
    requires k <= |b| && IsEncodedChar(b[..k])
    ensures exists c: char :: EncodeChar(c) <= b
  {
    var c := Payload(b[..k]) as char;
    assert EncodeChar(c) == b[..k] <= b;
  }

  lemma ErrorLengthIs(b: seq<Byte>, n: nat)
    requires 1 <= n <= |b| && (n >= 2 ==> BeginsChar(b[..n])) && (n < |b| ==> !BeginsChar(b[..n + 1]))
    ensures ErrorLength(b) == n
  {
    if n >= 2 {
      ErrorIsMaximal(b, n);
    }
    if n < |b| {
      ErrorIsMaximal(b, n + 1);
    }
  }

  lemma NoneIsDecoded(b: seq<Byte>)
    requires b != []
    ensures (exists c: char :: EncodeChar(c) <= b) || Decode(b) == [REPLACEMENT] + Decode(b[ErrorLength(b)..])
  {
    var k := LeadLength(b[0]);
    if k <= |b| && IsEncodedChar(b[..k]) {
      EncodedBySome(b, k);
    }
  }

  /** Where no character is encoded, one replacement character stands for the longest beginning of one, or for one byte. */
  lemma DecodeError(b: seq<Byte>, n: nat)
    requires b != [] && forall c: char :: !(EncodeChar(c) <= b)
    requires 1 <= n <= |b| && (n >= 2 ==> BeginsChar(b[..n])) && (n < |b| ==> !BeginsChar(b[..n + 1]))
    ensures Decode(b) == ['\U{FFFD}'] + Decode(b[n..])
  {
    ErrorLengthIs(b, n);
    NoneIsDecoded(b);
  }

  lemma EncodedCharIsValid(c: char)
    ensures var b := EncodeChar(c);
            LeadLength(b[0]) == |b| && IsEncodedChar(b) && Payload(b) == c as int
  {
    var n, b := c as int, EncodeChar(c);
    assert LeadLength(b[0]) == |b|;
    assert forall i :: 1 <= i < |b| ==> Continuation(b[i]);
    assert Payload(b) == n;
    assert n as char == c;
  }

  lemma {:induction false} DecodeEncode(s: string)
    ensures Decode(Encode(s)) == s
  {
    if s != "" {
      var b, rest := EncodeChar(s[0]), Encode(s[1..]);
      EncodedCharIsValid(s[0]);
      assert (b + rest)[..|b|] == b && (b + rest)[|b|..] == rest;
      assert (b + rest)[0] == b[0];
      DecodeEncode(s[1..]);
    }
  }

  /** Only a text that starts with the mark has an encoding that starts with its bytes. */
  lemma MarkComesFirst(s: string)
    ensures EncodeChar(BYTE_ORDER_MARK) <= Encode(s) <==> s != "" && s[0] == BYTE_ORDER_MARK
  {
    if s != "" {
      var b, rest, mark := EncodeChar(s[0]), Encode(s[1..]), EncodeChar(BYTE_ORDER_MARK);
      EncodedCharIsValid(s[0]);
      EncodedCharIsValid(BYTE_ORDER_MARK);
      assert (b + rest)[..|b|] == b;
      if mark <= Encode(s) {
        assert mark[0] == b[0];
        assert |mark| == |b|;
        assert mark == (b + rest)[..|b|];
        assert Payload(mark) == Payload(b);
      }
    }
  }

  lemma TextDecodeEncode(s: string)
    ensures TextDecode(Encode(s)) == if s != "" && s[0] == BYTE_ORDER_MARK then s[1..] else s
  {
    MarkComesFirst(s);
    DecodeEncode(s);
    if s != "" && s[0] == BYTE_ORDER_MARK {
      DecodeEncode(s[1..]);
      assert Encode(s)[3..] == Encode(s[1..]);
    }
  }
}

/** The platform's texts (sequences of UTF-16 code units) and the characters that they stand for. */
module Utf16 {
  import opened Sequences
  import Utf8

  predicate IsHigh(u: CodeUnit) { 0xD800 <= u < 0xDC00 }

  predicate IsLow(u: CodeUnit) { 0xDC00 <= u < 0xE000 }

  predicate IsPair(u: seq<CodeUnit>) { |u| >= 2 && IsHigh(u[0]) && IsLow(u[1]) }

  function PairChar(high: CodeUnit, low: CodeUnit): char
    requires IsHigh(high) && IsLow(low)
  {
    (0x1_0000 + (high - 0xD800) * 0x400 + (low - 0xDC00)) as char
  }

  /** A surrogate that is not one half of a pair stands for the replacement character. */
  function Chars(u: seq<CodeUnit>): string
  {
    if u == [] then ""
    else if IsPair(u) then [PairChar(u[0], u[1])] + Chars(u[2..])
    else if IsHigh(u[0]) || IsLow(u[0]) then [Utf8.REPLACEMENT] + Chars(u[1..])
    else [u[0] as char] + Chars(u[1..])
  }

  function UnitsOf(c: char): (u: seq<CodeUnit>)
    ensures 1 <= |u| <= 2
  {
    var n := c as int;
    if n < 0x1_0000 then [n] else [0xD800 + (n - 0x1_0000) / 0x400, 0xDC00 + (n - 0x1_0000) % 0x400]
  }

  function Units(s: string): seq<CodeUnit>
  {
    if s == "" then [] else UnitsOf(s[0]) + Units(s[1..])
  }

  /** No surrogate stands alone. */
  predicate IsPaired(u: seq<CodeUnit>)
  {
    if u == [] then true
    else if IsPair(u) then IsPaired(u[2..])
    else !IsHigh(u[0]) && !IsLow(u[0]) && IsPaired(u[1..])
  }

  lemma UnitsOfPair(high: CodeUnit, low: CodeUnit)
    requires IsHigh(high) && IsLow(low)
    ensures UnitsOf(PairChar(high, low)) == [high, low]
  {
  }

  lemma {:induction false} UnitsAppend(a: string, b: string)
    ensures Units(a + b) == Units(a) + Units(b)
  {
    if a == "" {
      assert a + b == b;
    } else {
      assert (a + b)[1..] == a[1..] + b;
      UnitsAppend(a[1..], b);
    }
  }

  lemma {:induction false} CharsOfUnits(s: string)
    ensures Chars(Units(s)) == s
  {
    if s != "" {
      var first, rest := UnitsOf(s[0]), Units(s[1..]);
      CharsOfUnits(s[1..]);
      assert (first + rest)[|first|..] == rest;
      if |first| == 2 {
        assert IsPair(first + rest) && PairChar(first[0], first[1]) == s[0];
      } else {
        assert !IsHigh(first[0]) && !IsLow(first[0]);
      }
    }
  }

  /** Going through characters keeps the length, and keeps exactly the texts without lone surrogates. */
  lemma {:induction false} UnitsOfCharsIff(u: seq<CodeUnit>)
    ensures |Units(Chars(u))| == |u|
    ensures Units(Chars(u)) == u <==> IsPaired(u)
    decreases |u|
  {
    if u != [] {
      var n := if IsPair(u) then 2 else 1;
      var rest := u[n..];
      UnitsOfCharsIff(rest);
      assert u == u[..n] + rest;
      var c := Chars(u)[0];
      assert Chars(u)[1..] == Chars(rest) && Units(Chars(u)) == UnitsOf(c) + Units(Chars(rest));
      if n == 2 {
        UnitsOfPair(u[0], u[1]);
        SameAfter(u[..2], Units(Chars(rest)), rest);
      } else if IsHigh(u[0]) || IsLow(u[0]) {
        assert Units(Chars(u))[0] == 0xFFFD != u[0];
      } else {
        assert UnitsOf(c) == u[..1];
        SameAfter(u[..1], Units(Chars(rest)), rest);
      }
    }
  }

  lemma SameAfter(first: seq<CodeUnit>, a: seq<CodeUnit>, b: seq<CodeUnit>)
    ensures first + a == first + b <==> a == b
  {
    assert (first + a)[|first|..] == a && (first + b)[|first|..] == b;
  }
}

/** `atob`: the forgiving decoder of the Infra Standard. */
module Atob {
  import opened Options
  import opened Sequences
  import Base64

  predicate IsAsciiSpace(c: char)
  {
    c == '\t' || c == '\n' || c == '\U{000C}' || c == '\r' || c == ' '
  }

  function WithoutSpace(s: string): string
  {
    Filter((c: char) => !IsAsciiSpace(c), s)
  }

  /** One or two padding characters are dropped from a text of whole quads. */
  function WithoutPadding(t: string): string
  {
    if t == "" || |t| % 4 != 0 || t[|t| - 1] != '=' then t
    else if t[|t| - 2] == '=' then t[..|t| - 2]
    else t[..|t| - 1]
  }

  function Padded(core: string): string
  {
    core + if |core| % 4 == 2 then "==" else if |core| % 4 == 3 then "=" else ""
  }

  function Decode(s: string): Option<seq<Byte>>
  {
    var core := WithoutPadding(WithoutSpace(s));
    if '=' !in core && Base64.WellFormed(Padded(core)) then Some(Base64.Decode(Padded(core))) else None
  }

  lemma {:induction false} PaddedAgain(text: string)
    requires Base64.WellFormed(text) && text != ""
    ensures |text| % 4 == 0 && Padded(WithoutPadding(text)) == text && '=' !in WithoutPadding(text)
    ensures forall c :: c in text ==> Base64.IsSymbol(c) || c == '='
    decreases |text|
  {
    if |text| > 4 {
      var quad, rest := text[..4], text[4..];
      PaddedAgain(rest);
      assert text == quad + rest;
      PaddingBehind(quad, rest);
    }
  }

  lemma PaddingBehind(quad: string, rest: string)
    requires |quad| == 4 && |rest| >= 4 && |rest| % 4 == 0
    ensures WithoutPadding(quad + rest) == quad + WithoutPadding(rest)
    ensures Padded(quad + WithoutPadding(rest)) == quad + Padded(WithoutPadding(rest))
  {
    var text, core := quad + rest, WithoutPadding(rest);
    assert text[|text| - 1] == rest[|rest| - 1] && text[|text| - 2] == rest[|rest| - 2];
    assert |quad + core| % 4 == |core| % 4;
    PaddedBehind(quad, core);
  }

  lemma PaddedBehind(quad: string, core: string)
    requires |quad + core| % 4 == |core| % 4
    ensures Padded(quad + core) == quad + Padded(core)
  {
  }

  /** On properly padded text the forgiving decoder is the decoder of the standard. */
  lemma DecodesWellFormed(text: string)
    requires Base64.WellFormed(text)
    ensures Decode(text) == Some(Base64.Decode(text))
  {
    if text != "" {
      PaddedAgain(text);
      FilterKeepsAll((c: char) => !IsAsciiSpace(c), text);
    }
  }

  /** ASCII white space does not matter, wherever it stands. */
  lemma SpaceIsIgnored(a: string, c: char, b: string)
    requires c as int in {0x09, 0x0A, 0x0C, 0x0D, 0x20}
    ensures Decode(a + [c] + b) == Decode(a + b)
  {
    var keep := (c: char) => !IsAsciiSpace(c);
    FilterAppend(keep, a, b);
    FilterAppend(keep, a + [c], b);
    FilterAppend(keep, a, [c]);
    FilterCons(keep, c, []);
    assert [c] + [] == [c];
    assert WithoutSpace([c]) == "" && WithoutSpace(a) + "" == WithoutSpace(a);
  }

  /**
   * What is decoded: text in which, white space aside, whole quads are padded as they should be, or
   * in which the padding is missing altogether.
   */
  lemma DecodesIff(s: string)
    ensures var t := WithoutSpace(s);
            Decode(s).Some? <==>
              Base64.WellFormed(t) || ('=' !in t && (Base64.WellFormed(t + "=") || Base64.WellFormed(t + "==")))
  {
    var t := WithoutSpace(s);
    PaddedIs(t);
    if Base64.WellFormed(t) && t != "" {
      PaddedAgain(t);
    }
    if '=' !in t {
      PadsAs(t, "=");
      PadsAs(t, "==");
    }
  }

  lemma PaddedIs(t: string)
    ensures '=' !in WithoutPadding(t) ==>
              Padded(WithoutPadding(t)) == t || ('=' !in t && Padded(WithoutPadding(t)) in {t + "=", t + "=="})
  {
    var core := WithoutPadding(t);
    if core != t {
      assert t == core + t[|core|..];
    } else {
      assert t + "" == t;
    }
  }

  lemma PadsAs(t: string, padding: string)
    requires '=' !in t && (padding == "=" || padding == "==")
    ensures Base64.WellFormed(t + padding) ==> Base64.WellFormed(Padded(WithoutPadding(t)))
    ensures WithoutPadding(t) == t
  {
    if Base64.WellFormed(t + padding) {
      PaddedAgain(t + padding);
      assert |t + padding| % 4 == 0;
      assert Padded(t) == t + padding;
    }
  }

  /** Unpadded text is decoded too. */
  lemma DecodesUnpadded(text: string)
    requires Base64.WellFormed(text) && text != ""
    ensures Decode(WithoutPadding(text)) == Some(Base64.Decode(text))
  {
    var core := WithoutPadding(text);
    PaddedAgain(text);
    assert forall c :: c in core ==> c in text;
    FilterKeepsAll((c: char) => !IsAsciiSpace(c), core);
    assert WithoutPadding(core) == core;
  }
}

/** Encrypted local storage: XOR with a repeated key, then base64. */
module SafeStorage {
  import opened Options
  import opened Sequences
  import Atob
  import Base64
  import Utf16
  import Utf8

  const ENC_PREFIX := "enc1:"

  function Pow2(n: nat): (r: nat)
    ensures r > 0
  {
    if n == 0 then 1 else 2 * Pow2(n - 1)
  }

  /** Exclusive or of the lowest `bits` bits, bit by bit. */
  function XorBits(a: nat, b: nat, bits: nat): (r: nat)
    ensures r < Pow2(bits)
  {
    if bits == 0 then 0
    else (if a % 2 == b % 2 then 0 else 1) + 2 * XorBits(a / 2, b / 2, bits - 1)
  }

  function Xor(a: Byte, b: Byte): Byte
  {
    assert Pow2(8) == 2 * 2 * 2 * 2 * 2 * Pow2(3);
    XorBits(a, b, 8)
  }

  /** Bit `k` of a number. */
  function Bit(x: nat, k: nat): nat { x / Pow2(k) % 2 }

  lemma NextBit(x: nat, k: nat)
    requires k < 8
    ensures Bit(x, k + 1) == Bit(x / 2, k)
  {
    Powers(k);
    Powers(k + 1);
  }

  lemma Powers(k: nat)
    requires k <= 8
    ensures Pow2(k) == [1, 2, 4, 8, 16, 32, 64, 128, 256][k]
  {
    if k > 0 {
      Powers(k - 1);
    }
  }

  lemma {:induction false} XorBitsAt(a: nat, b: nat, bits: nat, k: nat)
    requires k < bits && k <= 8
    ensures Bit(XorBits(a, b, bits), k) == if Bit(a, k) == Bit(b, k) then 0 else 1
  {
    if k > 0 {
      NextBit(a, k - 1);
      NextBit(b, k - 1);
      NextBit(XorBits(a, b, bits), k - 1);
      XorBitsAt(a / 2, b / 2, bits - 1, k - 1);
      assert XorBits(a, b, bits) / 2 == XorBits(a / 2, b / 2, bits - 1);
    }
  }

  lemma {:induction false} XorBitsTwice(a: nat, b: nat, bits: nat)
    requires a < Pow2(bits)
    ensures XorBits(XorBits(a, b, bits), b, bits) == a
  {
    if bits > 0 {
      XorBitsTwice(a / 2, b / 2, bits - 1);
      var low := if a % 2 == b % 2 then 0 else 1;
      assert XorBits(a, b, bits) / 2 == XorBits(a / 2, b / 2, bits - 1);
      assert XorBits(a, b, bits) % 2 == low;
    }
  }

  lemma XorTwice(a: Byte, b: Byte)
    ensures Xor(Xor(a, b), b) == a
  {
    assert Pow2(8) == 2 * 2 * 2 * 2 * 2 * Pow2(3);
    XorBitsTwice(a, b, 8);
  }

  function XorWithKey(bytes: seq<Byte>, key: seq<Byte>): (r: seq<Byte>)
    requires key != []
    ensures |r| == |bytes|
  {
    seq(|bytes|, i requires 0 <= i < |bytes| => Xor(bytes[i], key[i % |key|]))
  }

  lemma XorWithKeyTwice(bytes: seq<Byte>, key: seq<Byte>)
    requires key != []
    ensures XorWithKey(XorWithKey(bytes, key), key) == bytes
  {
    forall i | 0 <= i < |bytes|
      ensures XorWithKey(XorWithKey(bytes, key), key)[i] == bytes[i]
    {
      XorTwice(bytes[i], key[i % |key|]);
    }
  }

  /** What TextEncoder makes of a text. */
  function TextEncode(text: seq<CodeUnit>): seq<Byte>
  {
    Utf8.Encode(Utf16.Chars(text))
  }

  /** ... and TextDecoder of bytes. */
  function TextDecode(bytes: seq<Byte>): seq<CodeUnit>
  {
    Utf16.Units(Utf8.TextDecode(bytes))
  }

  lemma KeyBytesNonEmpty(key: seq<CodeUnit>)
    requires key != []
    ensures TextEncode(key) != []
  {
    assert Utf16.Chars(key) != "";
  }

  /** What is stored for a text. */
  function Encrypted(str: seq<CodeUnit>, key: seq<CodeUnit>): seq<CodeUnit>
  {
    if str == [] || key == [] then str
    else
      KeyBytesNonEmpty(key);
      Utf16.Units(ENC_PREFIX + Base64.Encode(XorWithKey(TextEncode(str), TextEncode(key))))
  }

  predicate IsMarked(str: seq<CodeUnit>) { Utf16.Units(ENC_PREFIX) <= str }

  /** What stands behind the mark. */
  function Body(str: seq<CodeUnit>): string
    requires IsMarked(str)
  {
    Utf16.Chars(str[|Utf16.Units(ENC_PREFIX)|..])
  }

  /** What is read back. A value whose base64 part is malformed comes back as it is. */
  function Decrypted(str: seq<CodeUnit>, key: seq<CodeUnit>): seq<CodeUnit>
  {
    if !IsMarked(str) || key == [] then str
    else
      var binary := Atob.Decode(Body(str));
      if binary.None? then str
      else
        KeyBytesNonEmpty(key);
        TextDecode(XorWithKey(binary.value, TextEncode(key)))
  }

  method XorBytes(bytes: seq<Byte>, key: seq<Byte>) returns (out: array<Byte>)
    requires key != []
    ensures fresh(out) && out[..] == XorWithKey(bytes, key)
  {
    out := new Byte[|bytes|];
    for i := 0 to |bytes|
      invariant forall j :: 0 <= j < i ==> out[j] == Xor(bytes[j], key[j % |key|])
    {
      out[i] := Xor(bytes[i], key[i % |key|]);
    }
  }

  method Encrypt(str: seq<CodeUnit>, key: seq<CodeUnit>) returns (stored: seq<CodeUnit>)
    ensures stored == Encrypted(str, key)
  {
    if str == [] || key == [] {
      return str;
    }
    KeyBytesNonEmpty(key);
    var out := XorBytes(TextEncode(str), TextEncode(key));
    stored := Utf16.Units(ENC_PREFIX + Base64.Encode(out[..]));
  }

  method Decrypt(str: seq<CodeUnit>, key: seq<CodeUnit>) returns (text: seq<CodeUnit>)
    ensures text == Decrypted(str, key)
  {
    if !IsMarked(str) || key == [] {
      return str;
    }
    var binary := Atob.Decode(Body(str));
    if binary.None? {
      return str;
    }
    KeyBytesNonEmpty(key);
    var out := XorBytes(binary.value, TextEncode(key));
    text := TextDecode(out[..]);
  }

  /** A stored text under a key: the mark, and the encoding of the ciphertext behind it. */
  lemma EncryptedBody(str: seq<CodeUnit>, key: seq<CodeUnit>)
    requires str != [] && key != []
    ensures TextEncode(key) != [] && IsMarked(Encrypted(str, key))
    ensures Body(Encrypted(str, key)) == Base64.Encode(XorWithKey(TextEncode(str), TextEncode(key)))
  {
    KeyBytesNonEmpty(key);
    var body := Base64.Encode(XorWithKey(TextEncode(str), TextEncode(key)));
    Utf16.UnitsAppend(ENC_PREFIX, body);
    var mark := Utf16.Units(ENC_PREFIX);
    assert (mark + Utf16.Units(body))[|mark|..] == Utf16.Units(body);
    Utf16.CharsOfUnits(body);
  }

  /** The bytes whose base64 stands behind the five units of the mark. */
  function StoredBytes(stored: seq<CodeUnit>): Option<seq<Byte>>
  {
    if [0x65, 0x6E, 0x63, 0x31, 0x3A] <= stored then Atob.Decode(Utf16.Chars(stored[5..])) else None
  }

  lemma StoredCipher(str: seq<CodeUnit>, key: seq<CodeUnit>)
    requires str != [] && key != []
    ensures TextEncode(key) != []
    ensures StoredBytes(Encrypted(str, key)) == Some(XorWithKey(TextEncode(str), TextEncode(key)))
  {
    EncryptedBody(str, key);
    MarkUnits();
    var cipher := XorWithKey(TextEncode(str), TextEncode(key));
    Base64.DecodeEncode(cipher);
    Atob.DecodesWellFormed(Base64.Encode(cipher));
  }

  lemma CipherBit(text: seq<Byte>, key: seq<Byte>, i: nat, k: nat)
    requires key != [] && i < |text| && k < 8
    ensures Bit(XorWithKey(text, key)[i], k) != Bit(text[i], k) <==> Bit(key[i % |key|], k) == 1
  {
    XorBitsAt(text[i], key[i % |key|], 8, k);
  }

  /**
   * What is stored under a key, bit by bit: behind the mark stands the encoding of as many bytes as
   * the text has, each bit turned over exactly where the repeated key has a 1.
   */
  lemma StoredBits(str: seq<CodeUnit>, key: seq<CodeUnit>, i: nat, k: nat)
    requires str != [] && key != [] && i < |TextEncode(str)| && k < 8
    ensures TextEncode(key) != []
    ensures StoredBytes(Encrypted(str, key)).Some?
    ensures var bytes, text, keyBytes := StoredBytes(Encrypted(str, key)).value, TextEncode(str), TextEncode(key);
            && |bytes| == |text|
            && (bytes[i] / Pow2(k) % 2 != text[i] / Pow2(k) % 2 <==> keyBytes[i % |keyBytes|] / Pow2(k) % 2 == 1)
  {
    StoredCipher(str, key);
    CipherBit(TextEncode(str), TextEncode(key), i, k);
  }

  /** What was never encrypted, is damaged, or has no key to be read with, comes back as it is stored. */
  lemma PassesThrough(stored: seq<CodeUnit>, key: seq<CodeUnit>)
    requires StoredBytes(stored).None? || key == []
    ensures Decrypted(stored, key) == stored
  {
    MarkUnits();
  }

  lemma MarkUnits()
    ensures Utf16.Units(ENC_PREFIX) == [0x65, 0x6E, 0x63, 0x31, 0x3A]
  {
    assert ENC_PREFIX == ['e'] + (['n'] + (['c'] + (['1'] + ([':'] + ""))));
  }

  const MARK: CodeUnit := 0xFEFF

  /** A text with each lone surrogate replaced by U+FFFD. */
  function Scrubbed(text: seq<CodeUnit>): seq<CodeUnit>
  {
    Utf16.Units(Utf16.Chars(text))
  }

  /** The decoder drops a leading byte order mark; the encoder has replaced lone surrogates. */
  lemma TextDecodeEncode(text: seq<CodeUnit>)
    ensures TextDecode(TextEncode(text)) == Scrubbed(if text != [] && text[0] == MARK then text[1..] else text)
  {
    var chars := Utf16.Chars(text);
    Utf8.TextDecodeEncode(chars);
    if text != [] {
      assert chars != "" && (chars[0] == Utf8.BYTE_ORDER_MARK <==> text[0] == MARK);
      if text[0] == MARK {
        assert chars[1..] == Utf16.Chars(text[1..]);
      }
    }
  }

  /** What a round trip gives for every text and every key. */
  lemma DecryptEncrypt(str: seq<CodeUnit>, key: seq<CodeUnit>)
    ensures Decrypted(Encrypted(str, key), key) ==
            if key == [] || str == [] then str
            else Scrubbed(if str[0] == MARK then str[1..] else str)
  {
    if str != [] && key != [] {
      EncryptedBody(str, key);
      var cipher := XorWithKey(TextEncode(str), TextEncode(key));
      Base64.DecodeEncode(cipher);
      Atob.DecodesWellFormed(Base64.Encode(cipher));
      XorWithKeyTwice(TextEncode(str), TextEncode(key));
      TextDecodeEncode(str);
    }
  }

  /**
   * Storage gives back exactly what was stored, for the empty key too, except that a key makes a
   * leading byte order mark disappear and lone surrogates turn into replacement characters.
   */
  lemma RoundTripIff(str: seq<CodeUnit>, key: seq<CodeUnit>)
    ensures Decrypted(Encrypted(str, key), key) == str <==>
            key == [] || str == [] || (str[0] != MARK && Utf16.IsPaired(str))
  {
    DecryptEncrypt(str, key);
    if str != [] {
      Utf16.UnitsOfCharsIff(str);
      Utf16.UnitsOfCharsIff(str[1..]);
    }
  }

  /** A text stored under a key is never mistaken for a legacy plain value. */
  lemma EncryptedIsMarked(str: seq<CodeUnit>, key: seq<CodeUnit>)
    requires str != [] && key != []
    ensures IsMarked(Encrypted(str, key)) && Base64.IsStrictBase64(Body(Encrypted(str, key)))
  {
    EncryptedBody(str, key);
    Base64.StrictIffEncoded(Body(Encrypted(str, key)));
  }
}
