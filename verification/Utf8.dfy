/**
  The UTF-8 validator and the Latin-1 converter, against the encoding of RFC 3629
  (sections 3 and 4). Bit masks on an octet are written as divisions: the octets
  with the top three bits 110 are those whose quotient by 32 is 6.
 */
module Utf8 {
  import opened Bytes

  // ---- RFC 3629 ----------------------------------------------------------------

  /** Unicode scalar values: the surrogates are excluded. */
  type Scalar = x: int | 0 <= x < 0xD800 || 0xE000 <= x <= 0x10FFFF

  function Continuation(n: int): Byte { 0x80 + n % 64 }

  /** Section 3: the octets of one character. */
  function Encode(c: Scalar): (s: seq<Byte>)
    ensures 1 <= |s| <= 4
  {
    if c < 0x80 then [c]
    else if c < 0x800 then [0xC0 + c / 64, Continuation(c)]
    else if c < 0x1_0000 then [0xE0 + c / 4096, Continuation(c / 64), Continuation(c)]
    else [0xF0 + c / 0x4_0000, Continuation(c / 4096), Continuation(c / 64), Continuation(c)]
  }

  function EncodeAll(cs: seq<Scalar>): seq<Byte> {
    if cs == [] then [] else Encode(cs[0]) + EncodeAll(cs[1..])
  }

  // ---- the validator -------------------------------------------------------------

  /** `pg_utf_mblen`: the length announced by the first octet. */
  function MbLen(b: Byte): int {
    if b / 128 == 0 then 1
    else if b / 32 == 6 then 2
    else if b / 16 == 14 then 3
    else if b / 8 == 30 then 4
    else 1
  }

  predicate InRange(a: Byte, low: int, high: int) { low <= a <= high }

  /** The restrictions on the second octet. */
  predicate SecondIsLegal(first: Byte, a: Byte) {
    if first == 0xE0 then InRange(a, 0xA0, 0xBF)
    else if first == 0xED then InRange(a, 0x80, 0x9F)
    else if first == 0xF0 then InRange(a, 0x90, 0xBF)
    else if first == 0xF4 then InRange(a, 0x80, 0x8F)
    else InRange(a, 0x80, 0xBF)
  }

  /** `pg_utf8_islegal`: the cases fall through from the longest to the shortest. */
  predicate IsLegal(s: seq<Byte>, length: int)
    requires 1 <= length <= |s|
  {
    && length <= 4
    && (length >= 4 ==> InRange(s[3], 0x80, 0xBF))
    && (length >= 3 ==> InRange(s[2], 0x80, 0xBF))
    && (length >= 2 ==> SecondIsLegal(s[0], s[1]))
    && !InRange(s[0], 0x80, 0xC1) && s[0] <= 0xF4
  }

  /** `pg_utf8_verifier`: the length of the character at the front, or -1. */
  function Verifier(s: seq<Byte>): (l: int)
    requires s != []
    ensures l == -1 || 1 <= l <= |s|
  {
    var l := MbLen(s[0]);
    if |s| < l then -1 else if !IsLegal(s, l) then -1 else l
  }

  /** Only the first four octets matter. */
  lemma {:induction false} WindowIsEnough(s: seq<Byte>, n: nat)
    requires 4 <= n <= |s|
    ensures Verifier(s[..n]) == Verifier(s)
  {
  }

  predicate IsValid(s: seq<Byte>)
    decreases |s|
  {
    s == [] || (Verifier(s) > 0 && IsValid(s[Verifier(s)..]))
  }

  lemma {:induction false} AcceptsEncoding(c: Scalar, rest: seq<Byte>)
    ensures Verifier(Encode(c) + rest) == |Encode(c)|
    ensures (Encode(c) + rest)[|Encode(c)|..] == rest
  {
  }

  /** The character whose encoding the validator has accepted. */
  function DecodeFirst(s: seq<Byte>): (c: Scalar)
    requires s != [] && Verifier(s) > 0
    ensures Encode(c) == s[..Verifier(s)]
  {
    var l := Verifier(s);
    if l == 1 then Ascii(s)
    else if l == 2 then Two(s)
    else if l == 3 then Three(s)
    else Four(s)
  }

  function Ascii(s: seq<Byte>): (c: Scalar)
    requires s != [] && Verifier(s) == 1
    ensures Encode(c) == s[..1]
  {
    s[0]
  }

  function Two(s: seq<Byte>): (c: Scalar)
    requires s != [] && Verifier(s) == 2
    ensures Encode(c) == s[..2]
  {
    var a: int, b: int := s[0], s[1];
    var c := 64 * (a - 0xC0) + (b - 0x80);
    assert c / 64 == a - 0xC0 && c % 64 == b - 0x80;
    c
  }

  function Three(s: seq<Byte>): (c: Scalar)
    requires s != [] && Verifier(s) == 3
    ensures Encode(c) == s[..3]
  {
    var a: int, b: int, d: int := s[0], s[1], s[2];
    var c := 4096 * (a - 0xE0) + 64 * (b - 0x80) + (d - 0x80);
    assert c / 64 == 64 * (a - 0xE0) + (b - 0x80) && c % 64 == d - 0x80;
    assert c / 4096 == a - 0xE0 && c / 64 % 64 == b - 0x80;
    c
  }

  function Four(s: seq<Byte>): (c: Scalar)
    requires s != [] && Verifier(s) == 4
    ensures Encode(c) == s[..4]
  {
    var a: int, b: int, d: int, e: int := s[0], s[1], s[2], s[3];
    var c := 0x4_0000 * (a - 0xF0) + 4096 * (b - 0x80) + 64 * (d - 0x80) + (e - 0x80);
    assert c / 64 == 4096 * (a - 0xF0) + 64 * (b - 0x80) + (d - 0x80) && c % 64 == e - 0x80;
    assert c / 4096 == 64 * (a - 0xF0) + (b - 0x80) && c / 64 % 64 == d - 0x80;
    assert c / 0x4_0000 == a - 0xF0 && c / 4096 % 64 == b - 0x80;
    c
  }

  function Decode(s: seq<Byte>): (cs: seq<Scalar>)
    requires IsValid(s)
    ensures EncodeAll(cs) == s
    decreases |s|
  {
    if s == [] then [] else
      var l := Verifier(s);
      assert s == s[..l] + s[l..];
      [DecodeFirst(s)] + Decode(s[l..])
  }

  lemma {:induction false} EncodingIsValid(cs: seq<Scalar>)
    ensures IsValid(EncodeAll(cs))
  {
    if cs != [] {
      AcceptsEncoding(cs[0], EncodeAll(cs[1..]));
      EncodingIsValid(cs[1..]);
    }
  }

  /** The validator accepts exactly the encodings of sequences of scalar values. */
  lemma {:induction false} ValidIffEncoding(s: seq<Byte>)
    ensures IsValid(s) <==> exists cs :: EncodeAll(cs) == s
  {
    if IsValid(s) { assert EncodeAll(Decode(s)) == s; }
    if cs :| EncodeAll(cs) == s { EncodingIsValid(cs); }
  }

  lemma {:induction false} SameFirst(a: Scalar, b: Scalar, x: seq<Byte>, y: seq<Byte>)
    requires Encode(a) + x == Encode(b) + y
    ensures a == b && x == y
  {
    AcceptsEncoding(a, x);
    AcceptsEncoding(b, y);
    hide Encode, Verifier;
    assert Encode(a) == (Encode(a) + x)[..|Encode(a)|] && Encode(b) == (Encode(b) + y)[..|Encode(b)|];
    EncodeInjective(a, b);
  }

  /** No octet string encodes two different texts. */
  lemma {:induction false} EncodeAllInjective(a: seq<Scalar>, b: seq<Scalar>)
    requires EncodeAll(a) == EncodeAll(b)
    ensures a == b
  {
    if a != [] && b != [] {
      SameFirst(a[0], b[0], EncodeAll(a[1..]), EncodeAll(b[1..]));
      EncodeAllInjective(a[1..], b[1..]);
      assert a == [a[0]] + a[1..] && b == [b[0]] + b[1..];
    }
  }

  /** The bits that the octets of an encoding carry. */
  ghost function Bits(s: seq<int>): int {
    if |s| == 1 then s[0]
    else if |s| == 2 then 64 * (s[0] - 0xC0) + (s[1] - 0x80)
    else if |s| == 3 then 64 * (64 * (s[0] - 0xE0) + (s[1] - 0x80)) + (s[2] - 0x80)
    else if |s| == 4 then 64 * (64 * (64 * (s[0] - 0xF0) + (s[1] - 0x80)) + (s[2] - 0x80)) + (s[3] - 0x80)
    else 0
  }

  lemma {:induction false} BitsOfEncoding(c: Scalar)
    ensures Bits(Encode(c)) == c
  {
    var d: int := c / 64;
    var e: int := d / 64;
    assert c == 64 * d + c % 64;
    assert c / 4096 == e && d == 64 * e + d % 64;
    assert c / 0x4_0000 == e / 64 && e == 64 * (e / 64) + e % 64;
  }

  lemma {:induction false} EncodeInjective(a: Scalar, b: Scalar)
    requires Encode(a) == Encode(b)
    ensures a == b
  {
    hide Encode, Bits;
    BitsOfEncoding(a);
    BitsOfEncoding(b);
  }

  method IsValidUtf8(str: seq<Byte>) returns (valid: bool)
    ensures valid <==> IsValid(str)
  {
    hide Verifier;
    var p := 0;
    while p != |str|
      invariant 0 <= p <= |str| && (IsValid(str) <==> IsValid(str[p..]))
      decreases |str| - p
    {
      var remaining := |str| - p;
      if remaining > 16 { remaining := 16; }
      ghost var rest := str[p..];
      assert str[p..p + remaining] == rest[..remaining];
      if remaining >= 4 { WindowIsEnough(rest, remaining); } else { assert rest[..remaining] == rest; }
      var ret := Verifier(str[p..p + remaining]);
      if ret < 0 { return false; }
      assert rest[ret..] == str[p + ret..];
      p := p + ret;
    }
    return true;
  }

  // ---- Latin-1 ---------------------------------------------------------------------

  /** The octets as code points: Latin-1 is the first block of Unicode. */
  function CodePoints(s: seq<Byte>): (cs: seq<Scalar>)
    ensures |cs| == |s| && forall i | 0 <= i < |s| :: cs[i] == s[i]
  {
    if s == [] then [] else [s[0]] + CodePoints(s[1..])
  }

  lemma {:induction false} EncodeAllStep(cs: seq<Scalar>, n: nat)
    requires n < |cs|
    ensures EncodeAll(cs[n..]) == Encode(cs[n]) + EncodeAll(cs[n + 1..])
  {
    assert cs[n..][1..] == cs[n + 1..];
  }

  /** The result is valid, and decodes to the input's octets as code points. */
  method Latin1ToUtf8(str: seq<Byte>) returns (result: seq<Byte>)
    ensures result == EncodeAll(CodePoints(str))
    ensures IsValid(result) && Decode(result) == CodePoints(str)
  {
    ghost var cs := CodePoints(str);
    result := [];
    assert cs[0..] == cs;
    for p := 0 to |str|
      invariant result + EncodeAll(cs[p..]) == EncodeAll(cs)
    {
      EncodeAllStep(cs, p);
      ghost var rest := EncodeAll(cs[p + 1..]);
      assert result + (Encode(cs[p]) + rest) == (result + Encode(cs[p])) + rest;
      if str[p] < 0x80 {
        result := result + [str[p]];
      } else {
        assert Encode(cs[p]) == [0xC0 + str[p] / 64] + [0x80 + str[p] % 64];
        assert result + [0xC0 + str[p] / 64] + [0x80 + str[p] % 64] == result + Encode(cs[p]);
        result := result + [0xC0 + str[p] / 64];
        result := result + [0x80 + str[p] % 64];
      }
    }
    assert cs[|str|..] == [] && result + [] == result;
    EncodingIsValid(cs);
    EncodeAllInjective(Decode(result), cs);
  }
}
