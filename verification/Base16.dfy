/** Hexadecimal digits: the codec of digests and of the file names in the cache. */
module Base16 {
  import opened Wrappers
  import opened Bytes

  type Nibble = x: int | 0 <= x < 16

  /** The encoder's digit table. */
  function Digit(n: Nibble): char {
    if n < 10 then '0' + n as char else 'a' + (n - 10) as char
  }

  /** Either case is accepted when decoding. */
  function DigitValue(c: char): Option<Nibble> {
    if '0' <= c <= '9' then Some(c as int - '0' as int)
    else if 'A' <= c <= 'F' then Some(10 + c as int - 'A' as int)
    else if 'a' <= c <= 'f' then Some(10 + c as int - 'a' as int)
    else None
  }

  predicate LowerDigit(c: char) { '0' <= c <= '9' || 'a' <= c <= 'f' }

  predicate IsEncoded(s: string) {
    |s| % 2 == 0 && forall i | 0 <= i < |s| :: LowerDigit(s[i])
  }

  lemma {:induction false} DigitInverse(n: Nibble)
    ensures DigitValue(Digit(n)) == Some(n) && LowerDigit(Digit(n))
  {
  }

  lemma {:induction false} DigitValueInverse(c: char)
    requires LowerDigit(c)
    ensures DigitValue(c).Some? && Digit(DigitValue(c).value) == c
  {
  }

  function Encoded(data: seq<Byte>): (s: string)
    ensures |s| == 2 * |data|
  {
    if data == [] then [] else [Digit(data[0] / 16), Digit(data[0] % 16)] + Encoded(data[1..])
  }

  /** Each byte becomes the digit of its high half and the digit of its low half, in lower case. */
  lemma {:induction false} EncodedAt(data: seq<Byte>, i: nat)
    requires i < |data|
    ensures Encoded(data)[2 * i] == "0123456789abcdef"[data[i] / 16]
    ensures Encoded(data)[2 * i + 1] == "0123456789abcdef"[data[i] % 16]
  {
    if i > 0 {
      hide Digit;
      EncodedAt(data[1..], i - 1);
      assert Encoded(data)[2..] == Encoded(data[1..]);
    }
  }

  function Joined(high: Nibble, low: Nibble): Byte { 16 * high + low }

  /** The bytes, or none for an odd number of digits or a character that is no digit. */
  function Decoded(s: string): (r: Option<seq<Byte>>)
    ensures r.Some? ==> |s| == 2 * |r.value|
  {
    if s == [] then Some([])
    else if |s| == 1 || DigitValue(s[0]).None? || DigitValue(s[1]).None? then None
    else
      var rest := Decoded(s[2..]);
      if rest.None? then None else Some([Joined(DigitValue(s[0]).value, DigitValue(s[1]).value)] + rest.value)
  }

  lemma {:induction false} EncodedDigits(data: seq<Byte>)
    ensures IsEncoded(Encoded(data))
  {
    hide Digit, LowerDigit;
    if data != [] {
      EncodedDigits(data[1..]);
      DigitInverse(data[0] / 16);
      DigitInverse(data[0] % 16);
    }
  }

  lemma {:induction false} DecodedEncoded(data: seq<Byte>)
    ensures Decoded(Encoded(data)) == Some(data)
  {
    hide Digit, DigitValue, LowerDigit;
    if data != [] {
      var s, high, low := Encoded(data), data[0] / 16, data[0] % 16;
      DigitInverse(high);
      DigitInverse(low);
      DecodedEncoded(data[1..]);
      assert s[0] == Digit(high) && s[1] == Digit(low) && s[2..] == Encoded(data[1..]);
      assert [Joined(high, low)] + data[1..] == data;
    }
  }

  /** Distinct byte strings have distinct encodings. */
  lemma {:induction false} EncodedInjective(a: seq<Byte>, b: seq<Byte>)
    requires Encoded(a) == Encoded(b)
    ensures a == b
  {
    DecodedEncoded(a);
    DecodedEncoded(b);
  }

  /** The character is the digit for `n`, in either case. */
  predicate Spells(c: char, n: Nibble) { c == "0123456789abcdef"[n] || c == "0123456789ABCDEF"[n] }

  lemma {:induction false} DigitSpells(c: char)
    ensures forall n: Nibble :: DigitValue(c) == Some(n) <==> Spells(c, n)
  {
  }

  /** Two digits for each byte, and nothing else. */
  predicate SpellsAll(s: string, data: seq<Byte>) {
    && |s| == 2 * |data|
    && forall i | 0 <= i < |data| :: Spells(s[2 * i], data[i] / 16) && Spells(s[2 * i + 1], data[i] % 16)
  }

  lemma {:induction false} SpellsFirst(s: string, data: seq<Byte>)
    requires |s| >= 2 && data != []
    ensures SpellsAll(s, data) <==>
              Spells(s[0], data[0] / 16) && Spells(s[1], data[0] % 16) && SpellsAll(s[2..], data[1..])
  {
    hide Spells;
    var t, rest := s[2..], data[1..];
    if |s| == 2 * |data| {
      forall i | 0 <= i < |rest|
        ensures t[2 * i] == s[2 * (i + 1)] && t[2 * i + 1] == s[2 * (i + 1) + 1] && rest[i] == data[i + 1] { }
      if SpellsAll(t, rest) {
        forall i | 0 < i < |data|
          ensures s[2 * i] == t[2 * (i - 1)] && s[2 * i + 1] == t[2 * (i - 1) + 1] && data[i] == rest[i - 1] { }
      }
    }
  }

  /** Decoding finds exactly what the text spells. */
  lemma {:induction false} DecodedExactly(s: string, data: seq<Byte>)
    ensures Decoded(s) == Some(data) <==> SpellsAll(s, data)
    decreases |s|
  {
    if |s| >= 2 && data != [] {
      hide DigitValue, Spells, SpellsAll, Decoded;
      DecodedExactly(s[2..], data[1..]);
      DigitSpells(s[0]);
      DigitSpells(s[1]);
      SpellsFirst(s, data);
      FirstDecoded(s, data);
    }
  }

  lemma {:induction false} FirstDecoded(s: string, data: seq<Byte>)
    requires |s| >= 2 && data != []
    ensures Decoded(s) == Some(data) <==>
              DigitValue(s[0]) == Some(data[0] / 16) && DigitValue(s[1]) == Some(data[0] % 16) && Decoded(s[2..]) == Some(data[1..])
  {
    hide DigitValue;
    assert data == [data[0]] + data[1..];
  }

  /** On lower-case digits, decoding loses nothing either. */
  lemma {:induction false} EncodedDecoded(s: string)
    requires IsEncoded(s)
    ensures Decoded(s).Some? && Encoded(Decoded(s).value) == s
    decreases |s|
  {
    hide Digit, DigitValue, LowerDigit;
    if s != [] {
      DigitValueInverse(s[0]);
      DigitValueInverse(s[1]);
      EncodedDecoded(s[2..]);
      PairBack(DigitValue(s[0]).value, DigitValue(s[1]).value, Decoded(s[2..]).value);
      hide Encoded;
      assert s == [s[0], s[1]] + s[2..];
    }
  }

  lemma {:induction false} PairBack(high: Nibble, low: Nibble, rest: seq<Byte>)
    ensures Encoded([Joined(high, low)] + rest) == [Digit(high), Digit(low)] + Encoded(rest)
  {
    hide Digit;
    assert ([Joined(high, low)] + rest)[1..] == rest;
  }

  method Base16Encode(data: seq<Byte>) returns (result: string)
    ensures result == Encoded(data)
  {
    result := [];
    for i := 0 to |data|
      invariant result + Encoded(data[i..]) == Encoded(data)
    {
      var high, low := Digit(data[i] / 16), Digit(data[i] % 16);
      assert Encoded(data[i..]) == [high, low] + Encoded(data[i..][1..]) && data[i..][1..] == data[i + 1..];
      assert result + ([high, low] + Encoded(data[i + 1..])) == (result + [high] + [low]) + Encoded(data[i + 1..]);
      result := result + [high];
      result := result + [low];
    }
    assert result + Encoded(data[|data|..]) == result;
  }

  /** What the decoder makes of the rest behind what it has written. */
  ghost function Behind(out: seq<Byte>, rest: Option<seq<Byte>>): Option<seq<Byte>> {
    if rest.None? then None else Some(out + rest.value)
  }

  lemma {:induction false} DecodeRound(s: string, first: nat, out: seq<Byte>)
    requires first < |s|
    ensures Behind(out, Decoded(s[first..])) ==
              if first + 1 == |s| || DigitValue(s[first]).None? || DigitValue(s[first + 1]).None? then None
              else Behind(out + [Joined(DigitValue(s[first]).value, DigitValue(s[first + 1]).value)], Decoded(s[first + 2..]))
  {
    hide DigitValue;
    var rest := s[first..];
    if |rest| >= 2 {
      assert rest[2..] == s[first + 2..];
      var later := Decoded(rest[2..]);
      if later.Some? && DigitValue(rest[0]).Some? && DigitValue(rest[1]).Some? {
        var byte := Joined(DigitValue(rest[0]).value, DigitValue(rest[1]).value);
        assert out + ([byte] + later.value) == (out + [byte]) + later.value;
      }
    }
  }

  lemma {:induction false} DecodeEnds(s: string, out: seq<Byte>)
    ensures Behind([], Decoded(s[0..])) == Decoded(s) && Behind(out, Decoded(s[|s|..])) == Some(out)
  {
    assert s[0..] == s && s[|s|..] == "" && out + [] == out;
    if Decoded(s).Some? { assert [] + Decoded(s).value == Decoded(s).value; }
  }

  /** `offset` is where the exception points when there is one: no digit, or one that is left over. */
  method Base16Decode(s: string) returns (r: Option<seq<Byte>>, offset: nat)
    ensures r == Decoded(s)
    ensures r.None? ==> offset < |s| && forall i | 0 <= i < offset :: DigitValue(s[i]).Some?
    ensures r.None? ==> DigitValue(s[offset]).None? || (offset == |s| - 1 && offset % 2 == 0)
  {
    hide DigitValue, Decoded, Behind;
    var first: nat := 0;
    var out: seq<Byte> := [];
    offset := 0;
    DecodeEnds(s, []);
    while first != |s|
      invariant first <= |s| && offset == first && first % 2 == 0
      invariant forall i | 0 <= i < first :: DigitValue(s[i]).Some?
      invariant Decoded(s) == Behind(out, Decoded(s[first..]))
      decreases |s| - first
    {
      DecodeRound(s, first, out);
      var val1 := DigitValue(s[first]);
      if val1.None? { return None, offset; }
      first := first + 1;
      if first == |s| { return None, offset; }
      offset := offset + 1;
      var val2 := DigitValue(s[first]);
      if val2.None? { return None, offset; }
      first, offset := first + 1, offset + 1;
      out := out + [Joined(val1.value, val2.value)];
    }
    DecodeEnds(s, out);
    return Some(out), offset;
  }
}
