/** Bounds-checked big-endian reads; none stands for `std::out_of_range`. */
module VectorExtract {
  import opened Wrappers
  import opened Bytes
  import opened Sequences

  function Extract8(vec: seq<Byte>, offset: nat): (r: Option<Byte>)
    ensures r.Some? <==> offset < |vec|
  {
    if offset < |vec| then Some(vec[offset]) else None
  }

  function Value16(a: Byte, b: Byte): (n: nat)
    ensures n < 0x1_0000
  {
    256 * a + b
  }

  function Extract16(vec: seq<Byte>, offset: nat): (r: Option<nat>)
    ensures r.Some? <==> offset + 2 <= |vec|
    ensures r.Some? ==> r.value < 0x1_0000 && r.value / 256 == vec[offset] && r.value % 256 == vec[offset + 1]
  {
    if offset + 2 <= |vec| then Some(Value16(vec[offset], vec[offset + 1])) else None
  }

  function Extract32(vec: seq<Byte>, offset: nat): (r: Option<nat>)
    ensures r.Some? <==> offset + 4 <= |vec|
  {
    if offset + 4 <= |vec|
    then Some(0x1_0000 * Value16(vec[offset], vec[offset + 1]) + Value16(vec[offset + 2], vec[offset + 3]))
    else None
  }

  const SIZE_LIMIT := 0x1_0000_0000_0000_0000

  /** `length` octets; the sum of offset and length may wrap around. */
  function Extract(vec: seq<Byte>, offset: nat, length: nat): (r: Option<seq<Byte>>)
    requires offset < SIZE_LIMIT && length < SIZE_LIMIT && |vec| < SIZE_LIMIT
    ensures r.Some? <==> offset + length <= |vec|
    ensures r.Some? ==> r.value == vec[offset..offset + length]
  {
    var end := (offset + length) % SIZE_LIMIT;
    if end < offset || end > |vec| then None else Some(vec[offset..end])
  }

  function Bytes2(n: nat): (s: seq<Byte>)
    requires n < 0x1_0000
    ensures |s| == 2
  {
    [n / 256, n % 256]
  }

  lemma {:induction false} Extract16Inverse(vec: seq<Byte>, offset: nat, n: nat)
    requires n < 0x1_0000 && Holds(vec, offset, Bytes2(n))
    ensures Extract16(vec, offset) == Some(n)
  {
    var s := vec[offset..offset + 2];
    assert s[0] == vec[offset] && s[1] == vec[offset + 1];
  }
}
