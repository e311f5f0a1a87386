/**
  The front part of a Java class file (JVM Specification, section 4.1): the walk
  over the constant pool (section 4.4), the indexes after it, and the lookups.
 */
module JavaClass {
  import opened Wrappers
  import opened Bytes
  import opened VectorExtract
  import opened Sequences

  datatype Error = BadMagic | EmptyPool | BadTag | OutOfRange | ZeroIndex | WrongTag

  const CONSTANT_Utf8 := 1
  const CONSTANT_Integer := 3
  const CONSTANT_Float := 4
  const CONSTANT_Long := 5
  const CONSTANT_Double := 6
  const CONSTANT_Class := 7
  const CONSTANT_String := 8
  const CONSTANT_Fieldref := 9
  const CONSTANT_Methodref := 10
  const CONSTANT_InterfaceMethodref := 11
  const CONSTANT_NameAndType := 12

  predicate TwoByteTag(tag: Byte) { tag == CONSTANT_Class || tag == CONSTANT_String }

  predicate FourByteTag(tag: Byte) {
    tag == CONSTANT_Fieldref || tag == CONSTANT_Float || tag == CONSTANT_Integer
    || tag == CONSTANT_InterfaceMethodref || tag == CONSTANT_Methodref || tag == CONSTANT_NameAndType
  }

  predicate WideTag(tag: Byte) { tag == CONSTANT_Long || tag == CONSTANT_Double }

  // ---- the walk over the constant pool ---------------------------------------------

  /** The size of the entry at `offset`, as far as the walk checks it. */
  function EntrySize(vec: seq<Byte>, offset: nat): (r: Result<nat, Error>)
    ensures r.Ok? ==> 1 <= r.value <= 65538 && offset < |vec|
  {
    var tag := Extract8(vec, offset);
    if tag.None? then Err(OutOfRange)
    else if TwoByteTag(tag.value) then Ok(3)
    else if FourByteTag(tag.value) then Ok(5)
    else if WideTag(tag.value) then Ok(9)
    else if tag.value == CONSTANT_Utf8 then
      var len := Extract16(vec, offset + 1);
      if len.None? then Err(OutOfRange) else Ok(3 + len.value)
    else Err(BadTag)
  }

  predicate IsWide(vec: seq<Byte>, offset: nat) { offset < |vec| && WideTag(vec[offset]) }

  /** The offsets stored for the slots from `i` on, and where the pool ends. */
  function Walk(vec: seq<Byte>, offset: nat, i: nat, count: nat): (r: Result<(seq<nat>, nat), Error>)
    decreases count - i
  {
    if i >= count then Ok(([], offset))
    else
      var size := EntrySize(vec, offset);
      if size.Err? then Err(size.error)
      else
        var wide := IsWide(vec, offset);
        var rest := Walk(vec, offset + size.value, if wide then i + 2 else i + 1, count);
        if rest.Err? then rest
        else Ok(((if wide then [offset, 0] else [offset]) + rest.value.0, rest.value.1))
  }

  datatype ClassFile = ClassFile(
    buffer: seq<Byte>, minor: nat, major: nat, offsets: seq<nat>,
    accessFlags: nat, thisClass: nat, superClass: nat, interfaces: seq<nat>)

  /** `n` 16-bit indexes from `offset` on. */
  function Indexes(vec: seq<Byte>, offset: nat, n: nat): (r: Option<seq<nat>>)
    ensures r.Some? ==> |r.value| == n
    decreases n
  {
    if n == 0 then Some([])
    else
      var first, rest := Extract16(vec, offset), Indexes(vec, offset + 2, n - 1);
      if first.None? || rest.None? then None else Some([first.value] + rest.value)
  }

  /** What follows the pool at `offset`. */
  function Tail(vec: seq<Byte>, minor: nat, major: nat, offsets: seq<nat>, offset: nat): Result<ClassFile, Error> {
    if offset + 8 > |vec| then Err(OutOfRange)
    else
      var n := Extract16(vec, offset + 6).value;
      var interfaces := Indexes(vec, offset + 8, n);
      if interfaces.None? then Err(OutOfRange)
      else Ok(ClassFile(vec, minor, major, offsets,
                        Extract16(vec, offset).value, Extract16(vec, offset + 2).value, Extract16(vec, offset + 4).value,
                        interfaces.value))
  }

  const MAGIC := 0xCAFE_BABE

  function Parsed(vec: seq<Byte>): Result<ClassFile, Error> {
    if |vec| < 4 then Err(OutOfRange)
    else if Extract32(vec, 0) != Some(MAGIC) then Err(BadMagic)
    else if |vec| < 10 then Err(OutOfRange)
    else
      var count := Extract16(vec, 8).value;
      if count < 2 then Err(EmptyPool)
      else
        var pool := Walk(vec, 10, 1, count);
        if pool.Err? then Err(pool.error)
        else Tail(vec, Extract16(vec, 4).value, Extract16(vec, 6).value, pool.value.0, pool.value.1)
  }

  // ---- on any accepted buffer -------------------------------------------------------

  /**
    The stored offsets are the starts of consecutive entries from `offset` on,
    with a zero after each wide one, and the last entry ends at `end`.
   */
  ghost predicate LaidOut(vec: seq<Byte>, offsets: seq<nat>, offset: nat, end: nat)
    decreases |offsets|
  {
    if offsets == [] then offset == end
    else
      && offsets[0] == offset && EntrySize(vec, offset).Ok? && offset + EntrySize(vec, offset).value <= end
      && if IsWide(vec, offset)
         then |offsets| > 1 && offsets[1] == 0 && LaidOut(vec, offsets[2..], offset + EntrySize(vec, offset).value, end)
         else LaidOut(vec, offsets[1..], offset + EntrySize(vec, offset).value, end)
  }

  /** The slots lie one behind the other, and are as many as announced or one more. */
  lemma {:induction false} WalkLaysOut(vec: seq<Byte>, offset: nat, i: nat, count: nat)
    requires Walk(vec, offset, i, count).Ok? && i <= count + 1
    ensures var (offsets, end) := Walk(vec, offset, i, count).value;
            && LaidOut(vec, offsets, offset, end) && offset <= end
            && (|offsets| == count - i || |offsets| == count - i + 1)
    decreases count - i
  {
    hide EntrySize;
    if i < count {
      var size := EntrySize(vec, offset).value;
      if IsWide(vec, offset) {
        WalkLaysOut(vec, offset + size, i + 2, count);
        var rest := Walk(vec, offset + size, i + 2, count).value.0;
        assert ([offset, 0] + rest)[2..] == rest;
      } else {
        WalkLaysOut(vec, offset + size, i + 1, count);
        var rest := Walk(vec, offset + size, i + 1, count).value.0;
        assert ([offset] + rest)[1..] == rest;
      }
    }
  }

  /** There is one slot too many exactly when the last index holds a wide entry. */
  lemma {:induction false} ExtraSlotExactly(vec: seq<Byte>, offset: nat, i: nat, count: nat)
    requires Walk(vec, offset, i, count).Ok? && i < count
    ensures var offsets := Walk(vec, offset, i, count).value.0;
            && (|offsets| == count - i || |offsets| == count - i + 1)
            && (|offsets| == count - i + 1 ==> offsets[count - i] == 0)
            && (offset > 0 ==> (|offsets| == count - i + 1 <==> offsets[count - 1 - i] != 0 && IsWide(vec, offsets[count - 1 - i])))
    decreases count - i
  {
    hide EntrySize, IsWide;
    var size := EntrySize(vec, offset).value;
    var n := if IsWide(vec, offset) then 2 else 1;
    if i + n < count { ExtraSlotExactly(vec, offset + size, i + n, count); }
  }

  /** Entries lie one behind the other, so they are disjoint and inside the pool. */
  lemma {:induction false} EntriesAreApart(vec: seq<Byte>, offsets: seq<nat>, offset: nat, end: nat, j: nat)
    requires LaidOut(vec, offsets, offset, end) && j < |offsets| && offset > 0 && offsets[j] != 0
    ensures offset <= offsets[j] <= offset + 65538 * j
    ensures EntrySize(vec, offsets[j]).Ok? && offsets[j] + EntrySize(vec, offsets[j]).value <= end
    ensures forall k | j < k < |offsets| && offsets[k] != 0 :: offsets[j] + EntrySize(vec, offsets[j]).value <= offsets[k]
    decreases |offsets|
  {
    var size := EntrySize(vec, offset).value;
    var n := if IsWide(vec, offset) then 2 else 1;
    var rest := offsets[n..];
    if j == 0 {
      forall k | 0 < k < |offsets| && offsets[k] != 0 ensures offset + size <= offsets[k] {
        assert rest[k - n] == offsets[k];
        EntriesAreApart(vec, rest, offset + size, end, k - n);
      }
    } else {
      assert rest[j - n] == offsets[j];
      EntriesAreApart(vec, rest, offset + size, end, j - n);
      forall k | j < k < |offsets| && offsets[k] != 0
        ensures offsets[j] + EntrySize(vec, offsets[j]).value <= offsets[k]
      {
        assert rest[k - n] == offsets[k];
      }
    }
  }

  lemma {:induction false} OffsetsBounded(vec: seq<Byte>, offset: nat, i: nat, count: nat)
    requires Walk(vec, offset, i, count).Ok? && 1 <= i && offset <= 10 + 65538 * (i - 1) && count <= 65535
    ensures forall k | 0 <= k < |Walk(vec, offset, i, count).value.0| :: Walk(vec, offset, i, count).value.0[k] < UNSIGNED_LIMIT
    decreases count - i
  {
    if i < count {
      var size := EntrySize(vec, offset).value;
      OffsetsBounded(vec, offset + size, if IsWide(vec, offset) then i + 2 else i + 1, count);
    }
  }

  /**
    On any accepted buffer: the pool lies between the header and the indexes,
    its entries are disjoint, and every stored offset fits 32 bits.
   */
  lemma {:induction false} AcceptedPool(vec: seq<Byte>, j: nat, k: nat)
    requires Parsed(vec).Ok?
    ensures var f := Parsed(vec).value;
            && |f.offsets| < UNSIGNED_LIMIT
            && (j < |f.offsets| && f.offsets[j] != 0 ==>
                  && 10 <= f.offsets[j] < UNSIGNED_LIMIT && EntrySize(vec, f.offsets[j]).Ok?
                  && f.offsets[j] + EntrySize(vec, f.offsets[j]).value + 8 <= |vec|
                  && (j < k < |f.offsets| && f.offsets[k] != 0 ==>
                        f.offsets[j] + EntrySize(vec, f.offsets[j]).value <= f.offsets[k]))
  {
    var count := Extract16(vec, 8).value;
    var (offsets, end) := Walk(vec, 10, 1, count).value;
    WalkLaysOut(vec, 10, 1, count);
    OffsetsBounded(vec, 10, 1, count);
    assert Parsed(vec).value.offsets == offsets && end + 8 <= |vec|;
    if j < |offsets| && offsets[j] != 0 { EntriesAreApart(vec, offsets, 10, end, j); }
  }

  /** A class file that announces one slot and gets two. */
  const WIDE_LAST: seq<Byte> :=
    [0xCA, 0xFE, 0xBA, 0xBE, 0, 0, 0, 52, 0, 2, CONSTANT_Long, 0, 0, 0, 0, 0, 0, 0, 0, 0, 0, 0, 0, 0, 0, 0, 0]

  lemma {:induction false} WideLastIsAccepted()
    ensures Extract16(WIDE_LAST, 8) == Some(2) && Parsed(WIDE_LAST).Ok? && Parsed(WIDE_LAST).value.offsets == [10, 0]
  {
    assert EntrySize(WIDE_LAST, 10) == Ok(9) && IsWide(WIDE_LAST, 10);
    assert Walk(WIDE_LAST, 19, 3, 2) == Ok(([], 19));
    var none: seq<nat> := [];
    assert [10, 0] + none == [10, 0];
    assert Walk(WIDE_LAST, 10, 1, 2) == Ok(([10, 0], 19));
    assert Indexes(WIDE_LAST, 27, 0) == Some([]);
  }

  // ---- the constructor ---------------------------------------------------------------

  /** One round of the walk, behind what has been collected. */
  lemma {:induction false} WalkRound(vec: seq<Byte>, offset: nat, i: nat, count: nat, offsets: seq<nat>)
    requires i < count
    ensures var size := EntrySize(vec, offset);
            var wide := IsWide(vec, offset);
            Collected(offsets, Walk(vec, offset, i, count)) ==
              if size.Err? then Err(size.error)
              else Collected(if wide then offsets + [offset] + [0] else offsets + [offset],
                             Walk(vec, offset + size.value, if wide then i + 2 else i + 1, count))
  {
    hide EntrySize, IsWide;
    var size := EntrySize(vec, offset);
    if size.Ok? {
      var next := Walk(vec, offset + size.value, if IsWide(vec, offset) then i + 2 else i + 1, count);
      if next.Ok? {
        assert offsets + ([offset, 0] + next.value.0) == (offsets + [offset] + [0]) + next.value.0;
        assert offsets + ([offset] + next.value.0) == (offsets + [offset]) + next.value.0;
      }
    }
  }

  ghost function Collected(offsets: seq<nat>, rest: Result<(seq<nat>, nat), Error>): Result<(seq<nat>, nat), Error> {
    if rest.Err? then rest else Ok((offsets + rest.value.0, rest.value.1))
  }

  lemma {:induction false} CollectedAtEnds(rest: Result<(seq<nat>, nat), Error>, offsets: seq<nat>, end: nat)
    ensures Collected([], rest) == rest && Collected(offsets, Ok(([], end))) == Ok((offsets, end))
  {
    if rest.Ok? { assert [] + rest.value.0 == rest.value.0; }
    assert offsets + [] == offsets;
  }

  method WalkPool(vec: seq<Byte>, count: nat) returns (offsets: seq<nat>, end: nat, error: Option<Error>)
    requires count <= 65535
    ensures Walk(vec, 10, 1, count) == if error.Some? then Err(error.value) else Ok((offsets, end))
  {
    hide EntrySize, IsWide, Collected;
    offsets := [];
    var offset, i := 10, 1;
    ghost var whole := Walk(vec, 10, 1, count);
    CollectedAtEnds(whole, [], 0);
    while i < count
      invariant 1 <= i && 10 <= offset <= 10 + 65538 * (i - 1)
      invariant whole == Collected(offsets, Walk(vec, offset, i, count))
    {
      WalkRound(vec, offset, i, count, offsets);
      var size := EntrySize(vec, offset);
      assert offset % UNSIGNED_LIMIT == offset;
      offsets := offsets + [offset % UNSIGNED_LIMIT];
      if size.Err? { return [], 0, Some(size.error); }
      if IsWide(vec, offset) {
        offsets := offsets + [0];
        i := i + 1;
      }
      offset := offset + size.value;
      i := i + 1;
    }
    CollectedAtEnds(whole, offsets, offset);
    return offsets, offset, None;
  }

  method Parse(vec: seq<Byte>) returns (r: Result<ClassFile, Error>)
    ensures r == Parsed(vec)
  {
    var magic := Extract32(vec, 0);
    if magic.None? { return Err(OutOfRange); }
    if magic.value != MAGIC { return Err(BadMagic); }
    var minor := Extract16(vec, 4);
    if minor.None? { return Err(OutOfRange); }
    var major := Extract16(vec, 6);
    if major.None? { return Err(OutOfRange); }
    var count := Extract16(vec, 8);
    if count.None? { return Err(OutOfRange); }
    if count.value < 2 { return Err(EmptyPool); }
    var offsets, offset, error := WalkPool(vec, count.value);
    if error.Some? { return Err(error.value); }
    var accessFlags := Extract16(vec, offset);
    if accessFlags.None? { return Err(OutOfRange); }
    var thisClass := Extract16(vec, offset + 2);
    if thisClass.None? { return Err(OutOfRange); }
    var superClass := Extract16(vec, offset + 4);
    if superClass.None? { return Err(OutOfRange); }
    var n := Extract16(vec, offset + 6);
    if n.None? { return Err(OutOfRange); }
    var interfaces := ReadIndexes(vec, offset + 8, n.value);
    if interfaces.None? { return Err(OutOfRange); }
    return Ok(ClassFile(vec, minor.value, major.value, offsets, accessFlags.value, thisClass.value, superClass.value, interfaces.value));
  }

  ghost function Gathered(result: seq<nat>, rest: Option<seq<nat>>): Option<seq<nat>> {
    if rest.None? then None else Some(result + rest.value)
  }

  lemma {:induction false} IndexesRound(vec: seq<Byte>, offset: nat, n: nat, result: seq<nat>)
    requires n > 0
    ensures Gathered(result, Indexes(vec, offset, n)) ==
              if Extract16(vec, offset).None? then None
              else Gathered(result + [Extract16(vec, offset).value], Indexes(vec, offset + 2, n - 1))
  {
    hide Extract16;
    var first, rest := Extract16(vec, offset), Indexes(vec, offset + 2, n - 1);
    if first.Some? && rest.Some? { assert result + ([first.value] + rest.value) == (result + [first.value]) + rest.value; }
  }

  lemma {:induction false} GatheredAtEnds(rest: Option<seq<nat>>, result: seq<nat>)
    ensures Gathered([], rest) == rest && Gathered(result, Some([])) == Some(result)
  {
    if rest.Some? { assert [] + rest.value == rest.value; }
    assert result + [] == result;
  }

  method ReadIndexes(vec: seq<Byte>, offset: nat, n: nat) returns (r: Option<seq<nat>>)
    ensures r == Indexes(vec, offset, n)
  {
    hide Extract16, Gathered;
    var result: seq<nat> := [];
    GatheredAtEnds(Indexes(vec, offset, n), []);
    for i := 0 to n
      invariant |result| == i
      invariant Indexes(vec, offset, n) == Gathered(result, Indexes(vec, offset + 2 * i, n - i))
    {
      IndexesRound(vec, offset + 2 * i, n - i, result);
      var idx := Extract16(vec, offset + 2 * i);
      if idx.None? { return None; }
      result := result + [idx.value];
    }
    GatheredAtEnds(None, result);
    return Some(result);
  }

  // ---- lookups -------------------------------------------------------------------------

  function SlotOffset(f: ClassFile, idx: nat): Result<nat, Error> {
    if idx == 0 then Err(ZeroIndex)
    else if idx - 1 >= |f.offsets| then Err(OutOfRange)
    else Ok(f.offsets[idx - 1])
  }

  function Utf8String(f: ClassFile, idx: nat): Result<seq<Byte>, Error> {
    var slot := SlotOffset(f, idx);
    if slot.Err? then Err(slot.error)
    else
      var offset := slot.value;
      var tag := Extract8(f.buffer, offset);
      if tag.None? then Err(OutOfRange)
      else if tag.value != CONSTANT_Utf8 then Err(WrongTag)
      else
        var len := Extract16(f.buffer, offset + 1);
        if len.None? || offset + 3 + len.value > |f.buffer| then Err(OutOfRange)
        else Ok(f.buffer[offset + 3..offset + 3 + len.value])
  }

  function ClassName(f: ClassFile, idx: nat): Result<seq<Byte>, Error> {
    var slot := SlotOffset(f, idx);
    if slot.Err? then Err(slot.error)
    else
      var tag := Extract8(f.buffer, slot.value);
      if tag.None? then Err(OutOfRange)
      else if tag.value != CONSTANT_Class then Err(WrongTag)
      else
        var nameIdx := Extract16(f.buffer, slot.value + 1);
        if nameIdx.None? then Err(OutOfRange) else Utf8String(f, nameIdx.value)
  }

  function SuperClass(f: ClassFile): Result<seq<Byte>, Error> {
    if f.superClass == 0 then Ok([]) else ClassName(f, f.superClass)
  }

  /** The slot holds an entry with that tag. */
  predicate HasTag(f: ClassFile, idx: nat, tag: Byte) {
    && 1 <= idx <= |f.offsets| && f.offsets[idx - 1] != 0
    && f.offsets[idx - 1] < |f.buffer| && f.buffer[f.offsets[idx - 1]] == tag
  }

  lemma {:induction false} AcceptedMagic(vec: seq<Byte>)
    requires Parsed(vec).Ok?
    ensures |vec| > 0 && vec[0] == 0xCA && Parsed(vec).value.buffer == vec
  {
    hide Walk, Indexes;
  }

  /** On any accepted buffer, a lookup yields the exact text of the slot, or the exception its index or kind calls for. */
  lemma {:induction false} AcceptedUtf8(vec: seq<Byte>, idx: nat)
    requires Parsed(vec).Ok?
    ensures var f := Parsed(vec).value;
            match Utf8String(f, idx)
            case Err(e) => !HasTag(f, idx, 1)
                           && e == if idx == 0 then ZeroIndex else if idx > |f.offsets| then OutOfRange else WrongTag
            case Ok(text) =>
              && HasTag(f, idx, 1)
              && var at := f.offsets[idx - 1];
                 Extract16(vec, at + 1) == Some(|text|) && at + 3 + |text| <= |vec| && text == vec[at + 3..at + 3 + |text|]
  {
    AcceptedMagic(vec);
    var f := Parsed(vec).value;
    if 1 <= idx <= |f.offsets| { AcceptedEntry(vec, idx - 1); }
    hide Parsed;
  }

  /** The entry of a slot is inside the buffer. */
  lemma {:induction false} AcceptedEntry(vec: seq<Byte>, j: nat)
    requires Parsed(vec).Ok? && j < |Parsed(vec).value.offsets|
    ensures var at := Parsed(vec).value.offsets[j];
            && at < |vec|
            && (at != 0 ==> EntrySize(vec, at).Ok? && at + EntrySize(vec, at).value + 8 <= |vec|)
  {
    AcceptedMagic(vec);
    AcceptedPool(vec, j, j);
    hide Parsed, EntrySize;
  }

  /** A lookup of a class goes on to the name its entry refers to, or ends with the exception its index or kind calls for. */
  lemma {:induction false} AcceptedClass(vec: seq<Byte>, idx: nat)
    requires Parsed(vec).Ok?
    ensures var f := Parsed(vec).value;
            if HasTag(f, idx, 7) then
              var name := Extract16(vec, f.offsets[idx - 1] + 1);
              name.Some? && ClassName(f, idx) == Utf8String(f, name.value)
            else
              ClassName(f, idx) == Err(if idx == 0 then ZeroIndex else if idx > |f.offsets| then OutOfRange else WrongTag)
  {
    AcceptedMagic(vec);
    var f := Parsed(vec).value;
    if 1 <= idx <= |f.offsets| { AcceptedEntry(vec, idx - 1); }
    hide Parsed, Utf8String;
  }

  /** The names behind the class entries among the first `n` slots. */
  function References(f: ClassFile, n: nat): Result<seq<seq<Byte>>, Error>
    requires n <= |f.offsets|
  {
    if n == 0 then Ok([])
    else
      var before := References(f, n - 1);
      var offset := f.offsets[n - 1];
      if before.Err? || offset == 0 then before
      else if offset >= |f.buffer| then Err(OutOfRange)
      else if f.buffer[offset] != CONSTANT_Class then before
      else
        var nameIdx := Extract16(f.buffer, offset + 1);
        if nameIdx.None? then Err(OutOfRange)
        else
          var name := Utf8String(f, nameIdx.value);
          if name.Err? then Err(name.error) else Ok(before.value + [name.value])
  }

  /** The names come in the order of the slots. */
  lemma {:induction false} ReferencesInOrder(f: ClassFile, m: nat, n: nat)
    requires m <= n <= |f.offsets| && References(f, n).Ok?
    ensures References(f, m).Ok? && References(f, m).value <= References(f, n).value
  {
    hide Utf8String;
    if m < n { ReferencesInOrder(f, m, n - 1); }
  }

  method ClassReferences(f: ClassFile) returns (r: Result<seq<seq<Byte>>, Error>)
    ensures r == References(f, |f.offsets|)
  {
    hide Utf8String;
    var result := [];
    for p := 0 to |f.offsets|
      invariant References(f, p) == Ok(result)
    {
      var offset := f.offsets[p];
      if offset != 0 {
        var name := Err(OutOfRange);
        if offset < |f.buffer| {
          if f.buffer[offset] == CONSTANT_Class {
            var nameIdx := Extract16(f.buffer, offset + 1);
            if nameIdx.Some? { name := Utf8String(f, nameIdx.value); }
          } else {
            continue;
          }
        }
        if name.Err? {
          ErrorsStay(f, p + 1, |f.offsets|);
          return Err(name.error);
        }
        result := result + [name.value];
      }
    }
    return Ok(result);
  }

  lemma {:induction false} ErrorsStay(f: ClassFile, m: nat, n: nat)
    requires m <= n <= |f.offsets| && References(f, m).Err?
    ensures References(f, n) == References(f, m)
  {
    if m < n { ErrorsStay(f, m, n - 1); }
  }

  // ---- well-formed class files -----------------------------------------------------------

  /** Section 4.4: the tags are those of table 4.4-A. */
  datatype Constant =
    | Class(name: nat)
    | StringConstant(utf8: nat)
    | Four(tag: Byte, data: seq<Byte>)
    | Wide(tag: Byte, data: seq<Byte>)
    | Utf8(text: seq<Byte>)

  predicate WellFormed(c: Constant) {
    match c
    case Class(name) => name < 0x1_0000
    case StringConstant(utf8) => utf8 < 0x1_0000
    case Four(tag, data) => (tag == 3 || tag == 4 || 9 <= tag <= 12) && |data| == 4
    case Wide(tag, data) => (tag == 5 || tag == 6) && |data| == 8
    case Utf8(text) => |text| < 0x1_0000
  }

  function EncodeConstant(c: Constant): (s: seq<Byte>)
    requires WellFormed(c)
    ensures s != []
  {
    match c
    case Class(name) => [7] + Bytes2(name)
    case StringConstant(utf8) => [8] + Bytes2(utf8)
    case Four(tag, data) => [tag] + data
    case Wide(tag, data) => [tag] + data
    case Utf8(text) => [1] + Bytes2(|text|) + text
  }

  predicate WellFormedPool(cs: seq<Constant>) { forall i | 0 <= i < |cs| :: WellFormed(cs[i]) }

  function EncodePool(cs: seq<Constant>): seq<Byte>
    requires WellFormedPool(cs)
  {
    if cs == [] then [] else EncodeConstant(cs[0]) + EncodePool(cs[1..])
  }

  /** Section 4.4.5: a long or double takes two slots, of which the second is unusable. */
  function Slots(cs: seq<Constant>): seq<Option<Constant>> {
    if cs == [] then []
    else (if cs[0].Wide? then [Some(cs[0]), None] else [Some(cs[0])]) + Slots(cs[1..])
  }

  /** The offset of each slot when the pool starts at `offset`. */
  function SlotOffsets(cs: seq<Constant>, offset: nat): (r: seq<nat>)
    requires WellFormedPool(cs)
    ensures |r| == |Slots(cs)|
  {
    if cs == [] then []
    else (if cs[0].Wide? then [offset, 0] else [offset]) + SlotOffsets(cs[1..], offset + |EncodeConstant(cs[0])|)
  }

  lemma {:induction false} EntryAt(vec: seq<Byte>, offset: nat, c: Constant)
    requires WellFormed(c) && Holds(vec, offset, EncodeConstant(c))
    ensures EntrySize(vec, offset) == Ok(|EncodeConstant(c)|)
    ensures vec[offset] == EncodeConstant(c)[0] && (IsWide(vec, offset) <==> c.Wide?)
  {
    assert vec[offset] == vec[offset..offset + |EncodeConstant(c)|][0];
    if c.Utf8? {
      HoldsParts(vec, offset, [1] + Bytes2(|c.text|), c.text);
      HoldsParts(vec, offset, [1], Bytes2(|c.text|));
      Extract16Inverse(vec, offset + 1, |c.text|);
    }
  }

  /** The slots are as many as announced, or one more where the last of them belongs to a wide entry. */
  predicate Announces(n: int, cs: seq<Constant>) {
    n == |Slots(cs)| || (cs != [] && cs[|cs| - 1].Wide? && n == |Slots(cs)| - 1)
  }

  /** The walk over an encoded pool finds every entry. */
  lemma {:induction false} WalkEncoded(vec: seq<Byte>, offset: nat, cs: seq<Constant>, i: nat, count: nat)
    requires WellFormedPool(cs) && Holds(vec, offset, EncodePool(cs)) && Announces(count - i, cs)
    ensures Walk(vec, offset, i, count) == Ok((SlotOffsets(cs, offset), offset + |EncodePool(cs)|))
    decreases |cs|
  {
    hide EntrySize, IsWide, EncodeConstant, Holds, WellFormed, Announces, Slots;
    if cs != [] {
      HoldsParts(vec, offset, EncodeConstant(cs[0]), EncodePool(cs[1..]));
      EntryAt(vec, offset, cs[0]);
      AnnouncesRest(cs, count - i);
      if |cs| > 1 {
        WalkEncoded(vec, offset + |EncodeConstant(cs[0])|, cs[1..], if cs[0].Wide? then i + 2 else i + 1, count);
      } else {
        assert cs[1..] == [];
      }
    } else {
      NothingAnnounced(count - i);
    }
  }

  lemma {:induction false} NothingAnnounced(n: int)
    requires Announces(n, [])
    ensures n == 0
  {
  }

  lemma {:induction false} AnnouncesRest(cs: seq<Constant>, n: int)
    requires cs != [] && Announces(n, cs)
    ensures n > 0
    ensures if |cs| > 1 then Announces(n - if cs[0].Wide? then 2 else 1, cs[1..]) else n <= if cs[0].Wide? then 2 else 1
  {
    var rest := cs[1..];
    if |cs| > 1 {
      assert rest[|rest| - 1] == cs[|cs| - 1];
      SlotsPositive(rest);
    }
  }

  lemma {:induction false} SlotsPositive(cs: seq<Constant>)
    requires cs != []
    ensures |Slots(cs)| > (if cs[|cs| - 1].Wide? then 1 else 0)
  {
    if |cs| > 1 {
      SlotsPositive(cs[1..]);
    }
  }

  /** Each slot's offset leads to its entry; the second slot of a wide entry leads nowhere. */
  lemma {:induction false} SlotHolds(vec: seq<Byte>, offset: nat, cs: seq<Constant>, j: nat)
    requires WellFormedPool(cs) && Holds(vec, offset, EncodePool(cs)) && j < |Slots(cs)| && offset > 0
    ensures var at := SlotOffsets(cs, offset)[j];
            match Slots(cs)[j]
            case Some(c) => WellFormed(c) && at > 0 && Holds(vec, at, EncodeConstant(c))
            case None => at == 0
    decreases |cs|
  {
    hide EncodeConstant, Holds, WellFormed;
    HoldsParts(vec, offset, EncodeConstant(cs[0]), EncodePool(cs[1..]));
    var n := if cs[0].Wide? then 2 else 1;
    if j >= n { SlotHolds(vec, offset + |EncodeConstant(cs[0])|, cs[1..], j - n); }
  }

  /** `count` is the announced number of slots, plus one. */
  datatype Source = Source(
    minor: nat, major: nat, count: nat, pool: seq<Constant>,
    accessFlags: nat, thisClass: nat, superClass: nat, interfaces: seq<nat>)

  predicate WellFormedSource(c: Source) {
    && c.minor < 0x1_0000 && c.major < 0x1_0000 && c.accessFlags < 0x1_0000 && c.thisClass < 0x1_0000 && c.superClass < 0x1_0000
    && WellFormedPool(c.pool) && 2 <= c.count < 0x1_0000 && Announces(c.count - 1, c.pool)
    && |c.interfaces| < 0x1_0000 && forall i | 0 <= i < |c.interfaces| :: c.interfaces[i] < 0x1_0000
  }

  function EncodeIndexes(ns: seq<nat>): seq<Byte>
    requires forall i | 0 <= i < |ns| :: ns[i] < 0x1_0000
  {
    if ns == [] then [] else Bytes2(ns[0]) + EncodeIndexes(ns[1..])
  }

  function EncodeHeader(c: Source): (s: seq<Byte>)
    requires WellFormedSource(c)
    ensures |s| == 10
  {
    [0xCA, 0xFE, 0xBA, 0xBE] + (Bytes2(c.minor) + (Bytes2(c.major) + Bytes2(c.count)))
  }

  function EncodeTail(c: Source): seq<Byte>
    requires WellFormedSource(c)
  {
    Bytes2(c.accessFlags) + (Bytes2(c.thisClass) + (Bytes2(c.superClass) + (Bytes2(|c.interfaces|) + EncodeIndexes(c.interfaces))))
  }

  function EncodeSource(c: Source): seq<Byte>
    requires WellFormedSource(c)
  {
    EncodeHeader(c) + (EncodePool(c.pool) + EncodeTail(c))
  }

  lemma {:induction false} IndexesEncoded(vec: seq<Byte>, offset: nat, ns: seq<nat>)
    requires forall i | 0 <= i < |ns| :: ns[i] < 0x1_0000
    requires Holds(vec, offset, EncodeIndexes(ns))
    ensures Indexes(vec, offset, |ns|) == Some(ns)
    decreases |ns|
  {
    hide Holds;
    if ns != [] {
      HoldsParts(vec, offset, Bytes2(ns[0]), EncodeIndexes(ns[1..]));
      Extract16Inverse(vec, offset, ns[0]);
      IndexesEncoded(vec, offset + 2, ns[1..]);
      assert ns == [ns[0]] + ns[1..];
    }
  }

  lemma {:induction false} HeaderEncoded(vec: seq<Byte>, c: Source)
    requires WellFormedSource(c) && Holds(vec, 0, EncodeHeader(c))
    ensures |vec| >= 10 && vec[0] == 0xCA && Extract32(vec, 0) == Some(MAGIC)
    ensures Extract16(vec, 4) == Some(c.minor) && Extract16(vec, 6) == Some(c.major)
    ensures Extract16(vec, 8) == Some(c.count)
  {
    var magic: seq<Byte> := [0xCA, 0xFE, 0xBA, 0xBE];
    HoldsParts(vec, 0, magic, Bytes2(c.minor) + (Bytes2(c.major) + Bytes2(c.count)));
    HoldsParts(vec, 4, Bytes2(c.minor), Bytes2(c.major) + Bytes2(c.count));
    HoldsParts(vec, 6, Bytes2(c.major), Bytes2(c.count));
    Extract16Inverse(vec, 4, c.minor);
    Extract16Inverse(vec, 6, c.major);
    Extract16Inverse(vec, 8, c.count);
    assert vec[0..4][0] == 0xCA && vec[0..4][1] == 0xFE && vec[0..4][2] == 0xBA && vec[0..4][3] == 0xBE;
  }

  lemma {:induction false} TailEncoded(vec: seq<Byte>, offset: nat, c: Source, offsets: seq<nat>)
    requires WellFormedSource(c) && Holds(vec, offset, EncodeTail(c))
    ensures Tail(vec, c.minor, c.major, offsets, offset)
         == Ok(ClassFile(vec, c.minor, c.major, offsets, c.accessFlags, c.thisClass, c.superClass, c.interfaces))
  {
    hide Holds, WellFormedPool;
    var d := Bytes2(|c.interfaces|) + EncodeIndexes(c.interfaces);
    HoldsParts(vec, offset, Bytes2(c.accessFlags), Bytes2(c.thisClass) + (Bytes2(c.superClass) + d));
    HoldsParts(vec, offset + 2, Bytes2(c.thisClass), Bytes2(c.superClass) + d);
    HoldsParts(vec, offset + 4, Bytes2(c.superClass), d);
    HoldsParts(vec, offset + 6, Bytes2(|c.interfaces|), EncodeIndexes(c.interfaces));
    Extract16Inverse(vec, offset, c.accessFlags);
    Extract16Inverse(vec, offset + 2, c.thisClass);
    Extract16Inverse(vec, offset + 4, c.superClass);
    Extract16Inverse(vec, offset + 6, |c.interfaces|);
    IndexesEncoded(vec, offset + 8, c.interfaces);
  }

  lemma {:induction false} SourceParts(c: Source, rest: seq<Byte>)
    requires WellFormedSource(c)
    ensures var vec := EncodeSource(c) + rest;
            && Holds(vec, 0, EncodeHeader(c)) && Holds(vec, 10, EncodePool(c.pool))
            && Holds(vec, 10 + |EncodePool(c.pool)|, EncodeTail(c))
  {
    var vec := EncodeSource(c) + rest;
    assert vec[0..|EncodeSource(c)|] == EncodeSource(c);
    hide EncodeHeader, EncodePool, EncodeTail, WellFormedSource;
    HoldsParts(vec, 0, EncodeHeader(c), EncodePool(c.pool) + EncodeTail(c));
    HoldsParts(vec, 10, EncodePool(c.pool), EncodeTail(c));
  }

  /** Parsing the bytes of a well-formed class file, whatever follows, recovers it. */
  lemma {:induction false} ParseRoundTrip(c: Source, rest: seq<Byte>)
    requires WellFormedSource(c)
    ensures Parsed(EncodeSource(c) + rest)
         == Ok(ClassFile(EncodeSource(c) + rest, c.minor, c.major, SlotOffsets(c.pool, 10),
                         c.accessFlags, c.thisClass, c.superClass, c.interfaces))
  {
    hide EncodeSource, EncodeHeader, EncodePool, EncodeTail, Holds, Walk, Tail, Extract16, Extract32, Slots, SlotOffsets, WellFormedPool;
    var vec := EncodeSource(c) + rest;
    SourceParts(c, rest);
    HeaderEncoded(vec, c);
    WalkEncoded(vec, 10, c.pool, 1, c.count);
    TailEncoded(vec, 10 + |EncodePool(c.pool)|, c, SlotOffsets(c.pool, 10));
  }

  // ---- nothing else is accepted ------------------------------------------------------------

  lemma {:induction false} IndexDecoded(vec: seq<Byte>, offset: nat)
    requires Extract16(vec, offset).Some?
    ensures Holds(vec, offset, Bytes2(Extract16(vec, offset).value))
  {
  }

  lemma {:induction false} TextDecoded(vec: seq<Byte>, offset: nat) returns (c: Constant)
    requires Extract16(vec, offset + 1).Some? && offset + 3 + Extract16(vec, offset + 1).value <= |vec| && vec[offset] == 1
    ensures WellFormed(c) && c.Utf8? && |EncodeConstant(c)| == 3 + Extract16(vec, offset + 1).value
    ensures Holds(vec, offset, EncodeConstant(c))
  {
    var n := Extract16(vec, offset + 1).value;
    var text := vec[offset + 3..offset + 3 + n];
    IndexDecoded(vec, offset + 1);
    hide Extract16;
    c := Utf8(text);
    HoldsBoth(vec, offset, [1], Bytes2(n));
    HoldsBoth(vec, offset, [1] + Bytes2(n), text);
  }

  /** The constant that an entry is the encoding of. */
  lemma {:induction false} EntryDecoded(vec: seq<Byte>, offset: nat) returns (c: Constant)
    requires EntrySize(vec, offset).Ok? && offset + EntrySize(vec, offset).value <= |vec|
    ensures WellFormed(c) && (c.Wide? <==> IsWide(vec, offset))
    ensures |EncodeConstant(c)| == EntrySize(vec, offset).value && Holds(vec, offset, EncodeConstant(c))
  {
    var tag, size := vec[offset], EntrySize(vec, offset).value;
    assert Holds(vec, offset, [tag]);
    if TwoByteTag(tag) {
      var n := Extract16(vec, offset + 1).value;
      IndexDecoded(vec, offset + 1);
      HoldsBoth(vec, offset, [tag], Bytes2(n));
      c := if tag == 7 then Class(n) else StringConstant(n);
    } else if FourByteTag(tag) || WideTag(tag) {
      var body := vec[offset + 1..offset + size];
      HoldsBoth(vec, offset, [tag], body);
      c := if WideTag(tag) then Wide(tag, body) else Four(tag, body);
    } else {
      c := TextDecoded(vec, offset);
    }
    hide Holds, Extract16;
  }

  lemma {:induction false} HoldsBoth(vec: seq<Byte>, offset: nat, a: seq<Byte>, b: seq<Byte>)
    requires Holds(vec, offset, a) && Holds(vec, offset + |a|, b)
    ensures Holds(vec, offset, a + b)
  {
  }

  lemma {:induction false} AnnouncesMore(c: Constant, rest: seq<Constant>, n: int)
    requires var width := if c.Wide? then 2 else 1;
             if n >= width then Announces(n - width, rest) else n == 1 && c.Wide? && rest == []
    ensures Announces(n, [c] + rest)
  {
    var cs := [c] + rest;
    assert cs[1..] == rest && |Slots(cs)| == |Slots(rest)| + (if c.Wide? then 2 else 1);
    if rest != [] { assert cs[|cs| - 1] == rest[|rest| - 1]; }
  }

  lemma {:induction false} WalkFirst(vec: seq<Byte>, offset: nat, i: nat, count: nat)
    requires i < count && Walk(vec, offset, i, count).Ok? && Walk(vec, offset, i, count).value.1 <= |vec|
    ensures EntrySize(vec, offset).Ok? && offset + EntrySize(vec, offset).value <= |vec|
    ensures var rest := Walk(vec, offset + EntrySize(vec, offset).value, if IsWide(vec, offset) then i + 2 else i + 1, count);
            rest.Ok? && rest.value.1 == Walk(vec, offset, i, count).value.1
  {
    hide EntrySize, IsWide;
    WalkLaysOut(vec, offset + EntrySize(vec, offset).value, if IsWide(vec, offset) then i + 2 else i + 1, count);
  }

  lemma {:induction false} WalkedOver(vec: seq<Byte>, offset: nat, i: nat, count: nat)
    requires i >= count
    ensures Walk(vec, offset, i, count) == Ok(([], offset)) && EncodePool([]) == []
    ensures count == i ==> Announces(count - i, [])
  {
  }

  /** A pool that is walked to its end inside the buffer is the encoding of some constants. */
  lemma {:induction false} PoolDecoded(vec: seq<Byte>, offset: nat, i: nat, count: nat) returns (cs: seq<Constant>)
    requires i <= count && Walk(vec, offset, i, count).Ok? && Walk(vec, offset, i, count).value.1 <= |vec|
    ensures WellFormedPool(cs) && Holds(vec, offset, EncodePool(cs)) && Announces(count - i, cs)
    ensures Walk(vec, offset, i, count).value.1 == offset + |EncodePool(cs)|
    decreases count - i
  {
    hide Walk, Holds, EntrySize, IsWide, EncodeConstant, WellFormed, Announces, EncodePool;
    if i == count {
      cs := [];
      WalkedOver(vec, offset, i, count);
      NothingHeld(vec, offset);
    } else {
      WalkFirst(vec, offset, i, count);
      var size := EntrySize(vec, offset).value;
      var n := if IsWide(vec, offset) then i + 2 else i + 1;
      var c := EntryDecoded(vec, offset);
      var rest: seq<Constant> := [];
      if n <= count {
        rest := PoolDecoded(vec, offset + size, n, count);
      } else {
        WalkedOver(vec, offset + size, n, count);
        NothingHeld(vec, offset + size);
      }
      cs := [c] + rest;
      AnnouncesMore(c, rest, count - i);
      HoldsBoth(vec, offset, EncodeConstant(c), EncodePool(rest));
      FirstEncoded(c, rest);
    }
  }

  lemma {:induction false} FirstEncoded(c: Constant, rest: seq<Constant>)
    requires WellFormed(c) && WellFormedPool(rest)
    ensures WellFormedPool([c] + rest) && EncodePool([c] + rest) == EncodeConstant(c) + EncodePool(rest)
  {
    hide WellFormed, EncodeConstant;
    assert ([c] + rest)[1..] == rest;
  }

  lemma {:induction false} NothingHeld(vec: seq<Byte>, offset: nat)
    requires offset <= |vec|
    ensures Holds(vec, offset, EncodePool([]))
  {
  }

  lemma {:induction false} IndexesDecoded(vec: seq<Byte>, offset: nat, n: nat)
    requires Indexes(vec, offset, n).Some? && offset <= |vec|
    ensures var ns := Indexes(vec, offset, n).value;
            && (forall i | 0 <= i < |ns| :: ns[i] < 0x1_0000)
            && Holds(vec, offset, EncodeIndexes(ns))
    decreases n
  {
    if n > 0 {
      var ns := Indexes(vec, offset, n).value;
      IndexDecoded(vec, offset);
      IndexesDecoded(vec, offset + 2, n - 1);
      assert ns[1..] == Indexes(vec, offset + 2, n - 1).value;
      hide Indexes, Extract16, Holds;
      HoldsBoth(vec, offset, Bytes2(ns[0]), EncodeIndexes(ns[1..]));
    }
  }

  lemma {:induction false} WalkErrors(vec: seq<Byte>, offset: nat, i: nat, count: nat)
    requires Walk(vec, offset, i, count).Err?
    ensures var e := Walk(vec, offset, i, count).error;
            e == OutOfRange || (e == BadTag && exists at :: 0 <= at < |vec| && vec[at] !in [1, 3, 4, 5, 6, 7, 8, 9, 10, 11, 12])
    decreases count - i
  {
    var size := EntrySize(vec, offset);
    if size.Err? && size.error == BadTag {
      assert vec[offset] !in [1, 3, 4, 5, 6, 7, 8, 9, 10, 11, 12];
    }
    if size.Ok? { WalkErrors(vec, offset + size.value, if IsWide(vec, offset) then i + 2 else i + 1, count); }
  }

  lemma {:induction false} MagicIs(vec: seq<Byte>)
    requires |vec| >= 4
    ensures Extract32(vec, 0) == Some(MAGIC) <==> vec[..4] == [0xCA, 0xFE, 0xBA, 0xBE]
  {
    assert vec[..4] == [vec[0], vec[1], vec[2], vec[3]];
    assert 0xCAFE * 0x1_0000 + 0xBABE == MAGIC && 256 * 0xCA + 0xFE == 0xCAFE && 256 * 0xBA + 0xBE == 0xBABE;
  }

  /** Why a buffer is rejected: its magic number, an empty pool, an unknown tag, or its end. */
  lemma {:induction false} WhyRejected(vec: seq<Byte>)
    ensures Parsed(vec) == Err(BadMagic) <==> |vec| >= 4 && vec[..4] != [0xCA, 0xFE, 0xBA, 0xBE]
    ensures Parsed(vec) == Err(EmptyPool) <==> |vec| >= 10 && vec[..4] == [0xCA, 0xFE, 0xBA, 0xBE] && vec[8] == 0 && vec[9] < 2
    ensures Parsed(vec) == Err(BadTag) ==> exists at :: 0 <= at < |vec| && vec[at] !in [1, 3, 4, 5, 6, 7, 8, 9, 10, 11, 12]
    ensures Parsed(vec) != Err(ZeroIndex) && Parsed(vec) != Err(WrongTag)
  {
    if |vec| >= 4 { MagicIs(vec); }
    hide Extract32;
    if |vec| >= 10 && Extract16(vec, 8).value >= 2 && Walk(vec, 10, 1, Extract16(vec, 8).value).Err? {
      WalkErrors(vec, 10, 1, Extract16(vec, 8).value);
    }
    hide Walk, Indexes;
  }

  /** A buffer is accepted exactly if the encoding of a class file is in front of it. */
  lemma {:induction false} AcceptedExactly(vec: seq<Byte>)
    ensures Parsed(vec).Ok? <==> exists c :: WellFormedSource(c) && EncodeSource(c) <= vec
  {
    hide Parsed, EncodeSource, WellFormedSource, SlotOffsets;
    if Parsed(vec).Ok? {
      var c := SourceDecoded(vec);
      assert WellFormedSource(c) && EncodeSource(c) <= vec;
    }
    if c :| WellFormedSource(c) && EncodeSource(c) <= vec {
      ParseRoundTrip(c, vec[|EncodeSource(c)|..]);
      assert EncodeSource(c) + vec[|EncodeSource(c)|..] == vec;
    }
  }

  lemma {:induction false} SourceDecoded(vec: seq<Byte>) returns (c: Source)
    requires Parsed(vec).Ok?
    ensures WellFormedSource(c) && EncodeSource(c) <= vec
  {
    var f := Parsed(vec).value;
    var count := Extract16(vec, 8).value;
    var end := Walk(vec, 10, 1, count).value.1;
    var pool := PoolDecoded(vec, 10, 1, count);
    IndexesDecoded(vec, end + 8, Extract16(vec, end + 6).value);
    c := Source(f.minor, f.major, count, pool, f.accessFlags, f.thisClass, f.superClass, f.interfaces);
    HeaderDecoded(vec, c);
    TailDecoded(vec, end, c);
    hide EncodePool, EncodeHeader, EncodeTail, Parsed, Walk, Indexes, Extract16;
    HoldsBoth(vec, 10, EncodePool(pool), EncodeTail(c));
    HoldsBoth(vec, 0, EncodeHeader(c), EncodePool(pool) + EncodeTail(c));
  }

  lemma {:induction false} HeaderDecoded(vec: seq<Byte>, c: Source)
    requires WellFormedSource(c) && |vec| >= 10 && Extract32(vec, 0) == Some(MAGIC)
    requires Extract16(vec, 4) == Some(c.minor) && Extract16(vec, 6) == Some(c.major) && Extract16(vec, 8) == Some(c.count)
    ensures Holds(vec, 0, EncodeHeader(c))
  {
    IndexDecoded(vec, 4);
    IndexDecoded(vec, 6);
    IndexDecoded(vec, 8);
    MagicDecoded(vec);
    hide Extract16, WellFormedSource;
    HoldsBoth(vec, 6, Bytes2(c.major), Bytes2(c.count));
    HoldsBoth(vec, 4, Bytes2(c.minor), Bytes2(c.major) + Bytes2(c.count));
    HoldsBoth(vec, 0, [0xCA, 0xFE, 0xBA, 0xBE], Bytes2(c.minor) + (Bytes2(c.major) + Bytes2(c.count)));
  }

  lemma {:induction false} MagicDecoded(vec: seq<Byte>)
    requires Extract32(vec, 0) == Some(MAGIC)
    ensures Holds(vec, 0, [0xCA, 0xFE, 0xBA, 0xBE])
  {
    assert vec[0..4] == [vec[0], vec[1], vec[2], vec[3]];
    assert 0xCAFE * 0x1_0000 + 0xBABE == MAGIC && 256 * 0xCA + 0xFE == 0xCAFE && 256 * 0xBA + 0xBE == 0xBABE;
  }

  lemma {:induction false} TailDecoded(vec: seq<Byte>, end: nat, c: Source)
    requires WellFormedSource(c) && Extract16(vec, end) == Some(c.accessFlags) && Extract16(vec, end + 2) == Some(c.thisClass)
    requires Extract16(vec, end + 4) == Some(c.superClass) && Extract16(vec, end + 6) == Some(|c.interfaces|)
    requires Holds(vec, end + 8, EncodeIndexes(c.interfaces))
    ensures Holds(vec, end, EncodeTail(c))
  {
    IndexDecoded(vec, end);
    IndexDecoded(vec, end + 2);
    IndexDecoded(vec, end + 4);
    IndexDecoded(vec, end + 6);
    hide Extract16, Holds;
    var d := Bytes2(|c.interfaces|) + EncodeIndexes(c.interfaces);
    HoldsBoth(vec, end + 6, Bytes2(|c.interfaces|), EncodeIndexes(c.interfaces));
    HoldsBoth(vec, end + 4, Bytes2(c.superClass), d);
    HoldsBoth(vec, end + 2, Bytes2(c.thisClass), Bytes2(c.superClass) + d);
    HoldsBoth(vec, end, Bytes2(c.accessFlags), Bytes2(c.thisClass) + (Bytes2(c.superClass) + d));
  }

  // ---- what the lookups mean -----------------------------------------------------------

  function SlotUtf8(slots: seq<Option<Constant>>, idx: nat): Result<seq<Byte>, Error> {
    if idx == 0 then Err(ZeroIndex)
    else if idx > |slots| then Err(OutOfRange)
    else match slots[idx - 1]
      case Some(Utf8(text)) => Ok(text)
      case _ => Err(WrongTag)
  }

  function SlotClass(slots: seq<Option<Constant>>, idx: nat): Result<seq<Byte>, Error> {
    if idx == 0 then Err(ZeroIndex)
    else if idx > |slots| then Err(OutOfRange)
    else match slots[idx - 1]
      case Some(Class(name)) => SlotUtf8(slots, name)
      case _ => Err(WrongTag)
  }

  /** The names of all classes that the pool refers to, in order, or the first error. */
  function SlotReferences(slots: seq<Option<Constant>>, n: nat): Result<seq<seq<Byte>>, Error>
    requires n <= |slots|
  {
    if n == 0 then Ok([])
    else
      var before := SlotReferences(slots, n - 1);
      if before.Err? then before
      else match slots[n - 1]
        case Some(Class(name)) =>
          var text := SlotUtf8(slots, name);
          if text.Err? then Err(text.error) else Ok(before.value + [text.value])
        case _ => before
  }

  /** A parsed file whose pool is the encoding of `cs`. */
  ghost predicate FileOf(f: ClassFile, cs: seq<Constant>) {
    WellFormedPool(cs) && f.offsets == SlotOffsets(cs, 10) && Holds(f.buffer, 10, EncodePool(cs)) && f.buffer[0] == 0xCA
  }

  /** The tag that a lookup sees. */
  function TagOf(c: Constant): Byte {
    match c
    case Class(_) => 7
    case StringConstant(_) => 8
    case Four(tag, _) => tag
    case Wide(tag, _) => tag
    case Utf8(_) => 1
  }

  lemma {:induction false} TagAt(f: ClassFile, cs: seq<Constant>, j: nat)
    requires FileOf(f, cs) && j < |Slots(cs)|
    ensures f.offsets[j] < |f.buffer|
    ensures f.buffer[f.offsets[j]] == if Slots(cs)[j].Some? then TagOf(Slots(cs)[j].value) else 0xCA
    ensures Slots(cs)[j].Some? ==> WellFormed(Slots(cs)[j].value) && f.offsets[j] > 0
    ensures Slots(cs)[j].None? ==> f.offsets[j] == 0
  {
    SlotHolds(f.buffer, 10, cs, j);
    if Slots(cs)[j].Some? {
      EntryAt(f.buffer, f.offsets[j], Slots(cs)[j].value);
    }
    hide EncodePool, Slots, SlotOffsets;
  }

  lemma {:induction false} TextAt(vec: seq<Byte>, at: nat, text: seq<Byte>)
    requires |text| < 0x1_0000 && Holds(vec, at, EncodeConstant(Utf8(text)))
    ensures Extract16(vec, at + 1) == Some(|text|) && at + 3 + |text| <= |vec| && vec[at + 3..at + 3 + |text|] == text
  {
    HoldsParts(vec, at, [1] + Bytes2(|text|), text);
    HoldsParts(vec, at, [1], Bytes2(|text|));
    Extract16Inverse(vec, at + 1, |text|);
  }

  /** A lookup of a name yields the text of that slot, or the exception its kind calls for. */
  lemma {:induction false} Utf8Lookup(f: ClassFile, cs: seq<Constant>, idx: nat)
    requires FileOf(f, cs)
    ensures Utf8String(f, idx) == SlotUtf8(Slots(cs), idx)
  {
    hide EncodePool, Slots, SlotOffsets, EncodeConstant, Extract16;
    if 1 <= idx <= |Slots(cs)| {
      TagAt(f, cs, idx - 1);
      var slot := Slots(cs)[idx - 1];
      if slot.Some? && slot.value.Utf8? {
        SlotHolds(f.buffer, 10, cs, idx - 1);
        TextAt(f.buffer, f.offsets[idx - 1], slot.value.text);
      }
    }
  }

  /** A lookup of a class yields the name it refers to, or the exception on the way. */
  lemma {:induction false} ClassLookup(f: ClassFile, cs: seq<Constant>, idx: nat)
    requires FileOf(f, cs)
    ensures ClassName(f, idx) == SlotClass(Slots(cs), idx)
  {
    if 1 <= idx <= |Slots(cs)| {
      TagAt(f, cs, idx - 1);
      SlotHolds(f.buffer, 10, cs, idx - 1);
      var slot := Slots(cs)[idx - 1];
      if slot.Some? && slot.value.Class? {
        NameIndexAt(f.buffer, f.offsets[idx - 1], slot.value.name);
        Utf8Lookup(f, cs, slot.value.name);
      }
      hide EncodePool, Slots, SlotOffsets, FileOf, Utf8String, SlotUtf8;
    }
  }

  lemma {:induction false} NameIndexAt(vec: seq<Byte>, offset: nat, name: nat)
    requires name < 0x1_0000 && Holds(vec, offset, EncodeConstant(Class(name)))
    ensures Extract16(vec, offset + 1) == Some(name)
  {
    HoldsParts(vec, offset, [7], Bytes2(name));
    Extract16Inverse(vec, offset + 1, name);
  }

  lemma {:induction false} ReferencesLookup(f: ClassFile, cs: seq<Constant>, n: nat)
    requires FileOf(f, cs) && n <= |Slots(cs)|
    ensures References(f, n) == SlotReferences(Slots(cs), n)
  {
    hide EncodePool, Slots, SlotOffsets, Utf8String, SlotUtf8;
    if n > 0 {
      ReferencesLookup(f, cs, n - 1);
      TagAt(f, cs, n - 1);
      var slot := Slots(cs)[n - 1];
      if slot.Some? && slot.value.Class? {
        SlotHolds(f.buffer, 10, cs, n - 1);
        NameIndexAt(f.buffer, f.offsets[n - 1], slot.value.name);
        Utf8Lookup(f, cs, slot.value.name);
      }
    }
  }

  /** On the bytes of a well-formed class file, every lookup gives what the file says. */
  lemma {:induction false} LookupsRoundTrip(c: Source, rest: seq<Byte>, idx: nat)
    requires WellFormedSource(c)
    ensures Parsed(EncodeSource(c) + rest).Ok?
    ensures var f := Parsed(EncodeSource(c) + rest).value;
            && ClassName(f, idx) == SlotClass(Slots(c.pool), idx)
            && SuperClass(f) == (if c.superClass == 0 then Ok([]) else SlotClass(Slots(c.pool), c.superClass))
            && References(f, |f.offsets|) == SlotReferences(Slots(c.pool), |Slots(c.pool)|)
  {
    var vec := EncodeSource(c) + rest;
    ParseRoundTrip(c, rest);
    SourceParts(c, rest);
    HeaderEncoded(vec, c);
    var f := Parsed(vec).value;
    hide EncodeSource, EncodeHeader, EncodePool, EncodeTail, Holds, Parsed, WellFormedPool;
    assert FileOf(f, c.pool);
    ClassLookup(f, c.pool, idx);
    ClassLookup(f, c.pool, c.superClass);
    ReferencesLookup(f, c.pool, |Slots(c.pool)|);
  }
}
