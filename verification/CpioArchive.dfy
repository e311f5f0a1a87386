/**
  Reading one entry of the decompressed payload, and the archives that are read
  back exactly. A read either delivers all the characters asked for or fails.
 */
module CpioArchive {
  import opened Wrappers
  import opened Bytes
  import opened Cpio
  import opened Sequences

  datatype Error = EndOfStream | UnknownVersion | BadHeader | EmptyName

  datatype Item =
    | Trailer(next: nat)
    | File(header: CpioEntry, name: string, contents: string, next: nat)

  const TRAILER := "TRAILER!!!"

  /** How many characters are missing to a multiple of four. */
  function Padding(n: nat): (p: nat)
    ensures p < 4 && (n + p) % 4 == 0
  {
    (4 - n % 4) % 4
  }

  /** The name is as long as the end marker with its terminator, and begins like it. */
  predicate IsTrailer(name: string) {
    |name| == |TRAILER| + 1 && name[..|TRAILER|] == TRAILER
  }

  function FormatOf(length: nat): Format { if length == NEWC_LENGTH then Newc else Odc }

  /** The part of the entry behind its header. */
  function Body(data: string, header: CpioEntry, headerLength: nat, pos: nat): Result<Item, Error> {
    if header.namesize == 0 then Err(EmptyName)
    else if pos + header.namesize > |data| then Err(EndOfStream)
    else
      var name := data[pos..pos + header.namesize];
      var start := pos + header.namesize + Padding(MAGIC_SIZE + headerLength + header.namesize);
      if start > |data| then Err(EndOfStream)
      else if IsTrailer(name) then Ok(Trailer(start))
      else if start + header.filesize > |data| then Err(EndOfStream)
      else
        var end := start + header.filesize + Padding(header.filesize);
        if end > |data| then Err(EndOfStream)
        else Ok(File(header, name, data[start..start + header.filesize], end))
  }

  /** The entry at `pos`. */
  function ItemAt(data: string, pos: nat): (r: Result<Item, Error>)
    ensures r.Ok? ==> pos < r.value.next <= |data|
  {
    if pos + MAGIC_SIZE > |data| then Err(EndOfStream)
    else
      var length := HeaderLength(data[pos..pos + MAGIC_SIZE]);
      var start := pos + MAGIC_SIZE;
      if length == 0 then Err(UnknownVersion)
      else if start + length > |data| then Err(EndOfStream)
      else
        var f, buf := FormatOf(length), data[start..start + length];
        if !Good(f, buf, FieldCount(f)) then Err(BadHeader)
        else Body(data, HeaderOf(f, buf), length, start + length)
  }

  /** Skips to a multiple of four, one character at a time; none at the end of the stream. */
  method SkipPadding(data: string, pos: nat, n: nat) returns (r: Option<nat>)
    requires pos <= |data|
    ensures r == if pos + Padding(n) <= |data| then Some(pos + Padding(n)) else None
  {
    var p, m := pos, n;
    while m % 4 != 0
      invariant pos <= p <= |data| && p + Padding(m) == pos + Padding(n)
      decreases Padding(m)
    {
      if p >= |data| { return None; }
      p, m := p + 1, m + 1;
    }
    return Some(p);
  }

  method ReadBody(data: string, header: CpioEntry, headerLength: nat, pos: nat) returns (r: Result<Item, Error>)
    requires pos <= |data|
    ensures r == Body(data, header, headerLength, pos)
  {
    if header.namesize == 0 { return Err(EmptyName); }
    if pos + header.namesize > |data| { return Err(EndOfStream); }
    var name := data[pos..pos + header.namesize];
    var start := SkipPadding(data, pos + header.namesize, MAGIC_SIZE + headerLength + |name|);
    if start.None? { return Err(EndOfStream); }
    if IsTrailer(name) { return Ok(Trailer(start.value)); }
    var contents := "";
    assert data[start.value..start.value] == "";
    if header.filesize > 0 {
      if start.value + header.filesize > |data| { return Err(EndOfStream); }
      contents := data[start.value..start.value + header.filesize];
    }
    var end := SkipPadding(data, start.value + header.filesize, header.filesize);
    if end.None? { return Err(EndOfStream); }
    return Ok(File(header, name, contents, end.value));
  }

  method ReadItem(data: string, pos: nat) returns (r: Result<Item, Error>)
    ensures r == ItemAt(data, pos)
  {
    hide Good, HeaderOf, Body;
    if pos + MAGIC_SIZE > |data| { return Err(EndOfStream); }
    var length := HeaderLength(data[pos..pos + MAGIC_SIZE]);
    if length == 0 { return Err(UnknownVersion); }
    var start := pos + MAGIC_SIZE;
    if start + length > |data| { return Err(EndOfStream); }
    var header := Parse(FormatOf(length), data[start..start + length]);
    if header.Err? { return Err(BadHeader); }
    r := ReadBody(data, header.value, length, start + length);
  }

  /** The entries from `pos` up to the end marker, and where the stream stands behind it. */
  function Walk(data: string, pos: nat): (r: Result<(seq<Item>, nat), Error>)
    ensures r.Ok? ==> forall i | 0 <= i < |r.value.0| :: r.value.0[i].File?
    decreases |data| - pos
  {
    var item := ItemAt(data, pos);
    if item.Err? then Err(item.error)
    else if item.value.Trailer? then Ok(([], item.value.next))
    else
      var rest := Walk(data, item.value.next);
      if rest.Err? then rest else Ok(([item.value] + rest.value.0, rest.value.1))
  }

  // ---- archives ------------------------------------------------------------------------------

  datatype Member = Member(format: Format, header: CpioEntry, name: string, contents: string)

  /** The header gives the sizes: the name counts its terminator. */
  predicate ValidMember(m: Member) {
    Fits(m.format, m.header) && m.header.namesize == |m.name| + 1 && m.header.filesize == |m.contents|
  }

  function Zeros(n: nat): (s: string)
    ensures |s| == n
  {
    seq(n, i => NUL)
  }

  /** The six characters that tell the formats apart. */
  function Magic(f: Format): (s: string)
    ensures |s| == 6
  {
    match f
    case Odc => "070707"
    case Newc => "070701"
  }

  function NamePart(m: Member): string {
    m.name + [NUL] + Zeros(Padding(6 + FormatLength(m.format) + |m.name| + 1))
  }

  function ContentsPart(m: Member): string { m.contents + Zeros(Padding(|m.contents|)) }

  /** The parts of a member end at multiples of four. */
  lemma {:induction false} PartsAligned(m: Member)
    requires ValidMember(m)
    ensures (6 + |Printed(m.format, m.header)| + |NamePart(m)|) % 4 == 0 && |ContentsPart(m)| % 4 == 0
  {
    hide Printed, Zeros, FormatLength;
  }

  function PrintedMember(m: Member): (s: string)
    requires ValidMember(m)
    ensures |s| % 4 == 0 && |s| > 0
  {
    PartsAligned(m);
    Aligned(|Magic(m.format)| + |Printed(m.format, m.header)| + |NamePart(m)|, |ContentsPart(m)|);
    Magic(m.format) + (Printed(m.format, m.header) + (NamePart(m) + ContentsPart(m)))
  }

  lemma {:induction false} Aligned(a: nat, b: nat)
    requires a % 4 == 0 && b % 4 == 0
    ensures (a + b) % 4 == 0
  {
  }

  predicate IsTrailerMember(m: Member) { ValidMember(m) && m.name == "TRAILER!!!" && m.contents == "" }

  predicate IsFileMember(m: Member) { ValidMember(m) && m.name != "TRAILER!!!" }

  predicate AllFiles(ms: seq<Member>) {
    ms != [] ==> IsFileMember(ms[0]) && AllFiles(ms[1..])
  }

  function PrintedArchive(ms: seq<Member>, trailer: Member): string
    requires IsTrailerMember(trailer) && AllFiles(ms)
  {
    if ms == [] then PrintedMember(trailer) else PrintedMember(ms[0]) + PrintedArchive(ms[1..], trailer)
  }

  /** What a member is read back as, when the next one stands at `next`. */
  function ItemOf(m: Member, next: nat): Item {
    if m.name == "TRAILER!!!" then Trailer(next) else File(m.header, m.name + [NUL], m.contents, next)
  }

  /** A printed member is read back, and the stream stands behind it. */
  lemma {:induction false} MemberReadBack(data: string, pos: nat, m: Member)
    requires ValidMember(m) && Holds(data, pos, PrintedMember(m))
    requires m.name == "TRAILER!!!" ==> m.contents == ""
    ensures ItemAt(data, pos) == Ok(ItemOf(m, pos + |PrintedMember(m)|))
  {
    hide Good, HeaderOf, Printed, Holds, Body, FormatLength, ItemOf;
    HoldsParts(data, pos, Magic(m.format), Printed(m.format, m.header) + (NamePart(m) + ContentsPart(m)));
    HoldsParts(data, pos + 6, Printed(m.format, m.header), NamePart(m) + ContentsPart(m));
    HeaderRoundTrip(m.format, m.header);
    BodyReadBack(data, pos + 6 + FormatLength(m.format), m);
    HeldSlices(data, pos, m);
    FormatRecognised(m.format);
  }

  lemma {:induction false} FormatRecognised(f: Format)
    ensures HeaderLength(Magic(f)) == FormatLength(f) > 0 && FormatOf(FormatLength(f)) == f
  {
  }

  lemma {:induction false} HeldSlices(data: string, pos: nat, m: Member)
    requires ValidMember(m) && Holds(data, pos, Magic(m.format)) && Holds(data, pos + 6, Printed(m.format, m.header))
    ensures var start := pos + 6;
            var end := start + FormatLength(m.format);
            end <= |data| && data[pos..start] == Magic(m.format) && data[start..end] == Printed(m.format, m.header)
  {
  }

  lemma {:induction false} BodyReadBack(data: string, pos: nat, m: Member)
    requires ValidMember(m) && Holds(data, pos, NamePart(m) + ContentsPart(m))
    requires m.name == "TRAILER!!!" ==> m.contents == ""
    ensures pos <= |data|
    ensures Body(data, m.header, FormatLength(m.format), pos) == Ok(ItemOf(m, pos + |NamePart(m)| + |ContentsPart(m)|))
  {
    HoldsParts(data, pos, NamePart(m), ContentsPart(m));
    NameReadBack(data, pos, m);
    HoldsParts(data, pos + |NamePart(m)|, m.contents, Zeros(Padding(|m.contents|)));
    hide IsTrailer, Zeros, FormatLength, Fits;
  }

  lemma {:induction false} NameReadBack(data: string, pos: nat, m: Member)
    requires ValidMember(m) && Holds(data, pos, NamePart(m))
    ensures data[pos..pos + |m.name| + 1] == m.name + [NUL]
    ensures IsTrailer(m.name + [NUL]) <==> m.name == "TRAILER!!!"
  {
    HoldsParts(data, pos, m.name + [NUL], Zeros(Padding(6 + FormatLength(m.format) + |m.name| + 1)));
    var name := m.name + [NUL];
    assert name[..|name| - 1] == m.name;
  }

  /** What the members of an archive are read back as. */
  function ItemsOf(ms: seq<Member>, pos: nat): (r: seq<Item>)
    requires AllFiles(ms)
    ensures |r| == |ms|
    ensures forall i | 0 <= i < |ms| :: r[i].File? && r[i].header == ms[i].header
                                        && r[i].name == ms[i].name + [NUL] && r[i].contents == ms[i].contents
  {
    if ms == [] then []
    else
      var next := pos + |PrintedMember(ms[0])|;
      [File(ms[0].header, ms[0].name + [NUL], ms[0].contents, next)] + ItemsOf(ms[1..], next)
  }

  /** Walking an archive yields exactly its members, headers standing at multiples of four. */
  lemma {:induction false} ArchiveRoundTrip(data: string, pos: nat, ms: seq<Member>, trailer: Member)
    requires IsTrailerMember(trailer) && AllFiles(ms)
    requires pos % 4 == 0 && Holds(data, pos, PrintedArchive(ms, trailer))
    ensures Walk(data, pos) == Ok((ItemsOf(ms, pos), pos + |PrintedArchive(ms, trailer)|))
    ensures forall i | 0 <= i < |ItemsOf(ms, pos)| :: ItemsOf(ms, pos)[i].next % 4 == 0
    decreases |ms|
  {
    hide PrintedMember, Holds, ItemAt;
    if ms == [] {
      MemberReadBack(data, pos, trailer);
    } else {
      HoldsParts(data, pos, PrintedMember(ms[0]), PrintedArchive(ms[1..], trailer));
      MemberReadBack(data, pos, ms[0]);
      ArchiveRoundTrip(data, pos + |PrintedMember(ms[0])|, ms[1..], trailer);
    }
  }
}
