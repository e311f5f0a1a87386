/**
  What the fields of a package's record are, in terms of the children of its
  `<package>` element: the last child of a kind counts. This is said field by
  field, where the reader goes child by child.
 */
module PrimaryRecords {
  import opened Wrappers
  import opened Bytes
  import opened XmlEvents
  import opened XmlTree
  import opened ExpatSource
  import opened StringSupport
  import opened Primary
  import Base16

  // ---- the last child of a kind -----------------------------------------------------

  function Last(ts: seq<Tree>, p: Tree -> bool): (r: Option<Tree>)
    ensures r.Some? ==> exists i :: 0 <= i < |ts| && r.value == ts[i] && p(ts[i]) && forall j | i < j < |ts| :: !p(ts[j])
    ensures r.None? ==> forall i | 0 <= i < |ts| :: !p(ts[i])
    decreases |ts|
  {
    if ts == [] then None
    else
      var later := Last(ts[1..], p);
      if later.Some? then
        var i :| 0 <= i < |ts| - 1 && later.value == ts[1..][i] && p(ts[1..][i]) && forall j | i < j < |ts| - 1 :: !p(ts[1..][j]);
        assert ts[i + 1] == later.value && forall j | i + 1 < j < |ts| :: ts[j] == ts[1..][j - 1];
        later
      else
        assert forall j | 0 < j < |ts| :: ts[j] == ts[1..][j - 1];
        if p(ts[0]) then Some(ts[0]) else None
  }

  /** A child that is the only one of its kind is the last one. */
  lemma {:induction false} OnlyIsLast(ts: seq<Tree>, p: Tree -> bool, i: nat)
    requires i < |ts| && p(ts[i]) && forall j | 0 <= j < |ts| && j != i :: !p(ts[j])
    ensures Last(ts, p) == Some(ts[i])
  {
  }

  predicate Is(t: Tree, tag: string) { t.Element? && t.name == tag }

  predicate BeginsWithText(t: Tree) { t.Element? && t.children != [] && t.children[0].Characters? }

  function Text(t: Tree): string { if BeginsWithText(t) then ChunkText(t.children[0].chunks) else "" }

  function Attr(t: Tree, name: string): string { if t.Element? then ValueOf(t.attributes, name) else "" }

  /** The number that the text of an epoch stands for, if it is the value of an `int`. */
  function Epoch(t: Tree, numbers: Numbers): Option<int> {
    var n := numbers(Trim(Attr(t, "epoch")));
    if n.Some? && n.value < 0x8000_0000 then Some(n.value)
    else if n.Some? && 0xFFFF_FFFF_8000_0000 <= n.value < 0x1_0000_0000_0000_0000 then Some(n.value - 0x1_0000_0000_0000_0000)
    else None
  }

  function Tagged(tag: string): Tree -> bool { t => Is(t, tag) }

  function EpochFits(numbers: Numbers): Tree -> bool { t => Is(t, "version") && Epoch(t, numbers).Some? }

  function SizeKnown(numbers: Numbers): Tree -> bool { t => Is(t, "size") && numbers(Attr(t, "package")).Some? }

  function SourceNamed(): Tree -> bool { t => Is(t, "rpm:sourcerpm") && BeginsWithText(t) }

  /** The children of all `<format>` elements. */
  function Formats(ts: seq<Tree>): seq<Tree>
    decreases |ts|
  {
    if ts == [] then [] else (if Is(ts[0], "format") then ts[0].children else []) + Formats(ts[1..])
  }

  /** `url` is the relative URL behind the base; a slash is put between them unless the base has one at either end. */
  predicate Located(base: string, relative: string, url: string) {
    && (base == "" ==> url == relative)
    && (relative == "" ==> url == base)
    && (base != "" && relative != "" ==>
          if base[0] == '/' || base[|base| - 1] == '/' then url == base + relative else url == base + "/" + relative)
  }

  // ---- a record, field by field ------------------------------------------------------

  /** The fields behind the children `ts`, where `r` is what they were before. */
  ghost predicate Reads(r: Record, ts: seq<Tree>, base: string, numbers: Numbers, s: Record) {
    && TextsRead(r, ts, s) && VersionRead(r, ts, numbers, s) && LocationRead(r, ts, base, s) && ChecksumRead(r, ts, numbers, s)
  }

  ghost predicate TextsRead(r: Record, ts: seq<Tree>, s: Record) {
    var name, arch, source := Last(ts, Tagged("name")), Last(ts, Tagged("arch")), Last(Formats(ts), SourceNamed());
    && s.name == (if name.Some? then Text(name.value) else r.name)
    && s.arch == (if arch.Some? then Text(arch.value) else r.arch)
    && s.sourceRpm == (if source.Some? then Text(source.value) else r.sourceRpm)
  }

  /** A version whose epoch does not fit is cleared, and the epoch before it stays. */
  ghost predicate VersionRead(r: Record, ts: seq<Tree>, numbers: Numbers, s: Record) {
    var version, epoch := Last(ts, Tagged("version")), Last(ts, EpochFits(numbers));
    && s.release == (if version.Some? then Trim(Attr(version.value, "rel")) else r.release)
    && s.version == (if version.None? then r.version
                     else if Epoch(version.value, numbers).Some? then Trim(Attr(version.value, "ver")) else "")
    && s.epoch == (if epoch.Some? then Epoch(epoch.value, numbers).value else r.epoch)
  }

  /** An `xml:base` replaces the base URL of the repository, unless it is empty. */
  function BaseFor(t: Tree, base: string): string { if Attr(t, "xml:base") == "" then base else Attr(t, "xml:base") }

  ghost predicate LocationRead(r: Record, ts: seq<Tree>, base: string, s: Record) {
    var location := Last(ts, Tagged("location"));
    if location.None? then s.href == r.href
    else Located(BaseFor(location.value, base), Attr(location.value, "href"), s.href)
  }

  /** Digest and length come from different children, in either order. */
  ghost predicate ChecksumRead(r: Record, ts: seq<Tree>, numbers: Numbers, s: Record) {
    var checksum, size := Last(ts, Tagged("checksum")), Last(ts, SizeKnown(numbers));
    && (if checksum.None? then s.checksum.kind == r.checksum.kind && s.checksum.value == r.checksum.value
        else
          && Base16.Decoded(Text(checksum.value)) == Some(s.checksum.value)
          && s.checksum.kind == if Attr(checksum.value, "type") == "sha" then "sha1" else Attr(checksum.value, "type"))
    && s.checksum.length == if size.Some? then numbers(Attr(size.value, "package")).value else r.checksum.length
  }

  /** No child raises an exception. */
  predicate Sound(t: Tree) {
    && (Is(t, "name") || Is(t, "arch") || Is(t, "checksum") ==> BeginsWithText(t))
    && (Is(t, "checksum") ==>
          && Attr(t, "type") in ["md5", "sha1", "sha", "sha256"]
          && Base16.Decoded(Text(t)).Some?)
  }

  // ---- the reader agrees --------------------------------------------------------------

  /** One more child in front. */
  lemma {:induction false} LastUnfold(ts: seq<Tree>, p: Tree -> bool)
    requires ts != []
    ensures Last(ts, p) == if Last(ts[1..], p).Some? then Last(ts[1..], p) else if p(ts[0]) then Some(ts[0]) else None
  {
  }

  lemma {:induction false} LastAppend(a: seq<Tree>, b: seq<Tree>, p: Tree -> bool)
    ensures Last(a + b, p) == if Last(b, p).Some? then Last(b, p) else Last(a, p)
    decreases |a|
  {
    if a == [] {
      assert a + b == b;
    } else {
      assert (a + b)[1..] == a[1..] + b;
      LastAppend(a[1..], b, p);
      LastUnfold(a + b, p);
      LastUnfold(a, p);
    }
  }

  /** `<format>`: the last `rpm:sourcerpm` that has text. */
  lemma {:induction false} SourceRpmIsLast(before: string, ts: seq<Tree>)
    ensures var source := Last(ts, SourceNamed());
            SourceRpm(before, ts) == if source.Some? then Text(source.value) else before
    decreases |ts|
  {
    hide Last;
    if ts == [] {
      NothingLast(SourceNamed());
    } else {
      LastUnfold(ts, SourceNamed());
      SourceRpmIsLast(if Is(ts[0], "rpm:sourcerpm") && BeginsWithText(ts[0]) then Text(ts[0]) else before, ts[1..]);
    }
  }

  lemma {:induction false} NothingLast(p: Tree -> bool)
    ensures Last([], p) == None
  {
  }

  lemma {:induction false} NothingReads(r: Record, base: string, numbers: Numbers, s: Record)
    ensures Reads(r, [], base, numbers, s) <==> r == s
  {
  }

  /** What one child does, field by field. */
  lemma {:induction false} AppliedTexts(r: Record, t: Tree, base: string, numbers: Numbers)
    requires Applied(r, t, base, numbers).Ok?
    ensures var s := Applied(r, t, base, numbers).value;
            && s.name == (if Is(t, "name") then Text(t) else r.name)
            && s.arch == (if Is(t, "arch") then Text(t) else r.arch)
            && s.sourceRpm == (if Is(t, "format") then SourceRpm(r.sourceRpm, t.children) else r.sourceRpm)
  {
    hide SourceRpm;
  }

  lemma {:induction false} AppliedVersion(r: Record, t: Tree, base: string, numbers: Numbers)
    requires Applied(r, t, base, numbers).Ok?
    ensures var s := Applied(r, t, base, numbers).value;
            && s.release == (if Is(t, "version") then Trim(Attr(t, "rel")) else r.release)
            && s.version == (if !Is(t, "version") then r.version else if Epoch(t, numbers).Some? then Trim(Attr(t, "ver")) else "")
            && s.epoch == (if Is(t, "version") && Epoch(t, numbers).Some? then Epoch(t, numbers).value else r.epoch)
  {
    hide SourceRpm, Trim, ValueOf;
  }

  lemma {:induction false} AppliedLocation(r: Record, t: Tree, base: string, numbers: Numbers)
    requires Applied(r, t, base, numbers).Ok?
    ensures var s := Applied(r, t, base, numbers).value;
            if !Is(t, "location") then s.href == r.href
            else forall url :: Located(BaseFor(t, base), Attr(t, "href"), url) <==> url == s.href
  {
    hide SourceRpm, Trim, ValueOf;
  }

  lemma {:induction false} AppliedChecksum(r: Record, t: Tree, base: string, numbers: Numbers)
    requires Applied(r, t, base, numbers).Ok?
    ensures var s := Applied(r, t, base, numbers).value;
            && s.checksum.length == (if Is(t, "size") && numbers(Attr(t, "package")).Some? then numbers(Attr(t, "package")).value
                                     else r.checksum.length)
            && (!Is(t, "checksum") ==> s.checksum.kind == r.checksum.kind && s.checksum.value == r.checksum.value)
            && (Is(t, "checksum") ==>
                  && Base16.Decoded(Text(t)) == Some(s.checksum.value)
                  && s.checksum.kind == if Attr(t, "type") == "sha" then "sha1" else Attr(t, "type"))
  {
    hide SourceRpm, ValueOf, Base16.Decoded;
  }

  lemma {:induction false} TextsStep(r: Record, ts: seq<Tree>, base: string, numbers: Numbers, s: Record)
    requires ts != [] && Applied(r, ts[0], base, numbers).Ok?
    ensures TextsRead(Applied(r, ts[0], base, numbers).value, ts[1..], s) <==> TextsRead(r, ts, s)
  {
    hide Last, SourceRpm, Applied, Text;
    AppliedTexts(r, ts[0], base, numbers);
    LastUnfold(ts, Tagged("name"));
    LastUnfold(ts, Tagged("arch"));
    LastAppend(if Is(ts[0], "format") then ts[0].children else [], Formats(ts[1..]), SourceNamed());
    if Is(ts[0], "format") { SourceRpmIsLast(r.sourceRpm, ts[0].children); } else { NothingLast(SourceNamed()); }
  }

  lemma {:induction false} VersionStep(r: Record, ts: seq<Tree>, base: string, numbers: Numbers, s: Record)
    requires ts != [] && Applied(r, ts[0], base, numbers).Ok?
    ensures VersionRead(Applied(r, ts[0], base, numbers).value, ts[1..], numbers, s) <==> VersionRead(r, ts, numbers, s)
  {
    hide Last, Applied, Trim, Attr, Epoch;
    AppliedVersion(r, ts[0], base, numbers);
    LastUnfold(ts, Tagged("version"));
    LastUnfold(ts, EpochFits(numbers));
  }

  lemma {:induction false} LocationStep(r: Record, ts: seq<Tree>, base: string, numbers: Numbers, s: Record)
    requires ts != [] && Applied(r, ts[0], base, numbers).Ok?
    ensures LocationRead(Applied(r, ts[0], base, numbers).value, ts[1..], base, s) <==> LocationRead(r, ts, base, s)
  {
    hide Last, Applied, Attr, Located;
    AppliedLocation(r, ts[0], base, numbers);
    LastUnfold(ts, Tagged("location"));
  }

  lemma {:induction false} ChecksumStep(r: Record, ts: seq<Tree>, base: string, numbers: Numbers, s: Record)
    requires ts != [] && Applied(r, ts[0], base, numbers).Ok?
    ensures ChecksumRead(Applied(r, ts[0], base, numbers).value, ts[1..], numbers, s) <==> ChecksumRead(r, ts, numbers, s)
  {
    hide Last, Applied, Attr, Base16.Decoded, Text;
    AppliedChecksum(r, ts[0], base, numbers);
    LastUnfold(ts, Tagged("checksum"));
    LastUnfold(ts, SizeKnown(numbers));
  }

  lemma {:induction false} ReadsStep(r: Record, ts: seq<Tree>, base: string, numbers: Numbers, s: Record)
    requires ts != [] && Applied(r, ts[0], base, numbers).Ok?
    ensures Reads(Applied(r, ts[0], base, numbers).value, ts[1..], base, numbers, s) <==> Reads(r, ts, base, numbers, s)
  {
    hide Applied, TextsRead, VersionRead, LocationRead, ChecksumRead;
    TextsStep(r, ts, base, numbers, s);
    VersionStep(r, ts, base, numbers, s);
    LocationStep(r, ts, base, numbers, s);
    ChecksumStep(r, ts, base, numbers, s);
  }

  lemma {:induction false} SoundStep(r: Record, t: Tree, base: string, numbers: Numbers)
    ensures Applied(r, t, base, numbers).Ok? <==> Sound(t)
  {
    hide SourceRpm;
  }

  /** The children are applied without an exception exactly if each is sound, and then the fields are as stated. */
  lemma {:induction false} AppliedReads(r: Record, ts: seq<Tree>, base: string, numbers: Numbers, s: Record)
    ensures AppliedAll(r, ts, base, numbers) == Ok(s) <==> (forall i | 0 <= i < |ts| :: Sound(ts[i])) && Reads(r, ts, base, numbers, s)
    decreases |ts|
  {
    hide Applied, Sound, Reads;
    if ts == [] {
      NothingReads(r, base, numbers, s);
    } else {
      var t, rest := ts[0], ts[1..];
      assert (forall i | 0 <= i < |ts| :: Sound(ts[i])) <==> Sound(t) && forall i | 0 <= i < |rest| :: Sound(rest[i]) by {
        assert forall i | 0 < i < |ts| :: ts[i] == rest[i - 1];
        assert forall i | 0 <= i < |rest| :: rest[i] == ts[i + 1];
      }
      SoundStep(r, t, base, numbers);
      if Sound(t) {
        AppliedReads(Applied(r, t, base, numbers).value, rest, base, numbers, s);
        ReadsStep(r, ts, base, numbers, s);
      }
    }
  }

  // ---- whole packages --------------------------------------------------------------------

  /** Nothing that is required is empty or unknown; an empty version stands for an epoch that does not fit, too. */
  predicate NothingMissing(s: Record) {
    s.name != "" && s.version != "" && s.arch != "" && s.href != "" && s.checksum.value != []
    && s.checksum.length != 0xFFFF_FFFF_FFFF_FFFF
  }

  /** A `<package>` element yields this record and no exception exactly if it is one of an RPM and its children say so. */
  lemma {:induction false} PackageReads(t: Tree, base: string, numbers: Numbers, s: Record)
    requires t.Element?
    ensures PackageRecord(t, base, numbers) == Ok(s) <==>
              && Attr(t, "type") == "rpm"
              && (forall i | 0 <= i < |t.children| :: Sound(t.children[i]))
              && Reads(Record("", "", "", "", "", -1, "", Checksum("sha256", [], 0xFFFF_FFFF_FFFF_FFFF)), t.children, base, numbers, s)
              && NothingMissing(s)
  {
    hide AppliedAll, Sound, Reads;
    AppliedReads(CLEARED, t.children, base, numbers, s);
  }

  lemma {:induction false} ErrorOfChild(r: Record, t: Tree, base: string, numbers: Numbers)
    requires !Sound(t)
    ensures Applied(r, t, base, numbers) == Err(if BeginsWithText(t) then BadChecksum else IllegalState)
  {
    hide SourceRpm;
  }

  /** The first child that is not sound raises. */
  lemma {:induction false} FirstErrorCounts(r: Record, ts: seq<Tree>, base: string, numbers: Numbers, i: nat)
    requires i < |ts| && !Sound(ts[i]) && forall j | 0 <= j < i :: Sound(ts[j])
    ensures AppliedAll(r, ts, base, numbers) == Err(if BeginsWithText(ts[i]) then BadChecksum else IllegalState)
    decreases |ts|
  {
    hide Applied, Sound, BeginsWithText;
    if i == 0 {
      ErrorOfChild(r, ts[0], base, numbers);
    } else {
      SoundStep(r, ts[0], base, numbers);
      assert ts[1..][i - 1] == ts[i] && forall j | 0 <= j < i - 1 :: ts[1..][j] == ts[j + 1];
      FirstErrorCounts(Applied(r, ts[0], base, numbers).value, ts[1..], base, numbers, i - 1);
    }
  }

  /** Why a package raises: its type, its first child that is not sound, or something that is missing. */
  lemma {:induction false} WhyNoRecord(t: Tree, base: string, numbers: Numbers)
    requires t.Element?
    ensures PackageRecord(t, base, numbers) == Err(BadPackageType) <==> Attr(t, "type") != "rpm"
    ensures PackageRecord(t, base, numbers) == Err(MissingData) ==> forall i | 0 <= i < |t.children| :: Sound(t.children[i])
    ensures Attr(t, "type") == "rpm" ==>
              forall i | 0 <= i < |t.children| && !Sound(t.children[i]) && (forall j | 0 <= j < i :: Sound(t.children[j])) ::
                PackageRecord(t, base, numbers) == Err(if BeginsWithText(t.children[i]) then BadChecksum else IllegalState)
  {
    var ts, r := t.children, AppliedAll(CLEARED, t.children, base, numbers);
    hide AppliedAll, Sound, BeginsWithText, NothingMissing;
    forall i: nat | i < |ts| && !Sound(ts[i]) && (forall j | 0 <= j < i :: Sound(ts[j]))
      ensures r == Err(if BeginsWithText(ts[i]) then BadChecksum else IllegalState)
    {
      FirstErrorCounts(CLEARED, ts, base, numbers, i);
    }
    if exists i :: 0 <= i < |ts| && !Sound(ts[i]) {
      var i := FirstUnsound(ts);
      assert r.Err?;
    } else {
      AllSound(CLEARED, ts, base, numbers);
    }
  }

  lemma {:induction false} AllSound(r: Record, ts: seq<Tree>, base: string, numbers: Numbers)
    requires forall i | 0 <= i < |ts| :: Sound(ts[i])
    ensures AppliedAll(r, ts, base, numbers).Ok?
    decreases |ts|
  {
    hide Applied, Sound;
    if ts != [] {
      SoundStep(r, ts[0], base, numbers);
      assert forall i | 0 <= i < |ts| - 1 :: ts[1..][i] == ts[i + 1];
      AllSound(Applied(r, ts[0], base, numbers).value, ts[1..], base, numbers);
    }
  }

  lemma {:induction false} FirstUnsound(ts: seq<Tree>) returns (i: nat)
    requires exists i :: 0 <= i < |ts| && !Sound(ts[i])
    ensures i < |ts| && !Sound(ts[i]) && forall j | 0 <= j < i :: Sound(ts[j])
  {
    hide Sound;
    i := 0;
    while Sound(ts[i])
      invariant i < |ts| && forall j | 0 <= j < i :: Sound(ts[j])
      decreases |ts| - i
    {
      i := i + 1;
    }
  }

  // ---- written records ---------------------------------------------------------------------

  /** The tree is the only one of its tag among the children, wherever it stands. */
  ghost predicate Single(ts: seq<Tree>, tag: string, t: Tree) {
    Is(t, tag) && exists i :: 0 <= i < |ts| && ts[i] == t && forall j | 0 <= j < |ts| && j != i :: !Is(ts[j], tag)
  }

  lemma {:induction false} SingleIsLast(ts: seq<Tree>, tag: string, t: Tree)
    requires Single(ts, tag, t)
    ensures Last(ts, Tagged(tag)) == Some(t)
    ensures forall i | 0 <= i < |ts| && Is(ts[i], tag) :: ts[i] == t
  {
    hide Last;
    var i :| 0 <= i < |ts| && ts[i] == t && forall j | 0 <= j < |ts| && j != i :: !Is(ts[j], tag);
    assert forall k | 0 <= k < |ts| :: Tagged(tag)(ts[k]) == Is(ts[k], tag);
    OnlyIsLast(ts, Tagged(tag), i);
  }

  /** The children that carry a record, and what they say. */
  datatype Written = Written(name: Tree, arch: Tree, version: Tree, checksum: Tree, size: Tree, location: Tree, format: Tree, source: Tree)

  ghost predicate IsWritten(ts: seq<Tree>, w: Written) {
    && Single(ts, "name", w.name) && Single(ts, "arch", w.arch) && Single(ts, "version", w.version)
    && Single(ts, "checksum", w.checksum) && Single(ts, "size", w.size) && Single(ts, "location", w.location)
    && Single(ts, "format", w.format) && Single(w.format.children, "rpm:sourcerpm", w.source)
    && BeginsWithText(w.name) && BeginsWithText(w.arch) && BeginsWithText(w.checksum) && BeginsWithText(w.source)
  }

  /** The record that the children carry. */
  ghost predicate Carries(w: Written, base: string, numbers: Numbers, s: Record) {
    && s.name == Text(w.name) && s.arch == Text(w.arch) && s.sourceRpm == Text(w.source)
    && s.version == Trim(Attr(w.version, "ver")) && s.release == Trim(Attr(w.version, "rel"))
    && Epoch(w.version, numbers) == Some(s.epoch)
    && Located(BaseFor(w.location, base), Attr(w.location, "href"), s.href)
    && numbers(Attr(w.size, "package")) == Some(s.checksum.length)
    && s.checksum.kind == Attr(w.checksum, "type") && s.checksum.kind in ["md5", "sha1", "sha256"]
    && Base16.SpellsAll(Text(w.checksum), s.checksum.value)
  }

  /**
    A record that is written into a `<package>` element is read back: its children stand in any order,
    with any text and any elements of other names between them.
   */
  lemma {:induction false} WrittenIsRead(t: Tree, base: string, numbers: Numbers, w: Written, s: Record)
    requires t.Element? && Attr(t, "type") == "rpm" && IsWritten(t.children, w)
    requires Carries(w, base, numbers, s) && NothingMissing(s)
    ensures PackageRecord(t, base, numbers) == Ok(s)
  {
    hide PackageRecord, NothingMissing, Reads, Sound, IsWritten, Carries, Attr;
    WrittenSound(t.children, base, numbers, w, s);
    WrittenReads(CLEARED, t.children, base, numbers, w, s);
    PackageReads(t, base, numbers, s);
  }

  lemma {:induction false} WrittenSound(ts: seq<Tree>, base: string, numbers: Numbers, w: Written, s: Record)
    requires IsWritten(ts, w) && Carries(w, base, numbers, s)
    ensures forall i | 0 <= i < |ts| :: Sound(ts[i])
  {
    Base16.DecodedExactly(Text(w.checksum), s.checksum.value);
    hide Attr, Text, BeginsWithText, Base16.Decoded, Base16.SpellsAll, Trim, Epoch, Located, BaseFor;
    SingleIsLast(ts, "name", w.name);
    SingleIsLast(ts, "arch", w.arch);
    SingleIsLast(ts, "checksum", w.checksum);
    hide Single, Last;
  }

  lemma {:induction false} WrittenReads(r: Record, ts: seq<Tree>, base: string, numbers: Numbers, w: Written, s: Record)
    requires IsWritten(ts, w) && Carries(w, base, numbers, s)
    ensures Reads(r, ts, base, numbers, s)
  {
    Base16.DecodedExactly(Text(w.checksum), s.checksum.value);
    hide TextsRead, VersionRead, ChecksumRead, Attr, Text, Epoch, Trim, Located, BaseFor, Base16.Decoded, Base16.SpellsAll, Last;
    WrittenTexts(r, ts, w, s);
    WrittenVersion(r, ts, numbers, w, s);
    WrittenChecksum(r, ts, numbers, w, s);
    SingleIsLast(ts, "location", w.location);
    hide IsWritten, Single;
  }

  lemma {:induction false} WrittenTexts(r: Record, ts: seq<Tree>, w: Written, s: Record)
    requires IsWritten(ts, w) && s.name == Text(w.name) && s.arch == Text(w.arch) && s.sourceRpm == Text(w.source)
    ensures TextsRead(r, ts, s)
  {
    hide Last, Text, BeginsWithText;
    SingleIsLast(ts, "name", w.name);
    SingleIsLast(ts, "arch", w.arch);
    SingleFormat(ts, w.format);
    SingleIsLast(w.format.children, "rpm:sourcerpm", w.source);
    SourceIsLast(w.format.children, w.source);
  }

  lemma {:induction false} SourceIsLast(ts: seq<Tree>, t: Tree)
    requires Single(ts, "rpm:sourcerpm", t) && BeginsWithText(t)
    ensures Last(ts, SourceNamed()) == Some(t)
  {
    hide Last;
    var i :| 0 <= i < |ts| && ts[i] == t && forall j | 0 <= j < |ts| && j != i :: !Is(ts[j], "rpm:sourcerpm");
    OnlyIsLast(ts, SourceNamed(), i);
  }

  /** With one `<format>`, its children are all there is. */
  lemma {:induction false} SingleFormat(ts: seq<Tree>, t: Tree)
    requires Single(ts, "format", t)
    ensures Formats(ts) == t.children
    decreases |ts|
  {
    var i :| 0 <= i < |ts| && ts[i] == t && forall j | 0 <= j < |ts| && j != i :: !Is(ts[j], "format");
    var rest := ts[1..];
    assert forall j | 0 < j < |ts| :: ts[j] == rest[j - 1];
    if i == 0 {
      assert forall j | 0 <= j < |rest| :: rest[j] == ts[j + 1];
      NoFormat(rest);
    } else {
      assert rest[i - 1] == t && forall j | 0 <= j < |rest| && j != i - 1 :: rest[j] == ts[j + 1] && !Is(rest[j], "format");
      SingleFormat(rest, t);
    }
  }

  lemma {:induction false} NoFormat(ts: seq<Tree>)
    requires forall j | 0 <= j < |ts| :: !Is(ts[j], "format")
    ensures Formats(ts) == []
    decreases |ts|
  {
    if ts != [] {
      assert forall j | 0 < j < |ts| :: ts[j] == ts[1..][j - 1];
      assert forall j | 0 <= j < |ts[1..]| :: ts[1..][j] == ts[j + 1];
      NoFormat(ts[1..]);
    }
  }

  lemma {:induction false} WrittenVersion(r: Record, ts: seq<Tree>, numbers: Numbers, w: Written, s: Record)
    requires IsWritten(ts, w) && Epoch(w.version, numbers) == Some(s.epoch)
    requires s.version == Trim(Attr(w.version, "ver")) && s.release == Trim(Attr(w.version, "rel"))
    ensures VersionRead(r, ts, numbers, s)
  {
    hide Last, Epoch, Attr, Trim;
    SingleIsLast(ts, "version", w.version);
    SingleSuch(ts, "version", w.version, EpochFits(numbers));
  }

  /** A condition on the children of a tag singles out the only one that has the tag. */
  lemma {:induction false} SingleSuch(ts: seq<Tree>, tag: string, t: Tree, p: Tree -> bool)
    requires Single(ts, tag, t) && p(t) && forall u :: p(u) ==> Is(u, tag)
    ensures Last(ts, p) == Some(t)
  {
    hide Last;
    var i :| 0 <= i < |ts| && ts[i] == t && forall j | 0 <= j < |ts| && j != i :: !Is(ts[j], tag);
    OnlyIsLast(ts, p, i);
  }

  lemma {:induction false} WrittenChecksum(r: Record, ts: seq<Tree>, numbers: Numbers, w: Written, s: Record)
    requires IsWritten(ts, w) && numbers(Attr(w.size, "package")) == Some(s.checksum.length)
    requires Attr(w.checksum, "type") == s.checksum.kind != "sha" && Base16.Decoded(Text(w.checksum)) == Some(s.checksum.value)
    ensures ChecksumRead(r, ts, numbers, s)
  {
    hide Last, Attr, Base16.Decoded, Text;
    SingleIsLast(ts, "checksum", w.checksum);
    SingleSuch(ts, "size", w.size, SizeKnown(numbers));
  }

  // ---- whole documents ----------------------------------------------------------------------

  function Packages(ts: seq<Tree>): (r: seq<Tree>)
    ensures forall i | 0 <= i < |r| :: Is(r[i], "package")
    decreases |ts|
  {
    if ts == [] then [] else (if Is(ts[0], "package") then [ts[0]] else []) + Packages(ts[1..])
  }

  /** One record for each `<package>`, in document order, or those in front of the first that raises an exception. */
  lemma {:induction false} OneRecordEach(ts: seq<Tree>, base: string, numbers: Numbers)
    ensures var (records, error), packages := Records(ts, base, numbers), Packages(ts);
            && |records| <= |packages|
            && (forall i | 0 <= i < |records| :: PackageRecord(packages[i], base, numbers) == Ok(records[i]))
            && (error.None? <==> |records| == |packages|)
            && (error.Some? ==> |records| < |packages| && PackageRecord(packages[|records|], base, numbers) == Err(error.value))
    decreases |ts|
  {
    hide PackageRecord;
    if ts != [] {
      var rest := Packages(ts[1..]);
      OneRecordEach(ts[1..], base, numbers);
      if Is(ts[0], "package") {
        assert Packages(ts) == [ts[0]] + rest && forall i | 0 < i < |Packages(ts)| :: Packages(ts)[i] == rest[i - 1];
      } else {
        assert Packages(ts) == rest;
      }
    }
  }
}
