/**
  The reader of a repository's primary metadata: a consumer of the pull parser
  that hands out one `<package>` element at a time. Number parsing is a
  parameter; hashing types and URL joining are as in the source.
 */
module Primary {
  import opened Wrappers
  import opened Bytes
  import opened XmlEvents
  import opened XmlTree
  import opened ExpatSource
  import opened StringSupport
  import Base16

  const TWO_31 := 0x8000_0000
  const TWO_64 := 0x1_0000_0000_0000_0000

  /** Stands for a length that is not known. */
  const NO_LENGTH := TWO_64 - 1

  datatype Checksum = Checksum(kind: string, value: seq<Byte>, length: nat)

  /** What one `<package>` element contributes: `info_`, `href_` and `checksum_`. */
  datatype Record = Record(
    name: string, version: string, release: string, arch: string,
    sourceRpm: string, epoch: int, href: string, checksum: Checksum)

  const CLEARED := Record("", "", "", "", "", -1, "", Checksum("sha256", [], NO_LENGTH))

  datatype Error = IllegalState | BadChecksum | BadPackageType | MissingData

  type Numbers = string -> Option<nat>

  // ---- small string helpers --------------------------------------------------

  function UrlCombine(base: string, relative: string): string {
    if base == [] then relative
    else if relative == [] then base
    else if base[|base| - 1] == '/' || base[0] == '/' then base + relative
    else base + "/" + relative
  }

  predicate KnownHash(kind: string) {
    kind == "md5" || kind == "sha1" || kind == "sha" || kind == "sha256"
  }

  function HashName(kind: string): string {
    if kind == "sha" then "sha1" else kind
  }

  /** The value after the round trip through `int`, if the round trip is exact. */
  function AsInt(n: nat): Option<int> {
    if n < TWO_31 then Some(n)
    else if TWO_64 - TWO_31 <= n < TWO_64 then Some(n - TWO_64)
    else None
  }

  // ---- what each child of <package> means ------------------------------------

  /** The leading text of an element, which must be there. */
  function LeadingText(t: Tree): Result<string, Error>
    requires t.Element?
  {
    if t.children != [] && t.children[0].Characters? then Ok(ChunkText(t.children[0].chunks)) else Err(IllegalState)
  }

  function WithVersion(r: Record, attributes: seq<Attribute>, numbers: Numbers): Record {
    var v := r.(version := Trim(ValueOf(attributes, "ver")), release := Trim(ValueOf(attributes, "rel")));
    var epoch := numbers(Trim(ValueOf(attributes, "epoch")));
    if epoch.None? || AsInt(epoch.value).None? then v.(version := "") else v.(epoch := AsInt(epoch.value).value)
  }

  function WithLocation(r: Record, attributes: seq<Attribute>, base: string): Record {
    var xmlbase := ValueOf(attributes, "xml:base");
    r.(href := UrlCombine(if xmlbase == [] then base else xmlbase, ValueOf(attributes, "href")))
  }

  function WithSize(r: Record, attributes: seq<Attribute>, numbers: Numbers): Record {
    var n := numbers(ValueOf(attributes, "package"));
    if n.None? then r else r.(checksum := r.checksum.(length := n.value))
  }

  function WithChecksum(r: Record, kind: string, hex: string): Result<Record, Error> {
    var value := Base16.Decoded(hex);
    if value.None? || !KnownHash(kind) then Err(BadChecksum)
    else Ok(r.(checksum := Checksum(HashName(kind), value.value, r.checksum.length)))
  }

  /** The last `rpm:sourcerpm` with text wins. */
  function SourceRpm(before: string, ts: seq<Tree>): string
    decreases |ts|
  {
    if ts == [] then before
    else
      var t := ts[0];
      var now := if t.Element? && t.name == "rpm:sourcerpm" && t.children != [] && t.children[0].Characters?
                 then ChunkText(t.children[0].chunks) else before;
      SourceRpm(now, ts[1..])
  }

  function Applied(r: Record, t: Tree, base: string, numbers: Numbers): Result<Record, Error> {
    if t.Characters? then Ok(r)
    else if t.name == "name" || t.name == "arch" then
      (match LeadingText(t)
       case Err(e) => Err(e)
       case Ok(text) => Ok(if t.name == "name" then r.(name := text) else r.(arch := text)))
    else if t.name == "version" then Ok(WithVersion(r, t.attributes, numbers))
    else if t.name == "checksum" then
      (match LeadingText(t)
       case Err(e) => Err(e)
       case Ok(text) => WithChecksum(r, ValueOf(t.attributes, "type"), text))
    else if t.name == "size" then Ok(WithSize(r, t.attributes, numbers))
    else if t.name == "location" then Ok(WithLocation(r, t.attributes, base))
    else if t.name == "format" then Ok(r.(sourceRpm := SourceRpm(r.sourceRpm, t.children)))
    else Ok(r)
  }

  function AppliedAll(r: Record, ts: seq<Tree>, base: string, numbers: Numbers): Result<Record, Error>
    decreases |ts|
  {
    if ts == [] then Ok(r)
    else
      var first := Applied(r, ts[0], base, numbers);
      if first.Err? then first else AppliedAll(first.value, ts[1..], base, numbers)
  }

  predicate Complete(r: Record) {
    r.name != "" && r.version != "" && r.arch != "" && r.href != "" && r.checksum.value != [] && r.checksum.length != NO_LENGTH
  }

  /** The record of a `<package>` element, or the exception it causes. */
  function PackageRecord(t: Tree, base: string, numbers: Numbers): Result<Record, Error>
    requires t.Element?
  {
    if ValueOf(t.attributes, "type") != "rpm" then Err(BadPackageType)
    else
      var r := AppliedAll(CLEARED, t.children, base, numbers);
      if r.Ok? && !Complete(r.value) then Err(MissingData) else r
  }

  predicate IsPackage(t: Tree) { t.Element? && t.name == "package" }

  /** The siblings from the first package on. */
  function FromPackage(ts: seq<Tree>): (r: seq<Tree>)
    ensures |r| <= |ts| && (r != [] ==> IsPackage(r[0]))
    ensures Normal(ts) ==> Normal(r)
  {
    if ts == [] || IsPackage(ts[0]) then ts else FromPackage(ts[1..])
  }

  // ---- the reader -------------------------------------------------------------

  datatype Outcome = Finished | Package | Raised(error: Error)

  class Reader {
    const source: Source
    const baseUrl: string
    const numbers: Numbers
    var record: Record

    ghost predicate Valid()
      reads this, source
    {
      source.Valid()
    }

    constructor (source: Source, baseUrl: string, numbers: Numbers)
      requires source.Valid()
      ensures this.source == source && this.baseUrl == baseUrl && this.numbers == numbers && Valid()
      ensures source.View() == old(source.View()) && source.state == old(source.state)
    {
      this.source, this.baseUrl, this.numbers := source, baseUrl, numbers;
      record := CLEARED;
    }

    /** Enters the root element, which must be `<metadata>`. */
    method Open(ghost t: Tree, ghost rest: seq<Event>) returns (ok: bool)
      requires Valid() && source.state == INIT && t.Element? && source.View() == Events(t) + rest
      modifies source
      ensures Valid() && source.state != INIT
      ensures ok <==> t.name == "metadata"
      ensures ok ==> source.View() == AllEvents(t.children) + ([End(t.end)] + rest)
    {
      hide Source.Valid, Source.View;
      ElementAhead(t, rest);
      var _ := source.Next();
      source.HeadHolds();
      var name := source.Name();
      if name != Some("metadata") { return false; }
      var _ := source.Next();
      return true;
    }

    /** Enters the current element, takes its leading text, and leaves it. */
    method TakeText(ghost t: Tree, ghost after: seq<Event>) returns (r: Option<string>)
      requires Valid() && source.state == START && t.Element? && Normal(t.children)
      requires source.View()[1..] == AllEvents(t.children) + ([End(t.end)] + after)
      modifies source
      ensures Valid() && source.state != INIT
      ensures LeadingText(t) == if r.Some? then Ok(r.value) else Err(IllegalState)
      ensures r.Some? ==> source.View() == after
    {
      hide Source.Valid, Source.View;
      source.HeadHolds();
      ghost var closing := [End(t.end)] + after;
      SiblingInFront(t.children, closing);
      var _ := source.Next();
      source.HeadHolds();
      r := source.TextAndNext();
      if r.Some? {
        StripContent(t.children[1..], t.end, after);
        source.HeadHolds();
        source.Unnest();
      }
    }

    /** `process_format`: the children of `<format>`. */
    method ProcessFormat(ghost t: Tree, ghost after: seq<Event>)
      requires Valid() && source.state == START && t.Element? && Normal(t.children)
      requires source.View()[1..] == AllEvents(t.children) + ([End(t.end)] + after)
      modifies this, source
      ensures Valid() && source.state != INIT && source.View() == after
      ensures record == old(record).(sourceRpm := SourceRpm(old(record.sourceRpm), t.children))
    {
      hide Source.Valid, Source.View;
      source.HeadHolds();
      ghost var closing := [End(t.end)] + after;
      ghost var todo := t.children;
      var _ := source.Next();
      SiblingInFront(todo, closing);
      source.HeadHolds();
      while source.state != END
        invariant Valid() && source.Head() && source.state != INIT
        invariant Normal(todo) && source.View() == AllEvents(todo) + closing
        invariant record == old(record).(sourceRpm := record.sourceRpm)
        invariant SourceRpm(record.sourceRpm, todo) == SourceRpm(old(record.sourceRpm), t.children)
        invariant source.state == END ==> todo == []
        decreases |todo|
      {
        SiblingInFront(todo, closing);
        var name := source.Name();
        if name == Some("rpm:sourcerpm") {
          SourceRpmElement(todo[0], AllEvents(todo[1..]) + closing);
        } else {
          source.Skip();
        }
        todo := todo[1..];
        SiblingInFront(todo, closing);
        source.HeadHolds();
      }
      assert closing[1..] == after;
      var _ := source.Next();
    }

    method SourceRpmElement(ghost t: Tree, ghost after: seq<Event>)
      requires Valid() && source.state == START && t.Element? && Normal(t.children)
      requires source.View()[1..] == AllEvents(t.children) + ([End(t.end)] + after)
      modifies this, source
      ensures Valid() && source.state != INIT && source.View() == after
      ensures record == if t.children != [] && t.children[0].Characters?
                        then old(record).(sourceRpm := ChunkText(t.children[0].chunks)) else old(record)
    {
      hide Source.Valid, Source.View;
      source.HeadHolds();
      SiblingInFront(t.children, [End(t.end)] + after);
      var _ := source.Next();
      source.HeadHolds();
      StripContent(t.children, t.end, after);
      if source.state == TEXT {
        StripContent(t.children[1..], t.end, after);
        var text := source.TextAndNext();
        record := record.(sourceRpm := text.value);
        source.HeadHolds();
      }
      source.Unnest();
    }

    /** `process_version` and the attributes it reads. */
    method ProcessVersion(ghost t: Tree, ghost after: seq<Event>)
      requires Valid() && source.state == START && t.Element?
      requires source.View()[0] == Start(t.start, t.name, t.attributes) && Skipped(source.View()) == Some(after)
      modifies this, source
      ensures Valid() && source.state != INIT && source.View() == after
      ensures record == WithVersion(old(record), t.attributes, numbers)
    {
      hide Source.Valid, Source.View;
      var ver := source.AttributeValue("ver");
      var rel := source.AttributeValue("rel");
      var epochText := source.AttributeValue("epoch");
      record := record.(version := Trim(ver.value), release := Trim(rel.value));
      var epoch := numbers(Trim(epochText.value));
      if epoch.None? || AsInt(epoch.value).None? {
        record := record.(version := "");
      } else {
        record := record.(epoch := AsInt(epoch.value).value);
      }
      source.Skip();
    }

    /** One child of `<package>`: exactly that child is consumed. */
    method ProcessChild(ghost t: Tree, ghost after: seq<Event>) returns (error: Option<Error>)
      requires Valid() && source.state == START && t.Element? && Normal(t.children)
      requires source.View()[0] == Start(t.start, t.name, t.attributes) && Skipped(source.View()) == Some(after)
      requires source.View()[1..] == AllEvents(t.children) + ([End(t.end)] + after)
      modifies this, source
      ensures Valid() && source.state != INIT
      ensures (if error.Some? then Err(error.value) else Ok(record)) == Applied(old(record), t, baseUrl, numbers)
      ensures error.None? ==> source.View() == after
    {
      hide Source.Valid, Source.View, WithVersion, LeadingText, SourceRpm;
      source.HeadHolds();
      var tag := source.Name();
      if tag.value == "name" {
        var text := TakeText(t, after);
        if text.None? { return Some(IllegalState); }
        record := record.(name := text.value);
      } else if tag.value == "arch" {
        var text := TakeText(t, after);
        if text.None? { return Some(IllegalState); }
        record := record.(arch := text.value);
      } else if tag.value == "version" {
        ProcessVersion(t, after);
      } else if tag.value == "checksum" {
        var kind := source.AttributeValue("type");
        var text := TakeText(t, after);
        if text.None? { return Some(IllegalState); }
        var r := WithChecksum(record, kind.value, text.value);
        if r.Err? { return Some(r.error); }
        record := r.value;
      } else if tag.value == "size" {
        var size := source.AttributeValue("package");
        var n := numbers(size.value);
        if n.Some? { record := record.(checksum := record.checksum.(length := n.value)); }
        source.Skip();
      } else if tag.value == "location" {
        var xmlbase := source.AttributeValue("xml:base");
        var href := source.AttributeValue("href");
        record := record.(href := UrlCombine(if |xmlbase.value| == 0 then baseUrl else xmlbase.value, href.value));
        source.Skip();
      } else if tag.value == "format" {
        ProcessFormat(t, after);
      } else {
        source.Skip();
      }
      return None;
    }

    /** The children of `<package>`, up to its end tag. */
    method ProcessPackage(ghost t: Tree, ghost after: seq<Event>) returns (error: Option<Error>)
      requires Valid() && source.state != INIT && t.Element? && Normal(t.children)
      requires source.View() == AllEvents(t.children) + ([End(t.end)] + after)
      modifies this, source
      ensures Valid() && source.state != INIT
      ensures (if error.Some? then Err(error.value) else Ok(record)) == AppliedAll(old(record), t.children, baseUrl, numbers)
      ensures error.None? ==> source.View() == [End(t.end)] + after
    {
      hide Source.Valid, Source.View, Applied;
      ghost var closing := [End(t.end)] + after;
      ghost var todo := t.children;
      SiblingInFront(todo, closing);
      source.HeadHolds();
      while source.state != END
        invariant Valid() && source.Head() && source.state != INIT
        invariant Normal(todo) && source.View() == AllEvents(todo) + closing
        invariant AppliedAll(record, todo, baseUrl, numbers) == AppliedAll(old(record), t.children, baseUrl, numbers)
        invariant source.state == END <==> todo == []
        decreases |todo|
      {
        SiblingInFront(todo, closing);
        if source.state == TEXT {
          AppliedText(record, todo[0], baseUrl, numbers);
          source.Skip();
        } else {
          error := ProcessChild(todo[0], AllEvents(todo[1..]) + closing);
          if error.Some? { return; }
        }
        todo := todo[1..];
        SiblingInFront(todo, closing);
        source.HeadHolds();
      }
      SiblingInFront(todo, closing);
      return None;
    }

    /** One call of `next`: the next `<package>` among the remaining siblings, or the end. */
    method Next(ghost ts: seq<Tree>, ghost closing: seq<Event>) returns (r: Outcome)
      requires Valid() && source.state != INIT && Normal(ts) && closing != [] && closing[0].End?
      requires source.View() == AllEvents(ts) + closing
      modifies this, source
      ensures Valid() && source.state != INIT
      ensures var from := FromPackage(ts);
              if from == [] then r == Finished && source.View() == closing
              else match PackageRecord(from[0], baseUrl, numbers)
                   case Ok(rec) => r == Package && record == rec && source.View() == AllEvents(from[1..]) + closing
                   case Err(e) => r == Raised(e)
    {
      hide Source.Valid, Source.View, AppliedAll;
      record := CLEARED;
      ghost var todo := ts;
      SiblingInFront(todo, closing);
      source.HeadHolds();
      while true
        invariant Valid() && source.Head() && source.state != INIT && record == CLEARED
        invariant Normal(todo) && source.View() == AllEvents(todo) + closing && FromPackage(todo) == FromPackage(ts)
        decreases |todo|
      {
        SiblingInFront(todo, closing);
        if source.state == END { return Finished; }
        var name := source.Name();
        if name == Some("package") { break; }
        source.Skip();
        todo := todo[1..];
        SiblingInFront(todo, closing);
        source.HeadHolds();
      }
      SiblingInFront(todo, closing);
      r := ReadPackage(todo[0], AllEvents(todo[1..]) + closing);
    }

    method ReadPackage(ghost t: Tree, ghost after: seq<Event>) returns (r: Outcome)
      requires Valid() && source.state == START && t.Element? && Normal(t.children) && record == CLEARED
      requires source.View()[0] == Start(t.start, t.name, t.attributes)
      requires source.View()[1..] == AllEvents(t.children) + ([End(t.end)] + after)
      modifies this, source
      ensures Valid() && source.state != INIT
      ensures match PackageRecord(t, baseUrl, numbers)
              case Ok(rec) => r == Package && record == rec && source.View() == after
              case Err(e) => r == Raised(e)
    {
      hide Source.Valid, Source.View, AppliedAll;
      source.HeadHolds();
      var kind := source.AttributeValue("type");
      if kind != Some("rpm") { return Raised(BadPackageType); }
      var _ := source.Next();
      var error := ProcessPackage(t, after);
      if error.Some? { return Raised(error.value); }
      assert ([End(t.end)] + after)[1..] == after;
      var _ := source.Next();
      if !Complete(record) { return Raised(MissingData); }
      return Package;
    }
  }

  lemma {:induction false} AppliedText(r: Record, t: Tree, base: string, numbers: Numbers)
    ensures t.Characters? ==> Applied(r, t, base, numbers) == Ok(r)
  {
  }

  // ---- the whole document -----------------------------------------------------

  /** The records of the packages in document order, up to the first that raises. */
  function Records(ts: seq<Tree>, base: string, numbers: Numbers): (seq<Record>, Option<Error>)
    decreases |ts|
  {
    if ts == [] then ([], None)
    else if !IsPackage(ts[0]) then Records(ts[1..], base, numbers)
    else match PackageRecord(ts[0], base, numbers)
      case Err(e) => ([], Some(e))
      case Ok(r) => var rest := Records(ts[1..], base, numbers); ([r] + rest.0, rest.1)
  }

  lemma {:induction false} RecordsFromPackage(ts: seq<Tree>, base: string, numbers: Numbers)
    ensures Records(FromPackage(ts), base, numbers) == Records(ts, base, numbers)
  {
    if ts != [] && !IsPackage(ts[0]) { RecordsFromPackage(ts[1..], base, numbers); }
  }

  ghost predicate Continues(done: seq<Record>, rest: (seq<Record>, Option<Error>), all: (seq<Record>, Option<Error>)) {
    all.0 == done + rest.0 && all.1 == rest.1
  }

  /** The caller's loop: it ends, and sees every package exactly once and in order. */
  method ReadAll(reader: Reader, ghost ts: seq<Tree>, ghost closing: seq<Event>)
    returns (records: seq<Record>, error: Option<Error>)
    requires reader.Valid() && reader.source.state != INIT && Normal(ts) && closing != [] && closing[0].End?
    requires reader.source.View() == AllEvents(ts) + closing
    modifies reader, reader.source
    ensures (records, error) == Records(ts, reader.baseUrl, reader.numbers)
    ensures error.None? ==> reader.source.Valid() && reader.source.View() == closing
  {
    hide Source.Valid, Source.View, PackageRecord;
    records := [];
    ghost var todo := ts;
    while true
      invariant reader.Valid() && reader.source.state != INIT && Normal(todo)
      invariant reader.source.View() == AllEvents(todo) + closing
      invariant Continues(records, Records(todo, reader.baseUrl, reader.numbers), Records(ts, reader.baseUrl, reader.numbers))
      decreases |todo|
    {
      RecordsFromPackage(todo, reader.baseUrl, reader.numbers);
      assert records + [] == records;
      ghost var from := FromPackage(todo);
      var r := reader.Next(todo, closing);
      match r {
        case Finished => return records, None;
        case Raised(e) => return records, Some(e);
        case Package =>
          ghost var rest := Records(from[1..], reader.baseUrl, reader.numbers);
          assert records + ([reader.record] + rest.0) == (records + [reader.record]) + rest.0;
          records := records + [reader.record];
          todo := from[1..];
      }
    }
  }
}
