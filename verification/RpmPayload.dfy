/**
  The files of an RPM package: the cpio stream merged with the header's file
  records, hard links delivered as groups, ghost files reported at the end.
  The header is a sequence of records; a digest whose algorithm is unknown is
  absent.
 */
module RpmPayload {
  import opened Wrappers
  import opened Ordering
  import opened CpioArchive
  import ConstStringref
  import opened Bytes

  datatype FileRecord = FileRecord(
    name: string, nlink: nat, regular: bool, size: nat, isGhost: bool, inode: nat, digest: Option<string>)

  type Header = seq<FileRecord>

  datatype FileInfo = FileInfo(fx: nat, name: string, isGhost: bool, ino: nat, digest: string, size: nat)

  datatype Error =
    | Payload(error: CpioArchive.Error)
    | UnknownDigest | MissingFile | NotInHeader | DuplicateFile | NotInGroup | DigestMismatch | SizeMismatch

  /** The digest of the empty file, which ghosts are given. */
  const EMPTY_DIGEST := "e3b0c44298fc1c149afbf4c8996fb92427ae41e4649b934ca495991b7852b855"

  // ---- the header ------------------------------------------------------------------

  /** The inode that links the file to others, or zero. */
  function HardlinkIno(r: FileRecord): nat {
    if r.nlink > 1 && r.regular && r.size != 0 && !r.isGhost then r.inode else 0
  }

  datatype FileIndex = FileIndex(fx: nat, seen: bool)

  type FileMap = map<string, FileIndex>

  /** The file map after the first `n` records: every name leads to the last of its records. */
  function FilesOf(h: Header, n: nat): (m: FileMap)
    requires n <= |h|
    ensures forall k | k in m :: m[k].fx < n && h[m[k].fx].name == k && !m[k].seen
    ensures forall i | 0 <= i < n :: h[i].name in m
    ensures forall i | 0 <= i < n :: i <= m[h[i].name].fx
  {
    if n == 0 then map[]
    else
      var before, name := FilesOf(h, n - 1), h[n - 1].name;
      before[name := FileIndex(n - 1, false)]
  }

  lemma {:induction false} FilesOfNext(h: Header, n: nat)
    requires n < |h|
    ensures FilesOf(h, n + 1) == FilesOf(h, n)[h[n].name := FileIndex(n, false)]
  {
  }

  /** The members of a hard-link group among the first `n` records. */
  function Links(h: Header, n: nat, ino: nat): (r: seq<nat>)
    requires n <= |h|
    ensures forall i | 0 <= i < |r| :: r[i] < n && HardlinkIno(h[r[i]]) == ino && ino > 0
    ensures forall i, j | 0 <= i < j < |r| :: r[i] < r[j]
  {
    if n == 0 then []
    else Links(h, n - 1, ino) + (if ino > 0 && HardlinkIno(h[n - 1]) == ino then [n - 1] else [])
  }

  /** A group has exactly the records that count as hard links with its inode. */
  lemma {:induction false} LinksExactly(h: Header, n: nat, ino: nat, fx: nat)
    requires n <= |h|
    ensures fx in Links(h, n, ino) <==> fx < n && ino > 0 && HardlinkIno(h[fx]) == ino
  {
    hide HardlinkIno;
    if n > 0 { LinksExactly(h, n - 1, ino, fx); }
  }

  function InfoOf(h: Header, fx: nat): (r: Result<FileInfo, Error>)
    requires fx < |h|
    ensures r.Ok? ==> r.value.fx == fx && r.value.name == h[fx].name && r.value.isGhost == h[fx].isGhost
  {
    var f := h[fx];
    if f.isGhost then Ok(FileInfo(fx, f.name, true, 0, EMPTY_DIGEST, 0))
    else if f.digest.None? then Err(UnknownDigest)
    else Ok(FileInfo(fx, f.name, false, f.inode, f.digest.value, f.size))
  }

  // ---- one entry of the payload --------------------------------------------------------

  datatype Step = Skips | Delivers(infos: seq<FileInfo>, contents: string, files: FileMap) | Fails(error: Error)

  /** The name as a C string, without a leading dot before a slash. */
  function Normalized(name: string): string {
    var s := if |name| >= 2 && name[0] == '.' && name[1] == '/' then name[1..] else name;
    s[..ConstStringref.IndexOf(s, NUL)]
  }

  /** The map knows every record's name, and leads to a record of that name. */
  ghost predicate Indexes(files: FileMap, h: Header) {
    && (forall k | k in files :: files[k].fx < |h| && h[files[k].fx].name == k)
    && (forall i | 0 <= i < |h| :: h[i].name in files)
  }

  /** Only the marks differ. */
  ghost predicate SameIndexes(a: FileMap, b: FileMap) {
    a.Keys == b.Keys && forall k | k in a :: a[k].fx == b[k].fx
  }

  function Marked(files: FileMap, name: string): FileMap
    requires name in files
  {
    files[name := files[name].(seen := true)]
  }

  /** All members of a group are reported together, and none of them twice. */
  function Group(h: Header, links: seq<nat>, files: FileMap): (r: Result<(seq<FileInfo>, FileMap), Error>)
    requires Indexes(files, h) && forall i | 0 <= i < |links| :: links[i] < |h|
    ensures r.Ok? ==> SameIndexes(files, r.value.1)
    ensures r.Ok? ==> |r.value.0| == |links| && forall i | 0 <= i < |links| :: InfoOf(h, links[i]) == Ok(r.value.0[i])
  {
    if links == [] then Ok(([], files))
    else
      var info := InfoOf(h, links[0]);
      if info.Err? then Err(info.error)
      else if files[info.value.name].seen then Err(DuplicateFile)
      else
        var rest := Group(h, links[1..], Marked(files, info.value.name));
        if rest.Err? then rest else Ok(([info.value] + rest.value.0, rest.value.1))
  }

  predicate SameDigests(infos: seq<FileInfo>) {
    forall i | 0 <= i < |infos| :: infos[i].digest == infos[0].digest
  }

  function StepOver(h: Header, files: FileMap, name: string, contents: string): (r: Step)
    requires Indexes(files, h)
    ensures r.Delivers? ==> SameIndexes(files, r.files)
  {
    var key := Normalized(name);
    if key !in files then Fails(NotInHeader)
    else
      var fx := files[key].fx;
      var links := Links(h, |h|, h[fx].inode);
      if links == [] then
        if files[key].seen then Fails(DuplicateFile)
        else
          var info := InfoOf(h, fx);
          if info.Err? then Fails(info.error)
          else Delivers([info.value], if h[fx].isGhost then "" else contents, Marked(files, key))
      else if h[fx].size == |contents| then
        var group := Group(h, links, files);
        if group.Err? then Fails(group.error)
        else if !group.value.1[key].seen && !h[fx].isGhost then Fails(NotInGroup)
        else if !SameDigests(group.value.0) then Fails(DigestMismatch)
        else Delivers(group.value.0, contents, group.value.1)
      else if contents == "" then Skips
      else Fails(SizeMismatch)
  }

  // ---- reading ----------------------------------------------------------------------------

  datatype Report = Report(infos: seq<FileInfo>, contents: string)

  datatype Outcome = Entry(report: Report) | NoMore | Raised(error: Error)

  /** `ghosts` is the iterator over the files once the end marker has been reached. */
  datatype State = State(files: FileMap, pos: nat, ghosts: Option<Option<string>>)

  ghost predicate ValidState(h: Header, s: State) {
    Indexes(s.files, h) && (s.ghosts.Some? && s.ghosts.value.Some? ==> s.ghosts.value.value in s.files)
  }

  function Initial(h: Header): (s: State)
    ensures ValidState(h, s)
  {
    State(FilesOf(h, |h|), 0, None)
  }

  ghost function Ahead(files: FileMap, it: Option<string>): set<string> {
    set k | k in files.Keys && !Passed(k, it)
  }

  /** The next file that the payload did not contain; it must be a ghost. */
  function ReadGhost(h: Header, files: FileMap, it: Option<string>): (r: (Outcome, Option<string>))
    requires Indexes(files, h) && (it.Some? ==> it.value in files)
    ensures r.1.Some? ==> r.1.value in files
    ensures r.0.Entry? ==> Ahead(files, r.1) < Ahead(files, it)
    decreases Ahead(files, it)
  {
    if it.None? then (NoMore, None)
    else
      var next := NextString(files.Keys, it);
      var index := files[it.value];
      PassedNext(files.Keys, it.value, next);
      if index.seen then ReadGhost(h, files, next)
      else
        var info := InfoOf(h, index.fx);
        if info.Err? then (Raised(info.error), it)
        else if !info.value.isGhost then (Raised(MissingFile), it)
        else (Entry(Report([info.value], "")), next)
  }

  function ReadGhostFrom(h: Header, s: State, it: Option<string>): (r: (Outcome, State))
    requires Indexes(s.files, h) && (it.Some? ==> it.value in s.files)
    ensures ValidState(h, r.1)
  {
    var r := ReadGhost(h, s.files, it);
    (r.0, s.(ghosts := Some(r.1)))
  }

  /** One call: entries that only repeat a hard link are passed over. */
  function Read(h: Header, data: string, s: State): (r: (Outcome, State))
    requires ValidState(h, s)
    ensures ValidState(h, r.1)
    decreases |data| - s.pos
  {
    if s.ghosts.Some? then ReadGhostFrom(h, s, s.ghosts.value)
    else
      var item := ItemAt(data, s.pos);
      if item.Err? then (Raised(Payload(item.error)), s)
      else
        var t := s.(pos := item.value.next);
        if item.value.Trailer? then ReadGhostFrom(h, t, NextString(s.files.Keys, None))
        else
          match StepOver(h, s.files, item.value.name, item.value.contents)
          case Skips => Read(h, data, t)
          case Fails(e) => (Raised(e), t)
          case Delivers(infos, contents, files) => (Entry(Report(infos, contents)), t.(files := files))
  }

  /** The successive calls return `reports`, and then that there are no more. */
  ghost predicate IsRun(h: Header, data: string, s: State, reports: seq<Report>)
    requires ValidState(h, s)
    decreases |reports|
  {
    var r := Read(h, data, s);
    if reports == [] then r.0.NoMore?
    else r.0 == Entry(reports[0]) && IsRun(h, data, r.1, reports[1..])
  }

  // ---- the same in two passes ----------------------------------------------------------------

  predicate OnlyFiles(items: seq<Item>) { forall i | 0 <= i < |items| :: items[i].File? }

  /** What the entries of the payload report, and the marks they leave. */
  function Payloads(h: Header, items: seq<Item>, files: FileMap): (r: Result<(seq<Report>, FileMap), Error>)
    requires Indexes(files, h) && OnlyFiles(items)
    ensures r.Ok? ==> SameIndexes(files, r.value.1)
  {
    if items == [] then Ok(([], files))
    else
      match StepOver(h, files, items[0].name, items[0].contents)
      case Skips => Payloads(h, items[1..], files)
      case Fails(e) => Err(e)
      case Delivers(infos, contents, after) =>
        var rest := Payloads(h, items[1..], after);
        if rest.Err? then rest else Ok(([Report(infos, contents)] + rest.value.0, rest.value.1))
  }

  /** What is reported behind the end marker. */
  function Ghosts(h: Header, files: FileMap, it: Option<string>): Result<seq<Report>, Error>
    requires Indexes(files, h) && (it.Some? ==> it.value in files)
    decreases Ahead(files, it)
  {
    var r := ReadGhost(h, files, it);
    match r.0
    case NoMore => Ok([])
    case Raised(e) => Err(e)
    case Entry(report) =>
      var rest := Ghosts(h, files, r.1);
      if rest.Err? then rest else Ok([report] + rest.value)
  }

  /** All entries first, then all ghosts. */
  function AllReports(h: Header, data: string, files: FileMap, pos: nat): Result<seq<Report>, Error>
    requires Indexes(files, h)
  {
    var walk := Walk(data, pos);
    if walk.Err? then Err(Payload(walk.error))
    else
      var payloads := Payloads(h, walk.value.0, files);
      if payloads.Err? then Err(payloads.error)
      else
        var ghosts := Ghosts(h, payloads.value.1, NextString(files.Keys, None));
        if ghosts.Err? then ghosts else Ok(payloads.value.0 + ghosts.value)
  }

  // ---- a run is the two passes -----------------------------------------------------------------

  lemma {:induction false} GhostRun(h: Header, data: string, s: State, reports: seq<Report>)
    requires ValidState(h, s) && s.ghosts.Some?
    ensures IsRun(h, data, s, reports) <==> Ghosts(h, s.files, s.ghosts.value) == Ok(reports)
    decreases |reports|
  {
    hide ReadGhost, Indexes;
    var r := Read(h, data, s);
    if reports != [] {
      assert reports == [reports[0]] + reports[1..];
      if r.0.Entry? { GhostRun(h, data, r.1, reports[1..]); }
    }
  }

  /** Reading the end marker leaves the stream among the ghosts. */
  lemma {:induction false} EndMarker(h: Header, data: string, s: State, reports: seq<Report>)
    requires ValidState(h, s) && s.ghosts.None?
    requires ItemAt(data, s.pos).Ok? && ItemAt(data, s.pos).value.Trailer?
    ensures IsRun(h, data, s, reports) <==> Ghosts(h, s.files, NextString(s.files.Keys, None)) == Ok(reports)
  {
    hide ReadGhost, Ghosts, ItemAt, Indexes;
    var t := State(s.files, ItemAt(data, s.pos).value.next, Some(NextString(s.files.Keys, None)));
    GhostRun(h, data, t, reports);
    assert Read(h, data, s) == Read(h, data, t);
  }

  lemma {:induction false} IndexesKept(h: Header, files: FileMap, after: FileMap)
    requires Indexes(files, h) && SameIndexes(files, after)
    ensures Indexes(after, h)
  {
  }

  /** An entry that delivers something is in front of all other reports. */
  lemma {:induction false} AllReportsUnfold(h: Header, data: string, files: FileMap, pos: nat)
    requires Indexes(files, h) && ItemAt(data, pos).Ok? && ItemAt(data, pos).value.File?
    requires StepOver(h, files, ItemAt(data, pos).value.name, ItemAt(data, pos).value.contents).Delivers?
    ensures var item := ItemAt(data, pos).value;
            var step := StepOver(h, files, item.name, item.contents);
            var rest := AllReports(h, data, step.files, item.next);
            var all := AllReports(h, data, files, pos);
            && all.Ok? == rest.Ok?
            && (all.Ok? ==> all.value == [Report(step.infos, step.contents)] + rest.value)
  {
    hide Ghosts, ItemAt, Indexes, StepOver;
    var item := ItemAt(data, pos).value;
    var step := StepOver(h, files, item.name, item.contents);
    var rest := Walk(data, item.next);
    IndexesKept(h, files, step.files);
    if rest.Ok? {
      assert ([item] + rest.value.0)[1..] == rest.value.0;
      var tail := Payloads(h, rest.value.0, step.files);
      if tail.Ok? {
        IndexesKept(h, step.files, tail.value.1);
        var ghosts := Ghosts(h, tail.value.1, NextString(files.Keys, None));
        if ghosts.Ok? {
          assert ([Report(step.infos, step.contents)] + tail.value.0) + ghosts.value
              == [Report(step.infos, step.contents)] + (tail.value.0 + ghosts.value);
        }
      }
    }
  }

  lemma {:induction false} RunInTwoPasses(h: Header, data: string, s: State, reports: seq<Report>)
    requires ValidState(h, s) && s.ghosts.None?
    ensures IsRun(h, data, s, reports) <==> AllReports(h, data, s.files, s.pos) == Ok(reports)
    decreases |data| - s.pos
  {
    hide ReadGhost, Ghosts, ItemAt, Indexes, StepOver;
    var item := ItemAt(data, s.pos);
    if item.Ok? {
      if item.value.Trailer? {
        EndMarker(h, data, s, reports);
        var ghosts := Ghosts(h, s.files, NextString(s.files.Keys, None));
        if ghosts.Ok? { assert [] + ghosts.value == ghosts.value; }
      } else {
        var r := Read(h, data, s);
        match StepOver(h, s.files, item.value.name, item.value.contents)
        case Skips => RunInTwoPasses(h, data, s.(pos := item.value.next), reports);
        case Fails(e) =>
        case Delivers(infos, contents, files) =>
          AllReportsUnfold(h, data, s.files, s.pos);
          if reports != [] {
            assert reports == [reports[0]] + reports[1..];
            RunInTwoPasses(h, data, r.1, reports[1..]);
          }
      }
    }
  }

  // ---- every file exactly once -------------------------------------------------------------------

  /** How often `name` is reported. */
  function Times(infos: seq<FileInfo>, name: string): nat {
    if infos == [] then 0 else (if infos[0].name == name then 1 else 0) + Times(infos[1..], name)
  }

  function Occurrences(reports: seq<Report>, name: string): nat {
    if reports == [] then 0 else Times(reports[0].infos, name) + Occurrences(reports[1..], name)
  }

  lemma {:induction false} OccurrencesAppend(a: seq<Report>, b: seq<Report>, name: string)
    ensures Occurrences(a + b, name) == Occurrences(a, name) + Occurrences(b, name)
  {
    if a == [] {
      assert a + b == b;
    } else {
      assert (a + b)[1..] == a[1..] + b;
      OccurrencesAppend(a[1..], b, name);
    }
  }

  function Mark(files: FileMap, name: string): nat { if name in files && files[name].seen then 1 else 0 }

  /** A file is marked exactly when it is reported, and never before. */
  lemma {:induction false} GroupMarks(h: Header, links: seq<nat>, files: FileMap, name: string)
    requires Indexes(files, h) && forall i | 0 <= i < |links| :: links[i] < |h|
    ensures var r := Group(h, links, files);
            r.Ok? ==> Times(r.value.0, name) + Mark(files, name) == Mark(r.value.1, name)
  {
    if links != [] {
      var info := InfoOf(h, links[0]);
      if info.Ok? && !files[info.value.name].seen {
        var after := Marked(files, info.value.name);
        GroupMarks(h, links[1..], after, name);
        var rest := Group(h, links[1..], after);
        if rest.Ok? { assert ([info.value] + rest.value.0)[1..] == rest.value.0; }
      }
    }
  }

  lemma {:induction false} StepMarks(h: Header, files: FileMap, name: string, contents: string, k: string)
    requires Indexes(files, h)
    ensures var r := StepOver(h, files, name, contents);
            r.Delivers? ==> Times(r.infos, k) + Mark(files, k) == Mark(r.files, k)
  {
    hide Group, Normalized, SameDigests, Links;
    var key := Normalized(name);
    if key in files {
      var links := Links(h, |h|, h[files[key].fx].inode);
      if links != [] { GroupMarks(h, links, files, k); }
    }
  }

  lemma {:induction false} PayloadMarks(h: Header, items: seq<Item>, files: FileMap, k: string)
    requires Indexes(files, h) && OnlyFiles(items)
    ensures var r := Payloads(h, items, files);
            r.Ok? ==> Occurrences(r.value.0, k) + Mark(files, k) == Mark(r.value.1, k)
    decreases |items|
  {
    hide StepOver;
    if items != [] {
      StepMarks(h, files, items[0].name, items[0].contents, k);
      match StepOver(h, files, items[0].name, items[0].contents)
      case Skips => PayloadMarks(h, items[1..], files, k);
      case Fails(e) =>
      case Delivers(infos, contents, after) =>
        PayloadMarks(h, items[1..], after, k);
        var rest := Payloads(h, items[1..], after);
        if rest.Ok? { assert ([Report(infos, contents)] + rest.value.0)[1..] == rest.value.0; }
    }
  }

  /** A file that the iterator has yet to report. */
  function Pending(files: FileMap, it: Option<string>, name: string): nat {
    if name in files && !files[name].seen && !Passed(name, it) then 1 else 0
  }

  lemma {:induction false} GhostMarks(h: Header, files: FileMap, it: Option<string>, k: string)
    requires Indexes(files, h) && (it.Some? ==> it.value in files)
    ensures var r := ReadGhost(h, files, it);
            && (r.0.NoMore? ==> r.1.None? && Pending(files, it, k) == 0)
            && (r.0.Entry? ==> Times(r.0.report.infos, k) + Pending(files, r.1, k) == Pending(files, it, k))
    decreases Ahead(files, it)
  {
    if it.Some? {
      var next := NextString(files.Keys, it);
      PassedNext(files.Keys, it.value, next);
      LessIrreflexive(it.value);
      if files[it.value].seen { GhostMarks(h, files, next, k); }
    }
  }

  lemma {:induction false} GhostsMarks(h: Header, files: FileMap, it: Option<string>, k: string)
    requires Indexes(files, h) && (it.Some? ==> it.value in files)
    ensures var r := Ghosts(h, files, it);
            r.Ok? ==> Occurrences(r.value, k) == Pending(files, it, k)
    decreases Ahead(files, it)
  {
    hide ReadGhost, Indexes, Pending;
    GhostMarks(h, files, it, k);
    var r := ReadGhost(h, files, it);
    if r.0.Entry? {
      GhostsMarks(h, files, r.1, k);
      var rest := Ghosts(h, files, r.1);
      if rest.Ok? { assert ([r.0.report] + rest.value)[1..] == rest.value; }
    }
  }

  lemma {:induction false} NothingPassed(files: FileMap, k: string)
    requires k in files
    ensures !Passed(k, NextString(files.Keys, None))
  {
    assert AboveString(k, None);
  }

  ghost predicate Named(h: Header, name: string) { exists i :: 0 <= i < |h| && h[i].name == name }

  lemma {:induction false} FilesAreNamed(h: Header, name: string)
    ensures name in FilesOf(h, |h|) <==> Named(h, name)
  {
  }

  /** Every name of the header occurs exactly once in what a complete run reports, and no other name does. */
  lemma {:induction false} EveryFileOnce(h: Header, data: string, reports: seq<Report>, name: string)
    requires IsRun(h, data, Initial(h), reports)
    ensures Occurrences(reports, name) == if Named(h, name) then 1 else 0
  {
    hide Payloads, Ghosts, Walk, Indexes;
    var files := FilesOf(h, |h|);
    RunInTwoPasses(h, data, Initial(h), reports);
    FilesAreNamed(h, name);
    var payloads := Payloads(h, Walk(data, 0).value.0, files);
    var first := NextString(files.Keys, None);
    var after := payloads.value.1;
    PayloadMarks(h, Walk(data, 0).value.0, files, name);
    IndexesKept(h, files, after);
    GhostsMarks(h, after, first, name);
    OccurrencesAppend(payloads.value.0, Ghosts(h, after, first).value, name);
    if name in files { NothingPassed(files, name); }
  }

  // ---- where the reports come from ---------------------------------------------------------------

  /** The report is about the file the entry names, or about the whole group that file belongs to. */
  ghost predicate DeliveredBy(h: Header, files: FileMap, item: Item, report: Report)
    requires Indexes(files, h)
  {
    && item.File?
    && Normalized(item.name) in files
    && var fx := files[Normalized(item.name)].fx;
       var links := Links(h, |h|, h[fx].inode);
       if links == [] then
         && |report.infos| == 1 && InfoOf(h, fx) == Ok(report.infos[0])
         && report.contents == if h[fx].isGhost then "" else item.contents
       else
         && |item.contents| == h[fx].size && report.contents == item.contents
         && |report.infos| == |links|
         && (forall i | 0 <= i < |links| :: InfoOf(h, links[i]) == Ok(report.infos[i]))
         && SameDigests(report.infos)
  }

  ghost predicate IsGhostReport(h: Header, report: Report) {
    && |report.infos| == 1 && report.infos[0].isGhost && report.contents == ""
    && report.infos[0].fx < |h| && InfoOf(h, report.infos[0].fx) == Ok(report.infos[0])
  }

  lemma {:induction false} StepDelivers(h: Header, base: FileMap, files: FileMap, item: Item)
    requires Indexes(base, h) && Indexes(files, h) && SameIndexes(base, files) && item.File?
    ensures var r := StepOver(h, files, item.name, item.contents);
            r.Delivers? ==> DeliveredBy(h, base, item, Report(r.infos, r.contents))
  {
    hide Links, Group, SameDigests, Normalized, Indexes;
  }

  lemma {:induction false} PayloadOrigins(h: Header, items: seq<Item>, base: FileMap, files: FileMap, i: nat) returns (j: nat)
    requires Indexes(base, h) && Indexes(files, h) && SameIndexes(base, files) && OnlyFiles(items)
    requires Payloads(h, items, files).Ok? && i < |Payloads(h, items, files).value.0|
    ensures j < |items| && DeliveredBy(h, base, items[j], Payloads(h, items, files).value.0[i])
    decreases |items|
  {
    hide StepOver, DeliveredBy, Indexes;
    match StepOver(h, files, items[0].name, items[0].contents)
    case Skips =>
      j := PayloadOrigins(h, items[1..], base, files, i);
      j := j + 1;
    case Delivers(infos, contents, after) =>
      if i == 0 {
        StepDelivers(h, base, files, items[0]);
        j := 0;
      } else {
        IndexesKept(h, files, after);
        j := PayloadOrigins(h, items[1..], base, after, i - 1);
        j := j + 1;
      }
  }

  lemma {:induction false} GhostReport(h: Header, files: FileMap, it: Option<string>)
    requires Indexes(files, h) && (it.Some? ==> it.value in files)
    ensures var r := ReadGhost(h, files, it).0; r.Entry? ==> IsGhostReport(h, r.report)
    decreases Ahead(files, it)
  {
    if it.Some? {
      var next := NextString(files.Keys, it);
      PassedNext(files.Keys, it.value, next);
      if files[it.value].seen { GhostReport(h, files, next); }
    }
  }

  lemma {:induction false} GhostOrigins(h: Header, files: FileMap, it: Option<string>, i: nat)
    requires Indexes(files, h) && (it.Some? ==> it.value in files)
    requires Ghosts(h, files, it).Ok? && i < |Ghosts(h, files, it).value|
    ensures IsGhostReport(h, Ghosts(h, files, it).value[i])
    decreases Ahead(files, it)
  {
    hide ReadGhost, Indexes, IsGhostReport;
    GhostReport(h, files, it);
    if i > 0 { GhostOrigins(h, files, ReadGhost(h, files, it).1, i - 1); }
  }

  ghost predicate FromPayload(h: Header, data: string, report: Report) {
    && Walk(data, 0).Ok?
    && exists j :: 0 <= j < |Walk(data, 0).value.0|
                && DeliveredBy(h, FilesOf(h, |h|), Walk(data, 0).value.0[j], report)
  }

  /** A report that is not about a ghost carries the contents of an entry of the payload. */
  lemma {:induction false} ReportOrigins(h: Header, data: string, reports: seq<Report>, i: nat)
    requires IsRun(h, data, Initial(h), reports) && i < |reports|
    ensures reports[i].infos != []
    ensures FromPayload(h, data, reports[i]) || IsGhostReport(h, reports[i])
  {
    hide Payloads, Ghosts, Walk, Indexes, Links, Normalized;
    var files := FilesOf(h, |h|);
    RunInTwoPasses(h, data, Initial(h), reports);
    var items := Walk(data, 0).value.0;
    var payloads := Payloads(h, items, files).value;
    IndexesKept(h, files, payloads.1);
    if i < |payloads.0| {
      var j := PayloadOrigins(h, items, files, files, i);
    } else {
      GhostOrigins(h, payloads.1, NextString(files.Keys, None), i - |payloads.0|);
    }
  }
}
