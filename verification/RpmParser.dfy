/** The package reader: it steps through the payload, marks files as seen and then turns to the ghosts. */
module RpmParser {
  import opened Wrappers
  import opened Ordering
  import opened CpioArchive
  import opened RpmPayload
  import RpmAcceptance

  /** Values stored under equal keys keep the order of their insertion. */
  type Multimap = map<nat, seq<nat>>

  function EqualRange(m: Multimap, key: nat): seq<nat> { if key in m then m[key] else [] }

  function Inserted(m: Multimap, key: nat, value: nat): Multimap { m[key := EqualRange(m, key) + [value]] }

  method CheckDigests(infos: seq<FileInfo>) returns (same: bool)
    requires infos != []
    ensures same == SameDigests(infos)
  {
    for i := 1 to |infos|
      invariant forall k | 0 <= k < i :: infos[k].digest == infos[0].digest
    {
      if infos[i].digest != infos[0].digest { return false; }
    }
    return true;
  }

  /** What a loop that has collected `infos` makes of the rest. */
  ghost function Prepended(infos: seq<FileInfo>, rest: Result<(seq<FileInfo>, FileMap), RpmPayload.Error>)
    : Result<(seq<FileInfo>, FileMap), RpmPayload.Error>
  {
    if rest.Err? then rest else Ok((infos + rest.value.0, rest.value.1))
  }

  lemma {:induction false} GroupUnfold(h: Header, links: seq<nat>, i: nat, files: FileMap, infos: seq<FileInfo>)
    requires Indexes(files, h) && i < |links| && forall k | 0 <= k < |links| :: links[k] < |h|
    ensures var info := InfoOf(h, links[i]);
            Prepended(infos, Group(h, links[i..], files)) ==
              if info.Err? then Err(info.error)
              else if files[info.value.name].seen then Err(DuplicateFile)
              else Prepended(infos + [info.value], Group(h, links[i + 1..], Marked(files, info.value.name)))
  {
    hide InfoOf;
    assert links[i..][0] == links[i] && links[i..][1..] == links[i + 1..];
    var info := InfoOf(h, links[i]);
    if info.Ok? && !files[info.value.name].seen {
      var rest := Group(h, links[i + 1..], Marked(files, info.value.name));
      if rest.Ok? { assert infos + ([info.value] + rest.value.0) == infos + [info.value] + rest.value.0; }
    }
  }

  lemma {:induction false} GroupStart(h: Header, links: seq<nat>, files: FileMap)
    requires Indexes(files, h) && forall k | 0 <= k < |links| :: links[k] < |h|
    ensures Group(h, links, files) == Prepended([], Group(h, links[0..], files))
  {
    var group := Group(h, links, files);
    assert links[0..] == links;
    if group.Ok? { assert [] + group.value.0 == group.value.0; }
  }

  lemma {:induction false} GroupEnd(h: Header, links: seq<nat>, files: FileMap, infos: seq<FileInfo>)
    requires Indexes(files, h)
    ensures links[|links|..] == [] && Prepended(infos, Group(h, links[|links|..], files)) == Ok((infos, files))
  {
    assert infos + [] == infos;
  }

  lemma {:induction false} EmptyIndex(h: Header)
    ensures FilesOf(h, 0) == map[]
    ensures forall ino :: EqualRange(map[], ino) == Links(h, 0, ino)
  {
  }

  /** One more record in the index of hard links. */
  lemma {:induction false} InsertedLinks(m: Multimap, h: Header, n: nat)
    requires n < |h| && forall ino :: EqualRange(m, ino) == Links(h, n, ino)
    ensures var ino := HardlinkIno(h[n]);
            var after := if ino > 0 then Inserted(m, ino, n) else m;
            forall other :: EqualRange(after, other) == Links(h, n + 1, other)
  {
    hide HardlinkIno;
  }

  ghost function Stage(s: State): nat { if s.ghosts.None? then 1 else 0 }

  ghost function Left(s: State): set<string> { if s.ghosts.None? then {} else Ahead(s.files, s.ghosts.value) }

  /** Every report brings the end closer. */
  lemma {:induction false} ReadAdvances(h: Header, data: string, s: State)
    requires ValidState(h, s) && Read(h, data, s).0.Entry?
    ensures var t := Read(h, data, s).1;
            || Stage(t) < Stage(s)
            || (Stage(t) == Stage(s) && s.pos < t.pos <= |data|)
            || (Stage(t) == Stage(s) && t.pos == s.pos && Left(t) < Left(s))
    decreases |data| - s.pos
  {
    hide Indexes, ReadGhost, StepOver;
    if s.ghosts.None? {
      var item := ItemAt(data, s.pos);
      if item.Ok? && item.value.File? && StepOver(h, s.files, item.value.name, item.value.contents).Skips? {
        ReadAdvances(h, data, s.(pos := item.value.next));
      }
    }
  }

  /** Behind `reports` the reader is in state `s`: the complete runs are those that go on from there. */
  ghost predicate Continues(h: Header, data: string, reports: seq<Report>, s: State)
    requires ValidState(h, s)
  {
    forall all :: IsRun(h, data, Initial(h), all) <==> reports <= all && IsRun(h, data, s, all[|reports|..])
  }

  lemma {:induction false} ContinuesFromStart(h: Header, data: string)
    ensures Continues(h, data, [], Initial(h))
  {
    hide IsRun, Initial;
    forall all: seq<Report> ensures all[0..] == all { }
  }

  /** One more report taken from a run. */
  lemma {:induction false} RunBehind(h: Header, data: string, reports: seq<Report>, s: State, all: seq<Report>)
    requires ValidState(h, s) && Read(h, data, s).0.Entry?
    ensures var (r, t) := Read(h, data, s);
            var longer := reports + [r.report];
            reports <= all && IsRun(h, data, s, all[|reports|..]) <==> longer <= all && IsRun(h, data, t, all[|longer|..])
  {
    hide ValidState, Read;
    var longer := reports + [Read(h, data, s).0.report];
    if reports < all {
      var rest := all[|reports|..];
      assert rest[1..] == all[|longer|..] && rest[0] == all[|reports|];
      assert longer <= all <==> rest[0] == longer[|reports|];
    } else if reports <= all {
      assert all[|reports|..] == [];
    }
  }

  lemma {:induction false} ContinuesBehind(h: Header, data: string, reports: seq<Report>, s: State)
    requires ValidState(h, s) && Continues(h, data, reports, s) && Read(h, data, s).0.Entry?
    ensures Continues(h, data, reports + [Read(h, data, s).0.report], Read(h, data, s).1)
  {
    hide IsRun, Initial, Read;
    forall all: seq<Report> { RunBehind(h, data, reports, s, all); }
  }

  lemma {:induction false} ContinuesToEnd(h: Header, data: string, reports: seq<Report>, s: State)
    requires ValidState(h, s) && Continues(h, data, reports, s) && !Read(h, data, s).0.Entry?
    ensures Read(h, data, s).0.NoMore? ==> IsRun(h, data, Initial(h), reports)
    ensures Read(h, data, s).0.Raised? ==> !RpmAcceptance.CanBeRead(h, data)
  {
    hide Read, Initial;
    assert reports[|reports|..] == [];
  }

  class RpmParser {
    const header: Header
    const data: string
    var payloadIsOpen: bool
    var pos: nat
    var files: FileMap
    var hardlinks: Multimap
    var reachedGhosts: bool
    var ghostFiles: Option<string>

    ghost function Abstract(): State
      reads this
    {
      if !payloadIsOpen then Initial(header)
      else State(files, pos, if reachedGhosts then Some(ghostFiles) else None)
    }

    ghost predicate Valid()
      reads this
    {
      && ValidState(header, Abstract())
      && (payloadIsOpen ==> forall ino :: EqualRange(hardlinks, ino) == Links(header, |header|, ino))
    }

    constructor (header: Header, data: string)
      ensures Valid() && this.header == header && this.data == data && Abstract() == Initial(header)
    {
      this.header, this.data := header, data;
      payloadIsOpen, pos, files, hardlinks, reachedGhosts, ghostFiles := false, 0, map[], map[], false, None;
    }

    method GetFilesFromHeader()
      modifies this`files, this`hardlinks
      ensures files == FilesOf(header, |header|)
      ensures forall ino :: EqualRange(hardlinks, ino) == Links(header, |header|, ino)
    {
      hide EqualRange, Links, FilesOf, HardlinkIno, Inserted;
      files, hardlinks := map[], map[];
      EmptyIndex(header);
      for i := 0 to |header|
        invariant files == FilesOf(header, i)
        invariant forall ino :: EqualRange(hardlinks, ino) == Links(header, i, ino)
      {
        FilesOfNext(header, i);
        InsertedLinks(hardlinks, header, i);
        files := files[header[i].name := FileIndex(i, false)];
        var ino := HardlinkIno(header[i]);
        if ino > 0 { hardlinks := Inserted(hardlinks, ino, i); }
      }
    }

    method OpenPayload()
      requires Valid() && !payloadIsOpen && pos == 0 && !reachedGhosts
      modifies this
      ensures Valid() && payloadIsOpen && Abstract() == old(Abstract())
    {
      hide FilesOf, Links, EqualRange;
      GetFilesFromHeader();
      payloadIsOpen := true;
    }

    /** The next ghost; it is an error if another file was not in the payload. */
    method ReadFileGhost() returns (r: Outcome)
      requires Valid() && payloadIsOpen && reachedGhosts
      modifies this`ghostFiles
      ensures Valid() && (r, ghostFiles) == ReadGhost(header, files, old(ghostFiles))
    {
      while ghostFiles.Some?
        invariant Valid()
        invariant ReadGhost(header, files, ghostFiles) == ReadGhost(header, files, old(ghostFiles))
        decreases Ahead(files, ghostFiles)
      {
        PassedNext(files.Keys, ghostFiles.value, NextString(files.Keys, ghostFiles));
        var index := files[ghostFiles.value];
        if !index.seen {
          var info := InfoOf(header, index.fx);
          if info.Err? { return Raised(info.error); }
          if !info.value.isGhost { return Raised(MissingFile); }
          ghostFiles := NextString(files.Keys, ghostFiles);
          return Entry(Report([info.value], ""));
        }
        ghostFiles := NextString(files.Keys, ghostFiles);
      }
      return NoMore;
    }

    /** Marks all members of a group as seen, none of which is a ghost. */
    method ReadGroup(links: seq<nat>) returns (r: Result<seq<FileInfo>, RpmPayload.Error>)
      requires Indexes(files, header)
      requires forall i | 0 <= i < |links| :: links[i] < |header| && HardlinkIno(header[links[i]]) > 0
      modifies this`files
      ensures SameIndexes(old(files), files)
      ensures match Group(header, links, old(files))
              case Ok(group) => r == Ok(group.0) && files == group.1
              case Err(e) => r == Err(e)
    {
      hide Group, InfoOf, Marked;
      var infos: seq<FileInfo> := [];
      GroupStart(header, links, files);
      for i := 0 to |links|
        invariant SameIndexes(old(files), files) && Indexes(files, header)
        invariant Group(header, links, old(files)) == Prepended(infos, Group(header, links[i..], files))
      {
        GroupUnfold(header, links, i, files, infos);
        var info := InfoOf(header, links[i]);
        if info.Err? { return Err(info.error); }
        assert !info.value.isGhost;
        RpmAcceptance.MarkedIndexes(files, header, info.value.name);
        if files[info.value.name].seen { return Err(DuplicateFile); }
        files := Marked(files, info.value.name);
        infos := infos + [info.value];
      }
      GroupEnd(header, links, files, infos);
      return Ok(infos);
    }
  
    /** The entry's file, or its group if the entry carries the group's contents; no infos if it is only another link. */
    method Deliver(name: string, contents: string) returns (r: Result<Report, RpmPayload.Error>)
      requires Valid() && payloadIsOpen && !reachedGhosts
      modifies this`files
      ensures SameIndexes(old(files), files)
      ensures match StepOver(header, old(files), name, contents)
              case Skips => r == Ok(Report([], "")) && files == old(files)
              case Delivers(infos, shown, after) => r == Ok(Report(infos, shown)) && infos != [] && files == after
              case Fails(e) => r == Err(e)
    {
      hide Normalized, Group, SameDigests, Links, FilesOf, HardlinkIno, EqualRange;
      var key := Normalized(name);
      if key !in files { return Err(NotInHeader); }
      var fx := files[key].fx;
      var links := EqualRange(hardlinks, header[fx].inode);
      if links == [] {
        if files[key].seen { return Err(DuplicateFile); }
        var info := InfoOf(header, fx);
        if info.Err? { return Err(info.error); }
        files := Marked(files, key);
        return Ok(Report([info.value], if info.value.isGhost then "" else contents));
      }
      if header[fx].size == |contents| {
        var infos := ReadGroup(links);
        if infos.Err? { return Err(infos.error); }
        if !files[key].seen && !header[fx].isGhost { return Err(NotInGroup); }
        var same := CheckDigests(infos.value);
        if !same { return Err(DigestMismatch); }
        return Ok(Report(infos.value, contents));
      }
      if contents == "" { return Ok(Report([], "")); }
      return Err(SizeMismatch);
    }

    /** The next report; only entries that repeat a hard link are passed over. */
    method ReadFile() returns (r: Outcome)
      requires Valid() && (!payloadIsOpen ==> pos == 0 && !reachedGhosts)
      modifies this
      ensures Valid() && payloadIsOpen
      ensures r == Read(header, data, old(Abstract())).0
      ensures !r.Raised? ==> Abstract() == Read(header, data, old(Abstract())).1
    {
      hide Indexes, SameIndexes, ItemAt, StepOver, ReadGhost, FilesOf, Links, EqualRange;
      if !payloadIsOpen { OpenPayload(); }
      while true
        invariant Valid() && payloadIsOpen
        invariant Read(header, data, Abstract()) == Read(header, data, old(Abstract()))
        decreases |data| - pos
      {
        if reachedGhosts {
          r := ReadFileGhost();
          return;
        }
        var item := ReadItem(data, pos);
        if item.Err? { return Raised(Payload(item.error)); }
        pos := item.value.next;
        if item.value.Trailer? {
          reachedGhosts, ghostFiles := true, NextString(files.Keys, None);
          r := ReadFileGhost();
          return;
        }
        ghost var before := files;
        var report := Deliver(item.value.name, item.value.contents);
        IndexesKept(header, before, files);
        if report.Err? { return Raised(report.error); }
        if report.value.infos != [] { return Entry(report.value); }
      }
    }

    /** Reads the package as its users do, until there are no more files. */
    method ReadAll() returns (r: Result<seq<Report>, RpmPayload.Error>)
      requires Valid() && !payloadIsOpen && pos == 0 && !reachedGhosts
      modifies this
      ensures r.Ok? ==> IsRun(header, data, Initial(header), r.value)
      ensures r.Ok? <==> RpmAcceptance.CanBeRead(header, data)
    {
      hide Indexes, Read, FilesOf, Links, EqualRange, IsRun, Continues;
      var reports: seq<Report> := [];
      ContinuesFromStart(header, data);
      while true
        invariant Valid() && (!payloadIsOpen ==> pos == 0 && !reachedGhosts)
        invariant Continues(header, data, reports, Abstract())
        decreases Stage(Abstract()), |data| - Abstract().pos, Left(Abstract())
      {
        ghost var s := Abstract();
        var next := ReadFile();
        match next
        case NoMore =>
          ContinuesToEnd(header, data, reports, s);
          return Ok(reports);
        case Raised(e) =>
          ContinuesToEnd(header, data, reports, s);
          return Err(e);
        case Entry(report) =>
          ContinuesBehind(header, data, reports, s);
          ReadAdvances(header, data, s);
          reports := reports + [report];
      }
    }
  }
}
