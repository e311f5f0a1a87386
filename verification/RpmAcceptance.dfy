/**
  Which packages are read to their end: exactly those whose payload covers every
  file that is not a ghost, none of them twice. Also, hard-link groups are whole.
 */
module RpmAcceptance {
  import opened Wrappers
  import opened Ordering
  import opened CpioArchive
  import opened RpmPayload

  ghost predicate UniqueNames(h: Header) {
    forall i, j | 0 <= i < |h| && 0 <= j < |h| :: h[i].name == h[j].name ==> i == j
  }

  /** The group that the file's inode stands for; hard links need not count the file itself. */
  function GroupOf(h: Header, fx: nat): (r: seq<nat>)
    requires fx < |h|
    ensures forall i | 0 <= i < |r| :: r[i] < |h| && HardlinkIno(h[r[i]]) == h[fx].inode
    ensures r != [] ==> h[fx].inode > 0
    ensures forall i, j | 0 <= i < j < |r| :: r[i] < r[j]
  {
    var r := Links(h, |h|, h[fx].inode);
    assert r != [] ==> HardlinkIno(h[r[0]]) == h[fx].inode;
    r
  }

  // ---- groups are whole ---------------------------------------------------------------------------

  lemma {:induction false} Occurs(reports: seq<Report>, name: string) returns (i: nat, j: nat)
    requires Occurrences(reports, name) > 0
    ensures i < |reports| && j < |reports[i].infos| && reports[i].infos[j].name == name
  {
    if Times(reports[0].infos, name) > 0 {
      j := OccursIn(reports[0].infos, name);
      i := 0;
    } else {
      i, j := Occurs(reports[1..], name);
      i := i + 1;
    }
  }

  lemma {:induction false} OccursIn(infos: seq<FileInfo>, name: string) returns (j: nat)
    requires Times(infos, name) > 0
    ensures j < |infos| && infos[j].name == name
  {
    if infos[0].name == name {
      j := 0;
    } else {
      j := OccursIn(infos[1..], name);
      j := j + 1;
    }
  }

  ghost predicate IsGroupReport(h: Header, report: Report, ino: nat) {
    && |report.infos| == |Links(h, |h|, ino)|
    && forall i | 0 <= i < |report.infos| :: InfoOf(h, Links(h, |h|, ino)[i]) == Ok(report.infos[i])
  }

  /** A record's inode leads to its own group, if it is in one. */
  lemma {:induction false} SameGroup(h: Header, at: nat, fx: nat)
    requires at < |h| && fx < |h| && HardlinkIno(h[fx]) > 0
    ensures at == fx ==> fx in GroupOf(h, at)
    ensures fx in GroupOf(h, at) ==> GroupOf(h, at) == Links(h, |h|, HardlinkIno(h[fx]))
  {
    LinksExactly(h, |h|, HardlinkIno(h[fx]), fx);
  }

  lemma {:induction false} NamedBy(h: Header, info: FileInfo, at: nat, fx: nat)
    requires UniqueNames(h) && at < |h| && fx < |h| && InfoOf(h, at) == Ok(info) && info.name == h[fx].name
    ensures at == fx && info.isGhost == h[fx].isGhost
  {
  }

  /** An entry that delivers a hard link delivers its group. */
  lemma {:induction false} GroupDelivered(h: Header, item: Item, report: Report, fx: nat, j: nat)
    requires UniqueNames(h) && fx < |h| && HardlinkIno(h[fx]) > 0
    requires DeliveredBy(h, FilesOf(h, |h|), item, report) && j < |report.infos| && report.infos[j].name == h[fx].name
    ensures IsGroupReport(h, report, HardlinkIno(h[fx]))
  {
    hide Normalized, SameDigests, Links, FilesOf, InfoOf, HardlinkIno, UniqueNames;
    var at := FilesOf(h, |h|)[Normalized(item.name)].fx;
    SameGroup(h, at, fx);
    NamedBy(h, report.infos[j], if GroupOf(h, at) == [] then at else GroupOf(h, at)[j], fx);
  }

  /**
    A complete run reports the members of a hard-link group together, in one report that carries the
    contents; as every name is reported once, no other report is about any of them.
   */
  lemma {:induction false} GroupsAreWhole(h: Header, data: string, reports: seq<Report>, fx: nat) returns (i: nat)
    requires UniqueNames(h) && IsRun(h, data, Initial(h), reports)
    requires fx < |h| && HardlinkIno(h[fx]) > 0
    ensures i < |reports| && IsGroupReport(h, reports[i], HardlinkIno(h[fx])) && FromPayload(h, data, reports[i])
  {
    hide Walk, IsRun, DeliveredBy, FilesOf, IsGroupReport, Links, UniqueNames, InfoOf;
    EveryFileOnce(h, data, reports, h[fx].name);
    assert Named(h, h[fx].name);
    var j: nat;
    i, j := Occurs(reports, h[fx].name);
    ReportOrigins(h, data, reports, i);
    if IsGhostReport(h, reports[i]) {
      NamedBy(h, reports[i].infos[j], reports[i].infos[j].fx, fx);
    } else {
      var k: nat :| k < |Walk(data, 0).value.0| && DeliveredBy(h, FilesOf(h, |h|), Walk(data, 0).value.0[k], reports[i]);
      GroupDelivered(h, Walk(data, 0).value.0[k], reports[i], fx, j);
    }
  }

  // ---- ghosts that share an inode with a group --------------------------------------------------------

  /** The file is a ghost whose inode is that of a group, to which it does not belong. */
  predicate SharesInode(h: Header, fx: nat) { fx < |h| && h[fx].isGhost && GroupOf(h, fx) != [] }

  /** An entry for such a ghost that has the group's contents delivers the group, and leaves the ghost unmarked. */
  lemma {:induction false} GhostDeliversGroup(h: Header, files: FileMap, item: Item)
    requires UniqueNames(h) && Indexes(files, h) && item.File? && Normalized(item.name) in files
    requires SharesInode(h, files[Normalized(item.name)].fx)
    ensures var key := Normalized(item.name);
            var r := StepOver(h, files, item.name, item.contents);
            r.Delivers? ==>
              && IsGroupReport(h, Report(r.infos, r.contents), h[files[key].fx].inode) && r.contents == item.contents
              && Times(r.infos, key) == 0 && Mark(r.files, key) == Mark(files, key)
  {
    var key := Normalized(item.name);
    hide Normalized, Links, SameDigests;
    var r := StepOver(h, files, item.name, item.contents);
    if r.Delivers? {
      StepMarks(h, files, item.name, item.contents, key);
      if Times(r.infos, key) > 0 {
        var j := OccursIn(r.infos, key);
        NamedBy(h, r.infos[j], GroupOf(h, files[key].fx)[j], files[key].fx);
      }
    }
  }

  /** On a complete run such a ghost is still reported once, as a ghost without contents. */
  lemma {:induction false} SharingGhostReportedOnce(h: Header, data: string, reports: seq<Report>, fx: nat) returns (i: nat)
    requires UniqueNames(h) && IsRun(h, data, Initial(h), reports) && SharesInode(h, fx)
    ensures Occurrences(reports, h[fx].name) == 1
    ensures i < |reports| && IsGhostReport(h, reports[i]) && reports[i].infos[0].fx == fx
  {
    hide Walk, IsRun, DeliveredBy, FilesOf, Links, UniqueNames, InfoOf;
    EveryFileOnce(h, data, reports, h[fx].name);
    assert Named(h, h[fx].name);
    var j: nat;
    i, j := Occurs(reports, h[fx].name);
    ReportOrigins(h, data, reports, i);
    if IsGhostReport(h, reports[i]) {
      NamedBy(h, reports[i].infos[j], reports[i].infos[j].fx, fx);
    } else {
      var k: nat :| k < |Walk(data, 0).value.0| && DeliveredBy(h, FilesOf(h, |h|), Walk(data, 0).value.0[k], reports[i]);
      SharingGhostNotDelivered(h, Walk(data, 0).value.0[k], reports[i], fx, j);
    }
  }

  lemma {:induction false} SharingGhostNotDelivered(h: Header, item: Item, report: Report, fx: nat, j: nat)
    requires UniqueNames(h) && SharesInode(h, fx)
    requires DeliveredBy(h, FilesOf(h, |h|), item, report) && j < |report.infos|
    ensures report.infos[j].name != h[fx].name
  {
    hide Normalized, SameDigests, Links, FilesOf, InfoOf, UniqueNames;
    var at := FilesOf(h, |h|)[Normalized(item.name)].fx;
    if report.infos[j].name == h[fx].name {
      NamedBy(h, report.infos[j], if GroupOf(h, at) == [] then at else GroupOf(h, at)[j], fx);
    }
  }

  // ---- packages read to their end -------------------------------------------------------------------

  predicate HasInfo(h: Header, fx: nat)
    requires fx < |h|
  {
    h[fx].isGhost || h[fx].digest.Some?
  }

  predicate InLinks(h: Header, links: seq<nat>, name: string)
    requires forall i | 0 <= i < |links| :: links[i] < |h|
  {
    exists i :: 0 <= i < |links| && h[links[i]].name == name
  }

  /** The record that the entry is about. */
  function About(files: FileMap, item: Item): Option<nat>
    requires item.File?
  {
    var key := Normalized(item.name);
    if key in files then Some(files[key].fx) else None
  }

  /** The entry reports the file `name`. */
  predicate Covers(h: Header, files: FileMap, item: Item, name: string)
    requires item.File? && Indexes(files, h)
  {
    var fx := About(files, item);
    && fx.Some?
    && if GroupOf(h, fx.value) == [] then name == Normalized(item.name)
       else h[fx.value].size == |item.contents| && InLinks(h, GroupOf(h, fx.value), name)
  }

  predicate SameHeaderDigests(h: Header, links: seq<nat>)
    requires forall i | 0 <= i < |links| :: links[i] < |h|
  {
    forall i | 0 <= i < |links| :: h[links[i]].digest == h[links[0]].digest
  }

  /** The entry is in order by itself. */
  ghost predicate Acceptable(h: Header, files: FileMap, item: Item)
    requires item.File? && Indexes(files, h)
  {
    var fx := About(files, item);
    && fx.Some?
    && var links := GroupOf(h, fx.value);
       if links == [] then HasInfo(h, fx.value)
       else if h[fx.value].size == |item.contents| then
         && AllInfo(h, links)
         && SameHeaderDigests(h, links)
         && (h[fx.value].isGhost || fx.value in links)
       else item.contents == ""
  }

  /** A strictly increasing list of records, such as a group. */
  ghost predicate IsGroup(h: Header, links: seq<nat>) {
    && (forall i | 0 <= i < |links| :: links[i] < |h|)
    && (forall i, j | 0 <= i < j < |links| :: links[i] < links[j])
  }

  ghost predicate AllInfo(h: Header, links: seq<nat>)
    requires IsGroup(h, links)
  {
    forall i | 0 <= i < |links| :: HasInfo(h, links[i])
  }

  ghost predicate Unmarked(files: FileMap, h: Header, links: seq<nat>)
    requires IsGroup(h, links)
  {
    forall i | 0 <= i < |links| :: Mark(files, h[links[i]].name) == 0
  }

  lemma {:induction false} TailInfo(h: Header, links: seq<nat>)
    requires IsGroup(h, links) && links != []
    ensures IsGroup(h, links[1..])
    ensures AllInfo(h, links) <==> HasInfo(h, links[0]) && AllInfo(h, links[1..])
  {
    hide HasInfo;
    assert forall i | 0 < i < |links| :: links[i] == links[1..][i - 1];
  }

  lemma {:induction false} TailUnmarked(files: FileMap, h: Header, links: seq<nat>)
    requires UniqueNames(h) && IsGroup(h, links) && links != [] && h[links[0]].name in files
    requires Mark(files, h[links[0]].name) == 0
    ensures IsGroup(h, links[1..])
    ensures Unmarked(files, h, links) <==> Unmarked(Marked(files, h[links[0]].name), h, links[1..])
  {
    var after := Marked(files, h[links[0]].name);
    forall i | 0 < i < |links|
      ensures links[i] == links[1..][i - 1] && Mark(after, h[links[i]].name) == Mark(files, h[links[i]].name)
    {
      assert links[0] < links[i];
    }
  }

  lemma {:induction false} MarkedIndexes(files: FileMap, h: Header, name: string)
    requires Indexes(files, h) && name in files
    ensures Indexes(Marked(files, name), h) && SameIndexes(files, Marked(files, name))
  {
  }

  /** A group is delivered exactly if none of its members was. */
  lemma {:induction false} GroupAccepts(h: Header, links: seq<nat>, files: FileMap)
    requires UniqueNames(h) && Indexes(files, h) && IsGroup(h, links)
    ensures Group(h, links, files).Ok? <==> AllInfo(h, links) && Unmarked(files, h, links)
    decreases |links|
  {
    hide UniqueNames, Marked;
    if links != [] {
      var name := h[links[0]].name;
      TailInfo(h, links);
      if Mark(files, name) == 0 {
        TailUnmarked(files, h, links);
        MarkedIndexes(files, h, name);
        GroupAccepts(h, links[1..], Marked(files, name));
      }
    }
  }

  lemma {:induction false} TimesInLinks(h: Header, links: seq<nat>, infos: seq<FileInfo>, name: string)
    requires IsGroup(h, links) && |infos| == |links|
    requires forall i | 0 <= i < |links| :: InfoOf(h, links[i]) == Ok(infos[i])
    ensures Times(infos, name) > 0 <==> InLinks(h, links, name)
    decreases |links|
  {
    hide InfoOf;
    if links != [] {
      assert forall i | 0 < i < |links| :: links[i] == links[1..][i - 1] && infos[i] == infos[1..][i - 1];
      TimesInLinks(h, links[1..], infos[1..], name);
      assert infos[0].name == h[links[0]].name;
    }
  }

  lemma {:induction false} GroupMarksLinks(h: Header, links: seq<nat>, files: FileMap, name: string)
    requires Indexes(files, h) && IsGroup(h, links) && Group(h, links, files).Ok?
    ensures Mark(Group(h, links, files).value.1, name) == 1 <==> Mark(files, name) == 1 || InLinks(h, links, name)
  {
    hide Indexes, Mark, InLinks, Times;
    GroupMarks(h, links, files, name);
    TimesInLinks(h, links, Group(h, links, files).value.0, name);
    MarkIsBinary(files, name);
    MarkIsBinary(Group(h, links, files).value.1, name);
  }

  lemma {:induction false} MarkIsBinary(files: FileMap, name: string)
    ensures Mark(files, name) <= 1
  {
  }

  lemma {:induction false} GroupDigests(h: Header, links: seq<nat>, infos: seq<FileInfo>)
    requires IsGroup(h, links) && |infos| == |links|
    requires forall i | 0 <= i < |links| :: InfoOf(h, links[i]) == Ok(infos[i]) && !h[links[i]].isGhost
    ensures SameDigests(infos) <==> SameHeaderDigests(h, links)
  {
    assert forall i | 0 <= i < |links| :: h[links[i]].digest == Some(infos[i].digest);
    hide InfoOf, IsGroup;
  }

  /** What was reported and shares an inode with a group is a member of it. */
  ghost predicate Explained(h: Header, files: FileMap)
    requires Indexes(files, h)
  {
    forall k | k in files && files[k].seen :: GroupOf(h, files[k].fx) == [] || files[k].fx in GroupOf(h, files[k].fx)
  }

  ghost predicate UncoveredSoFar(h: Header, files: FileMap, item: Item)
    requires item.File? && Indexes(files, h)
  {
    forall k :: Covers(h, files, item, k) ==> Mark(files, k) == 0
  }

  function AfterStep(step: Step, files: FileMap): FileMap { if step.Delivers? then step.files else files }

  /** The marks behind the entry are those before it and the files it covers. */
  ghost predicate MarksCovered(h: Header, files: FileMap, item: Item, after: FileMap)
    requires item.File? && Indexes(files, h)
  {
    forall k :: Mark(after, k) == 1 <==> Mark(files, k) == 1 || Covers(h, files, item, k)
  }

  lemma {:induction false} SingleAccepts(h: Header, files: FileMap, item: Item)
    requires item.File? && Indexes(files, h) && About(files, item).Some? && GroupOf(h, About(files, item).value) == []
    ensures var r := StepOver(h, files, item.name, item.contents);
            && !r.Skips?
            && (r.Delivers? <==> Acceptable(h, files, item) && UncoveredSoFar(h, files, item))
            && (r.Delivers? ==> MarksCovered(h, files, item, r.files))
  {
    hide Normalized, Group, Links;
    var key := Normalized(item.name);
    assert Covers(h, files, item, key) && forall k :: Covers(h, files, item, k) <==> k == key;
  }

  lemma {:induction false} PartialAccepts(h: Header, files: FileMap, item: Item)
    requires item.File? && Indexes(files, h) && About(files, item).Some? && GroupOf(h, About(files, item).value) != []
    requires h[About(files, item).value].size != |item.contents|
    ensures var r := StepOver(h, files, item.name, item.contents);
            && !r.Delivers?
            && (r.Skips? <==> Acceptable(h, files, item))
            && UncoveredSoFar(h, files, item) && MarksCovered(h, files, item, files)
  {
    hide Normalized, Group, Links;
    assert forall k :: !Covers(h, files, item, k);
  }

  lemma {:induction false} LinksAreGroup(h: Header, fx: nat)
    requires fx < |h|
    ensures IsGroup(h, GroupOf(h, fx))
    ensures forall i | 0 <= i < |GroupOf(h, fx)| :: !h[GroupOf(h, fx)[i]].isGhost
  {
    hide Links;
  }

  /** The file the entry names is marked by its group exactly if it belongs to it. */
  lemma {:induction false} NamedInGroup(h: Header, files: FileMap, key: string)
    requires UniqueNames(h) && Indexes(files, h) && Explained(h, files)
    requires key in files && GroupOf(h, files[key].fx) != []
    ensures Mark(files, key) == 1 || InLinks(h, GroupOf(h, files[key].fx), key) <==> files[key].fx in GroupOf(h, files[key].fx)
  {
    hide Links;
  }

  lemma {:induction false} GroupUncovered(h: Header, files: FileMap, item: Item)
    requires item.File? && Indexes(files, h)
    requires About(files, item).Some? && GroupOf(h, About(files, item).value) != []
    requires h[About(files, item).value].size == |item.contents|
    ensures IsGroup(h, GroupOf(h, About(files, item).value))
    ensures Unmarked(files, h, GroupOf(h, About(files, item).value)) <==> UncoveredSoFar(h, files, item)
  {
    hide Normalized, Links, Mark;
    var links := GroupOf(h, About(files, item).value);
    forall i | 0 <= i < |links| ensures Covers(h, files, item, h[links[i]].name) {
      assert InLinks(h, links, h[links[i]].name);
    }
  }

  lemma {:induction false} FullAccepts(h: Header, files: FileMap, item: Item)
    requires UniqueNames(h) && item.File? && Indexes(files, h) && Explained(h, files)
    requires About(files, item).Some? && GroupOf(h, About(files, item).value) != []
    requires h[About(files, item).value].size == |item.contents|
    ensures var r := StepOver(h, files, item.name, item.contents);
            && !r.Skips?
            && (r.Delivers? <==> Acceptable(h, files, item) && UncoveredSoFar(h, files, item))
            && (r.Delivers? ==> MarksCovered(h, files, item, r.files))
  {
    hide Normalized, Group, UniqueNames, Explained, SameDigests, SameHeaderDigests, AllInfo, InLinks, Links, IsGroup, UncoveredSoFar, Unmarked;
    var fx := About(files, item).value;
    var links := GroupOf(h, fx);
    LinksAreGroup(h, fx);
    NamedInGroup(h, files, Normalized(item.name));
    GroupAccepts(h, links, files);
    assert forall k :: Covers(h, files, item, k) <==> InLinks(h, links, k);
    if AllInfo(h, links) && Unmarked(files, h, links) {
      var group := Group(h, links, files).value;
      forall k ensures Mark(group.1, k) == 1 <==> Mark(files, k) == 1 || InLinks(h, links, k) {
        GroupMarksLinks(h, links, files, k);
      }
      GroupDigests(h, links, group.0);
    }
    GroupUncovered(h, files, item);
  }

  /** An entry is read over exactly if it is in order and none of the files it covers was reported. */
  lemma {:induction false} StepAccepts(h: Header, files: FileMap, item: Item)
    requires UniqueNames(h) && item.File? && Indexes(files, h) && Explained(h, files)
    ensures var r := StepOver(h, files, item.name, item.contents);
            && (!r.Fails? <==> Acceptable(h, files, item) && UncoveredSoFar(h, files, item))
            && (!r.Fails? ==> MarksCovered(h, files, item, AfterStep(r, files)))
  {
    hide MarksCovered, UncoveredSoFar, UniqueNames, Explained;
    var fx := About(files, item);
    if fx.Some? {
      hide StepOver, Acceptable;
      if GroupOf(h, fx.value) == [] { SingleAccepts(h, files, item); }
      else if h[fx.value].size == |item.contents| { FullAccepts(h, files, item); }
      else { PartialAccepts(h, files, item); }
    }
  }

  /** The file of a record that makes a group fail, and why. */
  lemma {:induction false} WhyGroupRejected(h: Header, links: seq<nat>, files: FileMap) returns (i: nat)
    requires UniqueNames(h) && Indexes(files, h) && IsGroup(h, links) && Group(h, links, files).Err?
    ensures i < |links|
    ensures var e := Group(h, links, files).error;
            || (e == UnknownDigest && !h[links[i]].isGhost && h[links[i]].digest.None?)
            || (e == DuplicateFile && Mark(files, h[links[i]].name) == 1)
    decreases |links|
  {
    hide UniqueNames, Marked;
    var name := h[links[0]].name;
    i := 0;
    if InfoOf(h, links[0]).Ok? && Mark(files, name) == 0 {
      TailUnmarked(files, h, links);
      MarkedIndexes(files, h, name);
      i := WhyGroupRejected(h, links[1..], Marked(files, name));
      MarkedOther(h, links, files, i + 1);
      i := i + 1;
    }
  }

  lemma {:induction false} MarkedOther(h: Header, links: seq<nat>, files: FileMap, i: nat)
    requires UniqueNames(h) && IsGroup(h, links) && 0 < i < |links| && h[links[0]].name in files
    ensures links[1..][i - 1] == links[i]
    ensures Mark(Marked(files, h[links[0]].name), h[links[i]].name) == Mark(files, h[links[i]].name)
  {
    assert links[0] < links[i];
  }

  /** Why an entry is rejected. */
  lemma {:induction false} WhyRejected(h: Header, files: FileMap, item: Item)
    requires UniqueNames(h) && item.File? && Indexes(files, h) && StepOver(h, files, item.name, item.contents).Fails?
    ensures var e := StepOver(h, files, item.name, item.contents).error;
            var fx := About(files, item);
            match e
            case NotInHeader => fx == None
            case DuplicateFile => exists k :: Covers(h, files, item, k) && Mark(files, k) == 1
            case UnknownDigest => exists gx :: 0 <= gx < |h| && !h[gx].isGhost && h[gx].digest.None? && Covers(h, files, item, h[gx].name)
            case SizeMismatch => fx.Some? && GroupOf(h, fx.value) != [] && h[fx.value].size != |item.contents| && item.contents != ""
            case DigestMismatch => fx.Some? && GroupOf(h, fx.value) != [] && !SameHeaderDigests(h, GroupOf(h, fx.value))
            case NotInGroup => fx.Some? && GroupOf(h, fx.value) != [] && !h[fx.value].isGhost && fx.value !in GroupOf(h, fx.value)
            case _ => false
  {
    var fx := About(files, item);
    if fx.Some? {
      var links := GroupOf(h, fx.value);
      if links == [] {
        SingleRejected(h, files, item);
      } else if h[fx.value].size == |item.contents| {
        GroupRejected(h, files, item);
      } else {
        hide Normalized, Links, Group;
      }
    }
  }

  lemma {:induction false} SingleRejected(h: Header, files: FileMap, item: Item)
    requires item.File? && Indexes(files, h) && About(files, item).Some? && GroupOf(h, About(files, item).value) == []
    requires StepOver(h, files, item.name, item.contents).Fails?
    ensures var e := StepOver(h, files, item.name, item.contents).error;
            || (e == DuplicateFile && exists k :: Covers(h, files, item, k) && Mark(files, k) == 1)
            || (e == UnknownDigest && exists gx :: 0 <= gx < |h| && !h[gx].isGhost && h[gx].digest.None? && Covers(h, files, item, h[gx].name))
  {
    hide Normalized, Links, Group;
    var fx := About(files, item).value;
    assert Covers(h, files, item, h[fx].name);
  }

  lemma {:induction false} GroupRejected(h: Header, files: FileMap, item: Item)
    requires UniqueNames(h) && item.File? && Indexes(files, h)
    requires About(files, item).Some? && GroupOf(h, About(files, item).value) != []
    requires h[About(files, item).value].size == |item.contents|
    requires StepOver(h, files, item.name, item.contents).Fails?
    ensures var e := StepOver(h, files, item.name, item.contents).error;
            var fx := About(files, item).value;
            || (e == DuplicateFile && exists k :: Covers(h, files, item, k) && Mark(files, k) == 1)
            || (e == UnknownDigest && exists gx :: 0 <= gx < |h| && !h[gx].isGhost && h[gx].digest.None? && Covers(h, files, item, h[gx].name))
            || (e == DigestMismatch && !SameHeaderDigests(h, GroupOf(h, fx)))
            || (e == NotInGroup && !h[fx].isGhost && fx !in GroupOf(h, fx))
  {
    var fx := About(files, item).value;
    var links := GroupOf(h, fx);
    LinksAreGroup(h, fx);
    hide Normalized, Links, Group, UniqueNames, SameDigests, SameHeaderDigests;
    var group := Group(h, links, files);
    if group.Err? {
      var i := WhyGroupRejected(h, links, files);
      assert InLinks(h, links, h[links[i]].name);
    } else {
      GroupDigests(h, links, group.value.0);
      GroupMarksLinks(h, links, files, Normalized(item.name));
      if fx in links {
        var i :| 0 <= i < |links| && links[i] == fx;
        assert InLinks(h, links, Normalized(item.name));
      }
    }
  }

  /** What a record covers does not depend on the marks. */
  lemma {:induction false} SameCovers(h: Header, base: FileMap, files: FileMap, item: Item)
    requires item.File? && Indexes(base, h) && Indexes(files, h) && SameIndexes(base, files)
    ensures Acceptable(h, base, item) <==> Acceptable(h, files, item)
    ensures forall k :: Covers(h, base, item, k) <==> Covers(h, files, item, k)
  {
    hide Normalized, GroupOf;
    assert About(base, item) == About(files, item);
  }

  lemma {:induction false} ExplainedKept(h: Header, files: FileMap, item: Item, after: FileMap)
    requires UniqueNames(h) && item.File? && Indexes(files, h) && SameIndexes(files, after) && Indexes(after, h)
    requires Explained(h, files) && MarksCovered(h, files, item, after)
    ensures Explained(h, after)
  {
    hide Normalized;
    forall k | k in after && after[k].seen && !files[k].seen
      ensures GroupOf(h, after[k].fx) == [] || after[k].fx in GroupOf(h, after[k].fx)
    {
      assert Mark(after, k) == 1 && Mark(files, k) == 0 && Covers(h, files, item, k);
      var fx := after[k].fx;
      if GroupOf(h, About(files, item).value) != [] { SameGroup(h, fx, fx); }
    }
  }

  // ---- the whole payload --------------------------------------------------------------------------

  ghost predicate Apart(h: Header, files: FileMap, items: seq<Item>)
    requires OnlyFiles(items) && Indexes(files, h)
  {
    forall i, j, k | 0 <= i < j < |items| :: !(Covers(h, files, items[i], k) && Covers(h, files, items[j], k))
  }

  ghost predicate CoveredBy(h: Header, files: FileMap, items: seq<Item>, name: string)
    requires OnlyFiles(items) && Indexes(files, h)
  {
    exists i :: 0 <= i < |items| && Covers(h, files, items[i], name)
  }

  /** Every entry is in order, and none covers a file that is marked or that another entry covers. */
  ghost predicate InOrder(h: Header, base: FileMap, files: FileMap, items: seq<Item>)
    requires OnlyFiles(items) && Indexes(base, h)
  {
    && (forall i | 0 <= i < |items| :: Acceptable(h, base, items[i]))
    && (forall i, k | 0 <= i < |items| && Covers(h, base, items[i], k) :: Mark(files, k) == 0)
    && Apart(h, base, items)
  }

  /** The first entry separately, the marks it leaves counting for the others. */
  lemma {:induction false} InOrderUnfold(h: Header, base: FileMap, files: FileMap, items: seq<Item>, after: FileMap)
    requires items != [] && OnlyFiles(items) && Indexes(base, h)
    requires forall k :: Mark(after, k) == 1 <==> Mark(files, k) == 1 || Covers(h, base, items[0], k)
    ensures InOrder(h, base, files, items)
       <==> Acceptable(h, base, items[0]) && (forall k :: Covers(h, base, items[0], k) ==> Mark(files, k) == 0)
            && InOrder(h, base, after, items[1..])
  {
    hide Covers, Acceptable, Indexes;
    var rest := items[1..];
    assert forall i | 0 < i < |items| :: items[i] == rest[i - 1];
    forall k ensures Mark(files, k) <= 1 && Mark(after, k) <= 1 { }
    hide Mark;
    if InOrder(h, base, files, items) {
      forall i, k | 0 <= i < |rest| && Covers(h, base, rest[i], k) ensures Mark(after, k) == 0 {
        assert rest[i] == items[i + 1];
      }
      forall i, j, k | 0 <= i < j < |rest|
        ensures !(Covers(h, base, rest[i], k) && Covers(h, base, rest[j], k))
      {
        assert rest[i] == items[i + 1] && rest[j] == items[j + 1];
      }
    }
    if InOrder(h, base, after, rest) {
      forall i, j, k | 0 < i < j < |items|
        ensures !(Covers(h, base, items[i], k) && Covers(h, base, items[j], k))
      {
        assert items[i] == rest[i - 1] && items[j] == rest[j - 1];
      }
      forall j, k | 0 < j < |items| && Covers(h, base, items[j], k)
        ensures Mark(files, k) == 0 && !Covers(h, base, items[0], k)
      {
        assert items[j] == rest[j - 1];
      }
    }
  }

  lemma {:induction false} CoveredByUnfold(h: Header, base: FileMap, items: seq<Item>, name: string)
    requires items != [] && OnlyFiles(items) && Indexes(base, h)
    ensures CoveredBy(h, base, items, name) <==> Covers(h, base, items[0], name) || CoveredBy(h, base, items[1..], name)
  {
    hide Covers;
    var rest := items[1..];
    assert forall i | 0 < i < |items| :: items[i] == rest[i - 1];
    if i :| 0 <= i < |rest| && Covers(h, base, rest[i], name) { assert rest[i] == items[i + 1]; }
  }

  /** The payload is read over exactly if its entries are in order; then the marks are the files it covers. */
  lemma {:induction false} PayloadAccepts(h: Header, base: FileMap, items: seq<Item>, files: FileMap)
    requires UniqueNames(h) && OnlyFiles(items)
    requires Indexes(base, h) && Indexes(files, h) && SameIndexes(base, files) && Explained(h, files)
    ensures Payloads(h, items, files).Ok? <==> InOrder(h, base, files, items)
    ensures Payloads(h, items, files).Ok? ==>
              forall k :: Mark(Payloads(h, items, files).value.1, k) == 1
                     <==> Mark(files, k) == 1 || CoveredBy(h, base, items, k)
    decreases |items|
  {
    hide Covers, Acceptable, Indexes, StepOver, UniqueNames, Explained, Mark, SameIndexes;
    if items != [] {
      hide InOrder, CoveredBy;
      var step := StepOver(h, files, items[0].name, items[0].contents);
      var after := AfterStep(step, files);
      StepAccepts(h, files, items[0]);
      SameCovers(h, base, files, items[0]);
      if !step.Fails? {
        NextFiles(h, base, files, items[0]);
        InOrderUnfold(h, base, files, items, after);
        PayloadAccepts(h, base, items[1..], after);
        forall k { CoveredByUnfold(h, base, items, k); }
      } else {
        NotInOrder(h, base, files, items);
      }
    }
  }

  lemma {:induction false} NextFiles(h: Header, base: FileMap, files: FileMap, item: Item)
    requires UniqueNames(h) && item.File? && Indexes(base, h) && Indexes(files, h)
    requires SameIndexes(base, files) && Explained(h, files)
    ensures var step := StepOver(h, files, item.name, item.contents);
            var after := AfterStep(step, files);
            !step.Fails? ==> Indexes(after, h) && SameIndexes(base, after) && Explained(h, after)
  {
    hide MarksCovered, Explained, UniqueNames;
    var step := StepOver(h, files, item.name, item.contents);
    StepAccepts(h, files, item);
    hide StepOver;
    if step.Delivers? {
      IndexesKept(h, files, step.files);
      ExplainedKept(h, files, item, step.files);
    }
  }

  lemma {:induction false} NotInOrder(h: Header, base: FileMap, files: FileMap, items: seq<Item>)
    requires items != [] && OnlyFiles(items) && Indexes(base, h) && Indexes(files, h) && SameIndexes(base, files)
    requires !(Acceptable(h, files, items[0]) && UncoveredSoFar(h, files, items[0]))
    ensures !InOrder(h, base, files, items)
  {
    SameCovers(h, base, files, items[0]);
    hide Covers, Acceptable, Indexes;
  }

  // ---- the ghosts ----------------------------------------------------------------------------------

  /** The iterator past the marked files and one missing file, which must be a ghost. */
  lemma {:induction false} GhostsUnfold(h: Header, files: FileMap, at: string)
    requires Indexes(files, h) && at in files
    ensures Ghosts(h, files, Some(at)).Ok?
       <==> (files[at].seen || h[files[at].fx].isGhost) && Ghosts(h, files, NextString(files.Keys, Some(at))).Ok?
  {
    hide Indexes;
    var next := NextString(files.Keys, Some(at));
    PassedNext(files.Keys, at, next);
    if files[at].seen {
      assert ReadGhost(h, files, Some(at)) == ReadGhost(h, files, next);
    }
  }

  /** The ghosts are read to their end exactly if nothing else is missing. */
  lemma {:induction false} GhostsAccept(h: Header, files: FileMap, it: Option<string>)
    requires Indexes(files, h) && (it.Some? ==> it.value in files)
    ensures Ghosts(h, files, it).Ok? <==> forall k | k in files && Pending(files, it, k) == 1 :: h[files[k].fx].isGhost
    decreases Ahead(files, it)
  {
    if it.Some? {
      var next := NextString(files.Keys, it);
      PassedNext(files.Keys, it.value, next);
      LessIrreflexive(it.value);
      GhostsAccept(h, files, next);
      GhostsUnfold(h, files, it.value);
    }
  }

  /** Why they are not: a file that is no ghost was not in the payload. */
  lemma {:induction false} WhyGhostsRejected(h: Header, files: FileMap, it: Option<string>) returns (k: string)
    requires Indexes(files, h) && (it.Some? ==> it.value in files) && Ghosts(h, files, it).Err?
    ensures k in files && Pending(files, it, k) == 1 && !h[files[k].fx].isGhost
    ensures Ghosts(h, files, it).error == if h[files[k].fx].digest.Some? then MissingFile else UnknownDigest
    decreases Ahead(files, it)
  {
    var at := it.value;
    var next := NextString(files.Keys, it);
    PassedNext(files.Keys, at, next);
    LessIrreflexive(at);
    k := at;
    if files[at].seen {
      assert ReadGhost(h, files, it) == ReadGhost(h, files, next);
      k := WhyGhostsRejected(h, files, next);
    } else if h[files[at].fx].isGhost {
      k := WhyGhostsRejected(h, files, next);
    }
  }

  // ---- the whole package ---------------------------------------------------------------------------

  ghost predicate CanBeRead(h: Header, data: string) {
    exists reports :: IsRun(h, data, Initial(h), reports)
  }

  /** Each file that is not a ghost is covered by one entry, no file by two, and every entry is in order. */
  ghost predicate WellFormed(h: Header, items: seq<Item>)
    requires OnlyFiles(items)
  {
    var files := FilesOf(h, |h|);
    && (forall i | 0 <= i < |items| :: Acceptable(h, files, items[i]))
    && Apart(h, files, items)
    && (forall fx | 0 <= fx < |h| && !h[fx].isGhost :: CoveredBy(h, files, items, h[fx].name))
  }

  lemma {:induction false} InitialMarks(h: Header, name: string)
    ensures Mark(FilesOf(h, |h|), name) == 0
  {
    hide FilesOf;
  }

  lemma {:induction false} InitiallyExplained(h: Header)
    ensures Indexes(FilesOf(h, |h|), h) && Explained(h, FilesOf(h, |h|))
  {
    hide FilesOf;
  }

  /** Behind an orderly payload, only ghosts are pending exactly if everything else was covered. */
  lemma {:induction false} GhostsAcceptCovered(h: Header, items: seq<Item>, after: FileMap)
    requires UniqueNames(h) && OnlyFiles(items)
    requires SameIndexes(FilesOf(h, |h|), after) && Indexes(after, h)
    requires forall k :: Mark(after, k) == 1 <==> CoveredBy(h, FilesOf(h, |h|), items, k)
    ensures Ghosts(h, after, NextString(after.Keys, None)).Ok?
       <==> forall fx | 0 <= fx < |h| && !h[fx].isGhost :: CoveredBy(h, FilesOf(h, |h|), items, h[fx].name)
  {
    hide FilesOf, CoveredBy;
    var first := NextString(after.Keys, None);
    GhostsAccept(h, after, first);
    forall k | k in after ensures Pending(after, first, k) == 1 <==> Mark(after, k) == 0 {
      NothingPassed(after, k);
    }
    hide Ghosts, Pending;
    forall fx | 0 <= fx < |h| ensures h[fx].name in after && after[h[fx].name].fx == fx { }
  }

  /**
    A package is read to its end exactly if its payload is an archive that covers every file but the
    ghosts, each once. Where a file is missing, repeated or not in the header, or a group disagrees
    about digests, reading raises an error instead.
   */
  lemma {:induction false} ReadExactlyIfWellFormed(h: Header, data: string)
    requires UniqueNames(h)
    ensures CanBeRead(h, data) <==> Walk(data, 0).Ok? && WellFormed(h, Walk(data, 0).value.0)
  {
    var files := FilesOf(h, |h|);
    var all := AllReports(h, data, files, 0);
    assert CanBeRead(h, data) <==> all.Ok? by {
      hide AllReports, IsRun;
      forall reports ensures IsRun(h, data, Initial(h), reports) <==> all == Ok(reports) {
        RunInTwoPasses(h, data, Initial(h), reports);
      }
      if all.Ok? { assert IsRun(h, data, Initial(h), all.value); }
    }
    if Walk(data, 0).Ok? { PassesIfWellFormed(h, data); }
  }

  lemma {:induction false} PassesIfWellFormed(h: Header, data: string)
    requires UniqueNames(h) && Walk(data, 0).Ok?
    ensures AllReports(h, data, FilesOf(h, |h|), 0).Ok? <==> WellFormed(h, Walk(data, 0).value.0)
  {
    hide Walk, FilesOf, UniqueNames, Explained, Acceptable, Apart, CoveredBy, Payloads, Ghosts, Covers, Mark;
    var files := FilesOf(h, |h|);
    var items := Walk(data, 0).value.0;
    InitiallyExplained(h);
    PayloadAccepts(h, files, items, files);
    forall k ensures Mark(files, k) == 0 { InitialMarks(h, k); }
    var payloads := Payloads(h, items, files);
    if payloads.Ok? {
      IndexesKept(h, files, payloads.value.1);
      GhostsAcceptCovered(h, items, payloads.value.1);
    }
  }
}
