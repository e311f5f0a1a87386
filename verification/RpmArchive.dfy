/**
  Packages as they are written: an archive whose members are named after the
  records of the header, with or without a leading dot. Which archives are read,
  and what is reported, in terms of the members and the records alone.
 */
module RpmArchive {
  import opened Wrappers
  import opened Bytes
  import opened Sequences
  import opened Cpio
  import opened CpioArchive
  import ConstStringref
  import opened RpmPayload
  import opened RpmAcceptance

  // ---- names ------------------------------------------------------------------------

  predicate Absolute(name: string) { name != "" && name[0] == '/' && NUL !in name }

  /** Names in a header are distinct absolute paths. */
  ghost predicate ProperNames(h: Header) { UniqueNames(h) && forall fx | 0 <= fx < |h| :: Absolute(h[fx].name) }

  /** An absolute path, with or without a dot in front, is the name of its file. */
  lemma {:induction false} NormalizedName(name: string)
    requires Absolute(name)
    ensures Normalized("." + name + [NUL]) == name && Normalized(name + [NUL]) == name
  {
    var dotted, plain := "." + name + [NUL], name + [NUL];
    assert dotted[1..] == plain;
    UpToNul(name);
  }

  lemma {:induction false} UpToNul(name: string)
    requires NUL !in name
    ensures ConstStringref.IndexOf(name + [NUL], NUL) == |name| && (name + [NUL])[..|name|] == name
  {
    var i := ConstStringref.IndexOf(name + [NUL], NUL);
    assert (name + [NUL])[|name|] == NUL && forall j | 0 <= j < |name| :: (name + [NUL])[j] == name[j] && name[j] in name;
  }

  /** No other name is. */
  lemma {:induction false} NamedOnlySo(name: string, file: string)
    requires Absolute(file) && NUL !in name && Normalized(name + [NUL]) == file
    ensures name == file || name == "." + file
  {
    var s := name + [NUL];
    if |s| >= 2 && s[0] == '.' && s[1] == '/' {
      assert name[0] == '.' && s[1..] == name[1..] + [NUL];
      UpToNul(name[1..]);
    } else {
      UpToNul(name);
    }
  }

  /** The member is about the record. */
  predicate IsAbout(h: Header, m: Member, fx: nat) { fx < |h| && (m.name == h[fx].name || m.name == "." + h[fx].name) }

  /** Each member is about the record that `about` says. */
  ghost predicate AllAbout(h: Header, ms: seq<Member>, about: seq<nat>) {
    |about| == |ms| && forall i | 0 <= i < |ms| :: about[i] < |h| && IsAbout(h, ms[i], about[i])
  }

  // ---- what an archive must be ----------------------------------------------------------

  /** The record is one of several names of a file with contents. */
  predicate Linked(h: Header, fx: nat)
    requires fx < |h|
  {
    h[fx].nlink > 1 && h[fx].regular && h[fx].size != 0 && !h[fx].isGhost && h[fx].inode > 0
  }

  predicate InGroup(h: Header, ino: nat, gx: nat) { gx < |h| && Linked(h, gx) && h[gx].inode == ino }

  ghost predicate HasGroup(h: Header, ino: nat) { exists gx: nat :: InGroup(h, ino, gx) }

  /** The member delivers record `gx`: the file it is about, or with the contents of a group all of the group. */
  ghost predicate Ships(h: Header, m: Member, fx: nat, gx: nat)
    requires fx < |h|
  {
    if HasGroup(h, h[fx].inode) then |m.contents| == h[fx].size && InGroup(h, h[fx].inode, gx) else gx == fx
  }

  /** A member by itself: digests are known and agree, and a hard link comes with all of the contents or with none. */
  ghost predicate Orderly(h: Header, m: Member, fx: nat)
    requires fx < |h|
  {
    var ino := h[fx].inode;
    if !HasGroup(h, ino) then h[fx].isGhost || h[fx].digest.Some?
    else if |m.contents| == h[fx].size then
      && (h[fx].isGhost || Linked(h, fx))
      && (forall gx: nat | InGroup(h, ino, gx) :: h[gx].digest.Some?)
      && (forall gx: nat, kx: nat | InGroup(h, ino, gx) && InGroup(h, ino, kx) :: h[gx].digest == h[kx].digest)
    else m.contents == ""
  }

  /** Every member is in order, no record is delivered twice, and only ghosts are missing. */
  ghost predicate Complete(h: Header, ms: seq<Member>, about: seq<nat>)
    requires AllAbout(h, ms, about)
  {
    && (forall i | 0 <= i < |ms| :: Orderly(h, ms[i], about[i]))
    && (forall i, j, gx: nat | 0 <= i < j < |ms| :: !(Ships(h, ms[i], about[i], gx) && Ships(h, ms[j], about[j], gx)))
    && (forall gx | 0 <= gx < |h| && !h[gx].isGhost :: exists i :: 0 <= i < |ms| && Ships(h, ms[i], about[i], gx))
  }

  // ---- groups ----------------------------------------------------------------------------

  lemma {:induction false} GroupMembers(h: Header, ino: nat, gx: nat)
    ensures gx in Links(h, |h|, ino) <==> InGroup(h, ino, gx)
    ensures HasGroup(h, ino) <==> Links(h, |h|, ino) != []
  {
    GroupMember(h, ino, gx);
    hide Links, InGroup;
    if Links(h, |h|, ino) != [] { GroupMember(h, ino, Links(h, |h|, ino)[0]); }
    if kx: nat :| InGroup(h, ino, kx) { GroupMember(h, ino, kx); }
  }

  lemma {:induction false} GroupMember(h: Header, ino: nat, gx: nat)
    ensures gx in Links(h, |h|, ino) <==> InGroup(h, ino, gx)
  {
    LinksExactly(h, |h|, ino, gx);
    hide Links;
  }

  lemma {:induction false} GroupNames(h: Header, ino: nat, gx: nat)
    requires UniqueNames(h) && gx < |h|
    ensures InLinks(h, Links(h, |h|, ino), h[gx].name) <==> InGroup(h, ino, gx)
  {
    hide Links, HardlinkIno, InGroup;
    var links := Links(h, |h|, ino);
    GroupMembers(h, ino, gx);
    if InLinks(h, links, h[gx].name) {
      var i :| 0 <= i < |links| && h[links[i]].name == h[gx].name;
      assert links[i] == gx;
    }
    if gx in links { var i :| 0 <= i < |links| && links[i] == gx; }
  }

  // ---- an entry of the payload, and the member it comes from -----------------------------------

  ghost predicate ItemFor(item: Item, m: Member) {
    item.File? && item.name == m.name + [NUL] && item.contents == m.contents
  }

  lemma {:induction false} AboutRecord(h: Header, item: Item, m: Member, fx: nat)
    requires ProperNames(h) && ItemFor(item, m) && IsAbout(h, m, fx)
    ensures About(FilesOf(h, |h|), item) == Some(fx) && Normalized(item.name) == h[fx].name
  {
    NormalizedName(h[fx].name);
    hide Normalized;
    var files := FilesOf(h, |h|);
    assert h[fx].name in files && h[files[h[fx].name].fx].name == h[fx].name;
  }

  lemma {:induction false} CoversRecord(h: Header, item: Item, m: Member, fx: nat, gx: nat)
    requires ProperNames(h) && ItemFor(item, m) && IsAbout(h, m, fx) && gx < |h|
    ensures Indexes(FilesOf(h, |h|), h)
    ensures Covers(h, FilesOf(h, |h|), item, h[gx].name) <==> Ships(h, m, fx, gx)
  {
    AboutRecord(h, item, m, fx);
    FoundRecord(h, FilesOf(h, |h|), item, m, fx, gx);
  }

  lemma {:induction false} FoundRecord(h: Header, files: FileMap, item: Item, m: Member, fx: nat, gx: nat)
    requires UniqueNames(h) && item.File? && item.contents == m.contents && fx < |h| && gx < |h|
    requires Indexes(files, h) && About(files, item) == Some(fx) && Normalized(item.name) == h[fx].name
    ensures Covers(h, files, item, h[gx].name) <==> Ships(h, m, fx, gx)
  {
    GroupMembers(h, h[fx].inode, gx);
    GroupNames(h, h[fx].inode, gx);
    assert gx != fx ==> h[gx].name != h[fx].name;
    hide Normalized, Links, HasGroup, InGroup, InLinks, About, UniqueNames, Indexes;
  }

  /** Only records of the header are covered. */
  lemma {:induction false} CoversOnlyRecords(h: Header, item: Item, m: Member, fx: nat, name: string) returns (gx: nat)
    requires ProperNames(h) && ItemFor(item, m) && IsAbout(h, m, fx)
    requires Indexes(FilesOf(h, |h|), h) && Covers(h, FilesOf(h, |h|), item, name)
    ensures gx < |h| && h[gx].name == name
  {
    AboutRecord(h, item, m, fx);
    hide Normalized, FilesOf, Links;
    if GroupOf(h, fx) == [] {
      gx := fx;
    } else {
      var i :| 0 <= i < |GroupOf(h, fx)| && h[GroupOf(h, fx)[i]].name == name;
      gx := GroupOf(h, fx)[i];
    }
  }

  lemma {:induction false} DigestsAgree(h: Header, ino: nat)
    requires IsGroup(h, Links(h, |h|, ino))
    ensures AllInfo(h, Links(h, |h|, ino)) <==> forall gx: nat | InGroup(h, ino, gx) :: h[gx].digest.Some?
    ensures SameHeaderDigests(h, Links(h, |h|, ino)) <==>
              forall gx: nat, kx: nat | InGroup(h, ino, gx) && InGroup(h, ino, kx) :: h[gx].digest == h[kx].digest
  {
    var links := Links(h, |h|, ino);
    forall gx: nat ensures gx in links <==> InGroup(h, ino, gx) { GroupMembers(h, ino, gx); }
    hide Links, IsGroup;
    forall i | 0 <= i < |links| ensures InGroup(h, ino, links[i]) { assert links[i] in links; }
    if AllInfo(h, links) {
      forall gx: nat | InGroup(h, ino, gx) ensures h[gx].digest.Some? {
        assert gx in links;
        var i :| 0 <= i < |links| && links[i] == gx;
        assert HasInfo(h, links[i]);
      }
    }
    if SameHeaderDigests(h, links) {
      forall gx: nat, kx: nat | InGroup(h, ino, gx) && InGroup(h, ino, kx) ensures h[gx].digest == h[kx].digest {
        assert gx in links && kx in links;
      }
    }
  }

  lemma {:induction false} OrderlyEntry(h: Header, item: Item, m: Member, fx: nat)
    requires ProperNames(h) && ItemFor(item, m) && IsAbout(h, m, fx)
    ensures Indexes(FilesOf(h, |h|), h)
    ensures Acceptable(h, FilesOf(h, |h|), item) <==> Orderly(h, m, fx)
  {
    AboutRecord(h, item, m, fx);
    AcceptableInGroup(h, item, fx);
    hide FilesOf, Acceptable, Orderly, About, Normalized;
    OrderlyInGroup(h, m, fx);
  }

  /** What order asks for, with the group as a list. */
  lemma {:induction false} OrderlyInGroup(h: Header, m: Member, fx: nat)
    requires fx < |h|
    ensures var links := Links(h, |h|, h[fx].inode);
            IsGroup(h, links) &&
            (Orderly(h, m, fx) <==>
              if links == [] then HasInfo(h, fx)
              else if h[fx].size == |m.contents| then AllInfo(h, links) && SameHeaderDigests(h, links) && (h[fx].isGhost || fx in links)
              else m.contents == "")
  {
    GroupMembers(h, h[fx].inode, fx);
    LinksAreGroup(h, fx);
    DigestsAgree(h, h[fx].inode);
    InOwnGroup(h, fx);
    hide Links, HasGroup, AllInfo, SameHeaderDigests, InGroup, Linked, IsGroup;
  }

  lemma {:induction false} InOwnGroup(h: Header, fx: nat)
    requires fx < |h|
    ensures InGroup(h, h[fx].inode, fx) <==> Linked(h, fx)
  {
  }

  /** What acceptance asks for, with the group as a list. */
  lemma {:induction false} AcceptableInGroup(h: Header, item: Item, fx: nat)
    requires item.File? && fx < |h| && Indexes(FilesOf(h, |h|), h) && About(FilesOf(h, |h|), item) == Some(fx)
    ensures var links := Links(h, |h|, h[fx].inode);
            IsGroup(h, links) &&
            (Acceptable(h, FilesOf(h, |h|), item) <==>
              if links == [] then HasInfo(h, fx)
              else if h[fx].size == |item.contents| then AllInfo(h, links) && SameHeaderDigests(h, links) && (h[fx].isGhost || fx in links)
              else item.contents == "")
  {
    LinksAreGroup(h, fx);
    hide Normalized, FilesOf, Links, HasInfo, AllInfo, SameHeaderDigests, About;
  }

  // ---- the whole archive -----------------------------------------------------------------

  /**
    An archive of members that are about records of the header is read to its end exactly if it is
    complete: this is said without reference to how names and groups are looked up.
   */
  lemma {:induction false} ArchiveIsRead(h: Header, ms: seq<Member>, trailer: Member, about: seq<nat>)
    requires ProperNames(h) && IsTrailerMember(trailer) && AllFiles(ms) && AllAbout(h, ms, about)
    ensures CanBeRead(h, PrintedArchive(ms, trailer)) <==> Complete(h, ms, about)
  {
    var data, items := PrintedArchive(ms, trailer), ItemsOf(ms, 0);
    assert Holds(data, 0, data);
    ArchiveRoundTrip(data, 0, ms, trailer);
    ReadExactlyIfWellFormed(h, data);
    assert forall i | 0 <= i < |ms| :: ItemFor(items[i], ms[i]);
    hide Walk, PrintedArchive, ItemsOf, AllFiles, CanBeRead, WellFormed, Complete;
    WellFormedIfComplete(h, items, ms, about);
  }

  lemma {:induction false} WellFormedIfComplete(h: Header, items: seq<Item>, ms: seq<Member>, about: seq<nat>)
    requires ProperNames(h) && AllAbout(h, ms, about)
    requires |items| == |ms| && forall i | 0 <= i < |ms| :: ItemFor(items[i], ms[i])
    ensures OnlyFiles(items) && (WellFormed(h, items) <==> Complete(h, ms, about))
  {
    hide FilesOf, Acceptable, Orderly, Covers, Ships, Apart, ProperNames, CoveredBy, IsAbout;
    var files := FilesOf(h, |h|);
    ApartIfShippedOnce(h, items, ms, about);
    forall i | 0 <= i < |ms| ensures Acceptable(h, files, items[i]) <==> Orderly(h, ms[i], about[i]) {
      OrderlyEntry(h, items[i], ms[i], about[i]);
    }
    forall gx: nat | gx < |h|
      ensures CoveredBy(h, files, items, h[gx].name) <==> exists i :: 0 <= i < |ms| && Ships(h, ms[i], about[i], gx)
    {
      CoveredIfShipped(h, items, ms, about, gx);
    }
  }

  lemma {:induction false} CoveredIfShipped(h: Header, items: seq<Item>, ms: seq<Member>, about: seq<nat>, gx: nat)
    requires ProperNames(h) && AllAbout(h, ms, about) && gx < |h|
    requires |items| == |ms| && forall i | 0 <= i < |ms| :: ItemFor(items[i], ms[i])
    ensures OnlyFiles(items) && Indexes(FilesOf(h, |h|), h)
    ensures CoveredBy(h, FilesOf(h, |h|), items, h[gx].name) <==> exists i :: 0 <= i < |ms| && Ships(h, ms[i], about[i], gx)
  {
    hide FilesOf, Covers, Ships, ProperNames, IsAbout;
    forall i | 0 <= i < |ms|
      ensures Indexes(FilesOf(h, |h|), h)
      ensures Covers(h, FilesOf(h, |h|), items[i], h[gx].name) <==> Ships(h, ms[i], about[i], gx)
    {
      CoversRecord(h, items[i], ms[i], about[i], gx);
    }
  }

  lemma {:induction false} ApartIfShippedOnce(h: Header, items: seq<Item>, ms: seq<Member>, about: seq<nat>)
    requires ProperNames(h) && AllAbout(h, ms, about)
    requires |items| == |ms| && forall i | 0 <= i < |ms| :: ItemFor(items[i], ms[i])
    ensures OnlyFiles(items) && Indexes(FilesOf(h, |h|), h)
    ensures Apart(h, FilesOf(h, |h|), items) <==>
              forall i, j, gx: nat | 0 <= i < j < |ms| :: !(Ships(h, ms[i], about[i], gx) && Ships(h, ms[j], about[j], gx))
  {
    var files := FilesOf(h, |h|);
    hide Covers, FilesOf, Ships;
    if Apart(h, files, items) {
      forall i, j, gx: nat | 0 <= i < j < |ms| ensures !(Ships(h, ms[i], about[i], gx) && Ships(h, ms[j], about[j], gx)) {
        ShippedIsRecord(h, ms[i], about[i], gx);
        if gx < |h| {
          CoversRecord(h, items[i], ms[i], about[i], gx);
          CoversRecord(h, items[j], ms[j], about[j], gx);
        }
      }
    } else {
      var i, j, k :| 0 <= i < j < |items| && Covers(h, files, items[i], k) && Covers(h, files, items[j], k);
      var gx := CoversOnlyRecords(h, items[i], ms[i], about[i], k);
      CoversRecord(h, items[i], ms[i], about[i], gx);
      CoversRecord(h, items[j], ms[j], about[j], gx);
    }
  }

  lemma {:induction false} ShippedIsRecord(h: Header, m: Member, fx: nat, gx: nat)
    requires fx < |h|
    ensures Ships(h, m, fx, gx) ==> gx < |h|
  {
  }

  /** Without hard links: one member for every file that is not a ghost, and at most one for a ghost. */
  lemma {:induction false} PlainArchiveIsRead(h: Header, ms: seq<Member>, trailer: Member, about: seq<nat>)
    requires ProperNames(h) && IsTrailerMember(trailer) && AllFiles(ms) && AllAbout(h, ms, about)
    requires forall fx | 0 <= fx < |h| :: !Linked(h, fx) && (h[fx].isGhost || h[fx].digest.Some?)
    requires forall i, j | 0 <= i < j < |about| :: about[i] != about[j]
    requires forall fx: nat | fx < |h| && !h[fx].isGhost :: fx in about
    ensures CanBeRead(h, PrintedArchive(ms, trailer))
  {
    ArchiveIsRead(h, ms, trailer, about);
    hide PrintedArchive, CanBeRead, ProperNames, IsAbout, Linked;
    assert forall ino :: !HasGroup(h, ino);
    hide HasGroup;
    forall gx: nat | gx < |h| && !h[gx].isGhost ensures exists i :: 0 <= i < |ms| && Ships(h, ms[i], about[i], gx) {
      var i :| 0 <= i < |about| && about[i] == gx;
      assert Ships(h, ms[i], about[i], gx);
    }
  }

  // ---- what is reported -------------------------------------------------------------------

  /** What is said about a file is what its record says; a ghost counts as an empty file. */
  predicate Describes(h: Header, info: FileInfo) {
    && info.fx < |h|
    && var f := h[info.fx];
       && info.name == f.name && info.isGhost == f.isGhost
       && if f.isGhost
          then info.size == 0 && info.ino == 0
               && info.digest == "e3b0c44298fc1c149afbf4c8996fb92427ae41e4649b934ca495991b7852b855"
          else info.size == f.size && info.ino == f.inode && Some(info.digest) == f.digest
  }

  lemma {:induction false} InfoDescribes(h: Header, fx: nat, info: FileInfo)
    requires fx < |h| && InfoOf(h, fx) == Ok(info)
    ensures info.fx == fx && Describes(h, info)
  {
  }

  /** What a report says about a file comes from its record and from a member that delivers it. */
  ghost predicate Accounted(h: Header, ms: seq<Member>, about: seq<nat>, info: FileInfo, contents: string)
    requires AllAbout(h, ms, about)
  {
    && Describes(h, info)
    && if info.isGhost then contents == ""
       else exists k :: 0 <= k < |ms| && Ships(h, ms[k], about[k], info.fx) && contents == ms[k].contents
  }

  /** On a complete run, every file is reported once: with its record, and the contents of a member that delivers it. */
  lemma {:induction false} ArchiveReports(h: Header, ms: seq<Member>, trailer: Member, about: seq<nat>, reports: seq<Report>)
    requires ProperNames(h) && IsTrailerMember(trailer) && AllFiles(ms) && AllAbout(h, ms, about)
    requires IsRun(h, PrintedArchive(ms, trailer), Initial(h), reports)
    ensures forall fx | 0 <= fx < |h| :: Occurrences(reports, h[fx].name) == 1
    ensures forall i, j | 0 <= i < |reports| && 0 <= j < |reports[i].infos| ::
              Accounted(h, ms, about, reports[i].infos[j], reports[i].contents)
  {
    var data, items := PrintedArchive(ms, trailer), ItemsOf(ms, 0);
    assert Holds(data, 0, data);
    ArchiveRoundTrip(data, 0, ms, trailer);
    assert forall i | 0 <= i < |ms| :: ItemFor(items[i], ms[i]);
    hide Walk, PrintedArchive, ItemsOf, AllFiles, IsRun, ItemFor, ProperNames, AllAbout, Accounted, Occurrences;
    forall fx | 0 <= fx < |h| ensures Occurrences(reports, h[fx].name) == 1 {
      EveryFileOnce(h, data, reports, h[fx].name);
      assert Named(h, h[fx].name);
    }
    forall i, j | 0 <= i < |reports| && 0 <= j < |reports[i].infos|
      ensures Accounted(h, ms, about, reports[i].infos[j], reports[i].contents)
    {
      ReportAccounted(h, data, items, ms, about, reports, i, j);
    }
  }

  lemma {:induction false} ReportAccounted(h: Header, data: string, items: seq<Item>, ms: seq<Member>, about: seq<nat>,
        reports: seq<Report>, i: nat, j: nat)
    requires ProperNames(h) && AllAbout(h, ms, about) && IsRun(h, data, Initial(h), reports)
    requires Walk(data, 0).Ok? && Walk(data, 0).value.0 == items
    requires |items| == |ms| && forall k | 0 <= k < |ms| :: ItemFor(items[k], ms[k])
    requires i < |reports| && j < |reports[i].infos|
    ensures Accounted(h, ms, about, reports[i].infos[j], reports[i].contents)
  {
    hide Walk, IsRun, FilesOf, DeliveredBy, ItemFor, ProperNames, AllAbout, Accounted;
    ReportOrigins(h, data, reports, i);
    if IsGhostReport(h, reports[i]) {
      GhostAccounted(h, ms, about, reports[i]);
    } else {
      var k: nat :| k < |items| && DeliveredBy(h, FilesOf(h, |h|), items[k], reports[i]);
      DeliveredAccounted(h, ms, about, k, items[k], reports[i], j);
    }
  }

  lemma {:induction false} GhostAccounted(h: Header, ms: seq<Member>, about: seq<nat>, report: Report)
    requires AllAbout(h, ms, about) && IsGhostReport(h, report)
    ensures Accounted(h, ms, about, report.infos[0], report.contents)
  {
    InfoDescribes(h, report.infos[0].fx, report.infos[0]);
    hide InfoOf, Describes;
  }

  lemma {:induction false} DeliveredAccounted(h: Header, ms: seq<Member>, about: seq<nat>, k: nat, item: Item, report: Report, j: nat)
    requires ProperNames(h) && AllAbout(h, ms, about) && k < |ms| && ItemFor(item, ms[k])
    requires DeliveredBy(h, FilesOf(h, |h|), item, report) && j < |report.infos|
    ensures Accounted(h, ms, about, report.infos[j], report.contents)
  {
    assert IsAbout(h, ms[k], about[k]);
    hide AllAbout, IsAbout, ProperNames, DeliveredBy, Accounted;
    AboutRecord(h, item, ms[k], about[k]);
    FoundAccounted(h, FilesOf(h, |h|), ms, about, k, item, report, j);
  }

  lemma {:induction false} FoundAccounted(h: Header, files: FileMap, ms: seq<Member>, about: seq<nat>, k: nat,
        item: Item, report: Report, j: nat)
    requires AllAbout(h, ms, about) && k < |ms| && ItemFor(item, ms[k])
    requires Indexes(files, h) && About(files, item) == Some(about[k])
    requires DeliveredBy(h, files, item, report) && j < |report.infos|
    ensures Accounted(h, ms, about, report.infos[j], report.contents)
  {
    var fx := about[k];
    DeliveredAbout(h, files, item, fx, report, j);
    hide DeliveredBy, AllAbout, About, Accounted, InfoOf, Links, Ships, Indexes;
    var links := Links(h, |h|, h[fx].inode);
    var gx := if links == [] then fx else links[j];
    DeliveredShips(h, ms[k], fx, gx, if links == [] then 0 else j);
    ShippedAccounted(h, ms, about, k, gx, report.infos[j], report.contents);
  }

  lemma {:induction false} ShippedAccounted(h: Header, ms: seq<Member>, about: seq<nat>, k: nat, gx: nat, info: FileInfo, contents: string)
    requires AllAbout(h, ms, about) && k < |ms| && gx < |h| && InfoOf(h, gx) == Ok(info) && Ships(h, ms[k], about[k], gx)
    requires contents == if h[gx].isGhost then "" else ms[k].contents
    ensures Accounted(h, ms, about, info, contents)
  {
    InfoDescribes(h, gx, info);
    DescribesGhost(h, info);
    hide InfoOf, Describes, Ships, IsAbout;
  }

  /** What a delivering entry reports, once its record is known. */
  lemma {:induction false} DeliveredAbout(h: Header, files: FileMap, item: Item, fx: nat, report: Report, j: nat)
    requires Indexes(files, h) && item.File? && About(files, item) == Some(fx) && fx < |h|
    requires DeliveredBy(h, files, item, report) && j < |report.infos|
    ensures var links := Links(h, |h|, h[fx].inode);
            if links == [] then
              j == 0 && InfoOf(h, fx) == Ok(report.infos[j]) && report.contents == if h[fx].isGhost then "" else item.contents
            else
              && |item.contents| == h[fx].size && report.contents == item.contents
              && j < |links| && InfoOf(h, links[j]) == Ok(report.infos[j])
  {
    hide Normalized, Links, InfoOf, SameDigests, Indexes;
  }

  lemma {:induction false} DeliveredShips(h: Header, m: Member, fx: nat, gx: nat, j: nat)
    requires fx < |h|
    requires var links := Links(h, |h|, h[fx].inode);
             if links == [] then gx == fx else |m.contents| == h[fx].size && j < |links| && links[j] == gx
    ensures Ships(h, m, fx, gx)
  {
    GroupMembers(h, h[fx].inode, gx);
    hide Links, HasGroup, InGroup;
  }

  lemma {:induction false} DescribesGhost(h: Header, info: FileInfo)
    requires Describes(h, info)
    ensures info.isGhost == h[info.fx].isGhost
  {
  }

  /** An archive with a member that is about no record is not read to its end. */
  lemma {:induction false} StrangerIsRejected(h: Header, ms: seq<Member>, trailer: Member, i: nat)
    requires ProperNames(h) && IsTrailerMember(trailer) && AllFiles(ms)
    requires i < |ms| && NUL !in ms[i].name && forall fx: nat :: !IsAbout(h, ms[i], fx)
    ensures !CanBeRead(h, PrintedArchive(ms, trailer))
  {
    var data, items := PrintedArchive(ms, trailer), ItemsOf(ms, 0);
    assert Holds(data, 0, data);
    ArchiveRoundTrip(data, 0, ms, trailer);
    ReadExactlyIfWellFormed(h, data);
    var files := FilesOf(h, |h|);
    hide Walk, PrintedArchive, ItemsOf, CanBeRead, Normalized, FilesOf;
    StrangerIsAboutNothing(h, items[i], ms[i]);
    assert !Acceptable(h, files, items[i]);
  }

  lemma {:induction false} StrangerIsAboutNothing(h: Header, item: Item, m: Member)
    requires ProperNames(h) && ItemFor(item, m) && NUL !in m.name && forall fx: nat :: !IsAbout(h, m, fx)
    ensures About(FilesOf(h, |h|), item) == None
  {
    var files := FilesOf(h, |h|);
    forall fx: nat | fx < |h| ensures Normalized(item.name) != h[fx].name {
      assert !IsAbout(h, m, fx);
      if Normalized(item.name) == h[fx].name { NamedOnlySo(m.name, h[fx].name); }
    }
    hide Normalized;
    assert forall k | k in files :: h[files[k].fx].name == k;
  }
}
