/**
  Choosing the provider of a SONAME: the path-rating heuristic, the best-of
  scan, and the suppression of well-known spurious conflicts.

  The source's `multimap<soname, file_ref>` is a map from SONAME to the
  non-empty sequence of its providers in insertion order, which is the order
  `equal_range` walks.
 */
module SonameLookup {
  import opened Wrappers
  import opened Ordering
  import opened Database

  const LIB_PRIO := 100000
  const DIRECTORY_PRIO := 10000

  datatype FileRef = FileRef(id: FileId, name: string, package: string)

  type SonameMap = map<string, seq<FileRef>>
  type ArchSonameMap = map<string, SonameMap>

  // ---- rating a path -------------------------------------------------------

  /** Index of the last slash (`strrchr`), or -1. */
  function LastSlash(s: string): (i: int)
    ensures -1 <= i < |s| && (i >= 0 ==> s[i] == '/')
    ensures forall j | i < j < |s| :: s[j] != '/'
  {
    if s == [] then -1
    else if s[|s| - 1] == '/' then |s| - 1
    else LastSlash(s[..|s| - 1])
  }

  predicate SameDirectory(left: string, right: string) {
    var l, r := LastSlash(left), LastSlash(right);
    l >= 0 && l == r && left[..l] == right[..r]
  }

  predicate InStandardDirectory(name: string) {
    "/lib/" <= name || "/lib64/" <= name || "/usr/lib/" <= name || "/usr/lib64/" <= name
  }

  /** What the rating means: bonuses, twice the shared prefix, minus the length. */
  function Priority(name: string, needed: string): int {
    (if InStandardDirectory(name) then LIB_PRIO else 0)
    + (if SameDirectory(name, needed) then DIRECTORY_PRIO else 0)
    + 2 * Common(name, needed) - |name|
  }

  lemma {:induction false} CommonIsLongest(a: string, b: string, n: nat)
    requires n <= |a| && n <= |b| && a[..n] == b[..n]
    requires n == |a| || n == |b| || a[n] != b[n]
    ensures n == Common(a, b)
  {
    if n > 0 {
      assert a[0] == a[..n][0] == b[..n][0] == b[0];
      assert a[1..][..n - 1] == a[..n][1..] && b[1..][..n - 1] == b[..n][1..];
      CommonIsLongest(a[1..], b[1..], n - 1);
    }
  }

  method RatePath(name: string, needed: string) returns (prio: int)
    ensures prio == Priority(name, needed)
  {
    prio := 0;
    if InStandardDirectory(name) { prio := prio + LIB_PRIO; }
    if SameDirectory(name, needed) { prio := prio + DIRECTORY_PRIO; }
    ghost var bonus := prio;
    var sz := if |name| < |needed| then |name| else |needed|;
    var i := 0;
    while i < sz && name[i] == needed[i]
      invariant 0 <= i <= sz && name[..i] == needed[..i]
      invariant prio == bonus + 2 * i
    {
      prio := prio + 2;
      i := i + 1;
    }
    CommonIsLongest(name, needed, i);
    prio := prio - |name|;
  }

  /** A standard directory wins against any other path, up to a length bound. */
  lemma {:induction false} StandardDirectoryWins(a: string, b: string, needed: string)
    requires InStandardDirectory(a) && !InStandardDirectory(b)
    requires |a| + |b| < LIB_PRIO - DIRECTORY_PRIO
    ensures Priority(a, needed) > Priority(b, needed)
  {
    assert Common(a, needed) >= 0 && Common(b, needed) <= |b|;
  }

  /** That bound on the lengths is exact: where it fails, another path can defeat a standard directory. */
  lemma {:induction false} StandardDirectoryBoundIsTight(m: nat, n: nat)
    requires m >= 5 && n >= 2 && m + n >= LIB_PRIO - DIRECTORY_PRIO
    ensures exists a, b, needed :: |a| == m && |b| == n && InStandardDirectory(a) && !InStandardDirectory(b)
                                   && Priority(a, needed) <= Priority(b, needed)
  {
    var a, b := "/lib/" + seq(m - 5, i => 'a'), "x/" + seq(n - 2, i => 'x');
    assert a[..5] == "/lib/" && a[0] == '/' && a[4] == '/' && b[0] == 'x' && b[1] == '/';
    assert LastSlash(a) == 4 && LastSlash(b) == 1;
    CommonIsLongest(b, b, n);
    CommonIsLongest(a, b, 0);
    assert Priority(a, b) == LIB_PRIO - m && Priority(b, b) == DIRECTORY_PRIO + n;
  }

  /** The bound up to which the needing file's own directory wins against a path of length `n`. */
  function DirectoryBound(n: nat): nat { DIRECTORY_PRIO + (if n == 0 then 2 else 4) }

  lemma {:induction false} PrefixSharesDirectory(b: string, needed: string)
    requires 0 <= LastSlash(needed) < |b| <= |needed| && b[..|b|] == needed[..|b|]
    ensures SameDirectory(b, needed)
  {
    var l := LastSlash(needed);
    assert forall j | 0 <= j < |b| :: b[j] == b[..|b|][j] == needed[..|b|][j] == needed[j];
    assert b[..l] == needed[..l] && b[l] == '/' && LastSlash(b) == l;
  }

  /** Files of one directory share its slash; any other path shares less, or does not end there. */
  lemma {:induction false} SharedWithDirectory(a: string, b: string, needed: string)
    requires SameDirectory(a, needed) && !SameDirectory(b, needed)
    ensures 1 <= Common(a, needed)
    ensures Common(b, needed) == |b| ==> |b| < Common(a, needed)
  {
    var l := LastSlash(needed);
    assert a[..l + 1] == a[..l] + ['/'] && needed[..l + 1] == needed[..l] + ['/'];
    CommonAtLeast(a, needed, l + 1);
    if Common(b, needed) == |b| && |b| > l { PrefixSharesDirectory(b, needed); }
  }

  lemma {:induction false} CommonAtLeast(a: string, b: string, n: nat)
    requires n <= |a| && n <= |b| && a[..n] == b[..n]
    ensures n <= Common(a, b)
  {
    if n > 0 {
      assert a[0] == a[..n][0] == b[..n][0] == b[0];
      assert a[1..][..n - 1] == a[..n][1..] && b[1..][..n - 1] == b[..n][1..];
      CommonAtLeast(a[1..], b[1..], n - 1);
    }
  }

  /** Within a class, the needing file's own directory wins, up to a length bound. */
  lemma {:induction false} SameDirectoryWins(a: string, b: string, needed: string)
    requires InStandardDirectory(a) == InStandardDirectory(b)
    requires SameDirectory(a, needed) && !SameDirectory(b, needed)
    requires |a| + |b| < DirectoryBound(|b|)
    ensures Priority(a, needed) > Priority(b, needed)
  {
    SharedWithDirectory(a, b, needed);
    hide Common, SameDirectory, InStandardDirectory;
    assert Common(b, needed) <= |b|;
  }

  /** `b` defeats `a` although only `a` is in the directory of the needing file. */
  predicate DefeatsDirectory(a: string, b: string, needed: string) {
    && InStandardDirectory(a) == InStandardDirectory(b)
    && SameDirectory(a, needed) && !SameDirectory(b, needed)
    && Priority(a, needed) <= Priority(b, needed)
  }

  /** A file of the root directory. */
  function RootFile(n: nat, c: char): (s: string)
    ensures |s| == n + 1 && s[0] == '/' && forall i | 0 < i <= n :: s[i] == c
  {
    "/" + seq(n, i => c)
  }

  lemma {:induction false} RootFiles(n: nat, c: char)
    requires c != '/' && c != 'l' && c != 'u'
    ensures LastSlash(RootFile(n, c)) == 0 && !InStandardDirectory(RootFile(n, c))
  {
    StandardSecond(RootFile(n, c));
  }

  /** The second letter of the standard directories. */
  lemma {:induction false} StandardSecond(s: string)
    ensures InStandardDirectory(s) ==> |s| > 1 && (s[1] == 'l' || s[1] == 'u')
  {
    assert "/lib/" <= s ==> s[1] == "/lib/"[1];
    assert "/lib64/" <= s ==> s[1] == "/lib64/"[1];
    assert "/usr/lib/" <= s ==> s[1] == "/usr/lib/"[1];
    assert "/usr/lib64/" <= s ==> s[1] == "/usr/lib64/"[1];
  }

  lemma {:induction false} DirectoryDefeatedByShort(m: nat, n: nat)
    requires m >= 1 && n < 2 && m + n >= DirectoryBound(n)
    ensures DefeatsDirectory(RootFile(m - 1, 'a'), seq(n, i => 'x'), "/x")
  {
    var a, b, needed := RootFile(m - 1, 'a'), seq(n, i => 'x'), RootFile(1, 'x');
    assert needed == "/x";
    RootFiles(m - 1, 'a');
    RootFiles(1, 'x');
    CommonIsLongest(a, needed, 1);
    CommonIsLongest(b, needed, 0);
    StandardSecond(b);
    hide Common, InStandardDirectory, RootFile;
    assert LastSlash(b) == -1;
  }

  /** A file of the root directory with a slash appended, as a path that shares everything with the file. */
  lemma {:induction false} SlashAppended(n: nat)
    ensures var needed := RootFile(n, 'x');
            var b := needed + "/";
            !InStandardDirectory(b) && LastSlash(b) == n + 1 && Common(b, needed) == n + 1
  {
    var needed := RootFile(n, 'x');
    var b := needed + "/";
    StandardSecond(b);
    hide InStandardDirectory;
    assert b[n + 1] == '/' && b[..n + 1] == needed[..n + 1];
    CommonIsLongest(b, needed, n + 1);
  }

  lemma {:induction false} RootFilesShareSlash(m: nat, n: nat)
    ensures Common(RootFile(m, 'a'), RootFile(n, 'x')) == 1
  {
    var a, needed := RootFile(m, 'a'), RootFile(n, 'x');
    hide RootFile;
    assert a[..1] == ['/'] == needed[..1];
    CommonIsLongest(a, needed, 1);
  }

  /** Two files of the root directory, against a path that shares all but its last slash with one of them. */
  lemma {:induction false} DefeatsRoot(a: string, b: string, needed: string)
    requires !InStandardDirectory(a) && !InStandardDirectory(b) && LastSlash(a) == LastSlash(needed) == 0
    requires LastSlash(b) == |b| - 1 > 0 && Common(a, needed) == 1 && Common(b, needed) == |b| - 1
    requires |a| + |b| >= DirectoryBound(|b|)
    ensures DefeatsDirectory(a, b, needed)
  {
    hide InStandardDirectory, LastSlash, Common;
    assert a[..0] == needed[..0];
  }

  lemma {:induction false} DirectoryDefeatedByLong(m: nat, n: nat)
    requires m >= 1 && n >= 2 && m + n >= DirectoryBound(n)
    ensures DefeatsDirectory(RootFile(m - 1, 'a'), RootFile(n - 2, 'x') + "/", RootFile(n - 2, 'x'))
  {
    hide DefeatsDirectory, Common, LastSlash, InStandardDirectory, RootFile;
    RootFiles(m - 1, 'a');
    RootFiles(n - 2, 'x');
    SlashAppended(n - 2);
    RootFilesShareSlash(m - 1, n - 2);
    DefeatsRoot(RootFile(m - 1, 'a'), RootFile(n - 2, 'x') + "/", RootFile(n - 2, 'x'));
  }

  /** The bound is exact: for all lengths, no path defeats the own directory if and only if they stay below it. */
  lemma {:induction false} DirectoryBoundIsExact(m: nat, n: nat)
    requires m >= 1
    ensures m + n < DirectoryBound(n) <==>
              forall a, b, needed | |a| == m && |b| == n :: !DefeatsDirectory(a, b, needed)
  {
    if m + n < DirectoryBound(n) {
      forall a, b, needed | |a| == m && |b| == n ensures !DefeatsDirectory(a, b, needed) {
        if DefeatsDirectory(a, b, needed) { SameDirectoryWins(a, b, needed); }
      }
    } else if n < 2 {
      DirectoryDefeatedByShort(m, n);
    } else {
      DirectoryDefeatedByLong(m, n);
      assert |RootFile(n - 2, 'x') + "/"| == n;
    }
    hide DefeatsDirectory;
  }

  // ---- choosing among providers --------------------------------------------

  /** Where the path `n` first occurs among the providers, or the end. */
  function FirstAt(ps: seq<FileRef>, n: string): (i: nat)
    ensures i <= |ps| && (i < |ps| ==> ps[i].name == n)
    ensures forall j | 0 <= j < i :: ps[j].name != n
  {
    if ps == [] || ps[0].name == n then 0 else 1 + FirstAt(ps[1..], n)
  }

  /**
    `i` is the winner among the first `n` of `ps`: no provider is rated higher;
    among providers at the winner's path none has a smaller package name and no
    earlier one has the same; and an equally rated provider elsewhere comes
    after the first provider at the winner's path.
   */
  ghost predicate Winner(ps: seq<FileRef>, n: nat, needed: string, i: nat)
    requires n <= |ps|
  {
    && i < n
    && (forall j | 0 <= j < n :: Priority(ps[j].name, needed) <= Priority(ps[i].name, needed))
    && (forall j | 0 <= j < n && ps[j].name == ps[i].name :: !Less(ps[j].package, ps[i].package))
    && (forall j | 0 <= j < i && ps[j].name == ps[i].name :: ps[j].package != ps[i].package)
    && (forall j | 0 <= j < n && ps[j].name != ps[i].name && Priority(ps[j].name, needed) == Priority(ps[i].name, needed)
          :: FirstAt(ps, ps[i].name) < j)
  }

  lemma {:induction false} WinnerUnique(ps: seq<FileRef>, needed: string, i: nat, k: nat)
    requires Winner(ps, |ps|, needed, i) && Winner(ps, |ps|, needed, k)
    ensures i == k
  {
    var fi, fk := FirstAt(ps, ps[i].name), FirstAt(ps, ps[k].name);
    assert fi < |ps| && ps[fi].name == ps[i].name && fk < |ps| && ps[fk].name == ps[k].name;
    LessTotal(ps[i].package, ps[k].package);
  }

  /** The comparison the scan makes for each further provider. */
  predicate Better(p: FileRef, best: FileRef, needed: string) {
    Priority(p.name, needed) > Priority(best.name, needed)
    || (p.name == best.name && Less(p.package, best.package))
  }

  /** One step of the scan keeps the winner of the prefix. */
  lemma {:induction false} WinnerStep(ps: seq<FileRef>, n: nat, needed: string, best: nat)
    requires n < |ps| && Winner(ps, n, needed, best)
    ensures Winner(ps, n + 1, needed, if Better(ps[n], ps[best], needed) then n else best)
  {
    hide Priority, Less, FirstAt;
    LessIrreflexive(ps[n].package);
    if Better(ps[n], ps[best], needed) {
      forall j | 0 <= j < n && ps[j].name == ps[n].name
        ensures !Less(ps[j].package, ps[n].package) && ps[j].package != ps[n].package
      {
        assert ps[best].name == ps[n].name && !Less(ps[j].package, ps[best].package);
        if Less(ps[j].package, ps[n].package) { LessTransitive(ps[j].package, ps[n].package, ps[best].package); }
      }
    }
  }

  /** Of one path in several packages, the package whose name is least provides the file. */
  lemma {:induction false} LeastPackageResolves(m: ArchSonameMap, arch: string, soname: string, needed: string, id: FileId, i: nat)
    requires ResolvesTo(m, arch, soname, needed, id)
    requires i < |Providers(m, arch, soname)|
    requires forall j | 0 <= j < |Providers(m, arch, soname)| && j != i ::
               && Providers(m, arch, soname)[j].name == Providers(m, arch, soname)[i].name
               && Less(Providers(m, arch, soname)[i].package, Providers(m, arch, soname)[j].package)
    ensures id == Providers(m, arch, soname)[i].id
  {
    hide Priority, Less;
    var ps := Providers(m, arch, soname);
    var w: nat :| Winner(ps, |ps|, needed, w) && id == ps[w].id;
  }

  // ---- which directories the winner comes from ----------------------------------

  const STANDARD := {"/lib", "/lib64", "/usr/lib", "/usr/lib64"}

  /** The path is below one of the directories. */
  ghost predicate Below(path: string, directories: set<string>) { exists d | d in directories :: d + "/" <= path }

  lemma {:induction false} StandardIsBelow(path: string)
    ensures InStandardDirectory(path) <==> Below(path, STANDARD)
  {
    assert "/lib" + "/" == "/lib/" && "/lib64" + "/" == "/lib64/";
    assert "/usr/lib" + "/" == "/usr/lib/" && "/usr/lib64" + "/" == "/usr/lib64/";
    assert "/lib" in STANDARD && "/lib64" in STANDARD && "/usr/lib" in STANDARD && "/usr/lib64" in STANDARD;
  }

  /** If some provider is below a standard directory, so is the one a reference resolves to. */
  lemma {:induction false} ResolvesBelowStandard(m: ArchSonameMap, arch: string, soname: string, needed: string, id: FileId, f: FileRef)
    requires ResolvesTo(m, arch, soname, needed, id)
    requires f in Providers(m, arch, soname) && Below(f.name, STANDARD)
    requires forall g, h | g in Providers(m, arch, soname) && h in Providers(m, arch, soname) :: |g.name| + |h.name| < 90000
    ensures exists g :: g in Providers(m, arch, soname) && g.id == id && Below(g.name, STANDARD)
  {
    hide Priority, InStandardDirectory, Below;
    var ps := Providers(m, arch, soname);
    var w: nat :| Winner(ps, |ps|, needed, w) && id == ps[w].id;
    StandardIsBelow(f.name);
    StandardIsBelow(ps[w].name);
    if !InStandardDirectory(ps[w].name) { StandardDirectoryWins(f.name, ps[w].name, needed); }
    assert ps[w] in ps;
  }

  /** Two files of one directory: the paths agree up to their last slash. */
  ghost predicate Siblings(a: string, b: string) {
    exists d, x, y :: '/' !in x && '/' !in y && a == Joined(d, x) && b == Joined(d, y)
  }

  function Joined(directory: string, file: string): string { directory + "/" + file }

  lemma {:induction false} JoinedSlash(d: string, x: string)
    requires '/' !in x
    ensures LastSlash(Joined(d, x)) == |d| && Joined(d, x)[..|d|] == d
  {
    var s := Joined(d, x);
    assert s[|d|] == '/';
    forall j | |d| < j < |s| ensures s[j] != '/' { assert s[j] == x[j - |d| - 1] && s[j] in x; }
  }

  lemma {:induction false} SameDirectoryIsSiblings(a: string, b: string)
    ensures SameDirectory(a, b) <==> Siblings(a, b)
  {
    if SameDirectory(a, b) {
      var l := LastSlash(a);
      assert a == Joined(a[..l], a[l + 1..]) && b == Joined(b[..l], b[l + 1..]);
    }
    if d, x, y :| '/' !in x && '/' !in y && a == Joined(d, x) && b == Joined(d, y) {
      JoinedSlash(d, x);
      JoinedSlash(d, y);
    }
  }

  /** Among paths that are all below standard directories, or none of them, the needing file's own directory is preferred. */
  lemma {:induction false} ResolvesToSibling(m: ArchSonameMap, arch: string, soname: string, needed: string, id: FileId, f: FileRef)
    requires ResolvesTo(m, arch, soname, needed, id)
    requires f in Providers(m, arch, soname) && Siblings(f.name, needed)
    requires forall g | g in Providers(m, arch, soname) ::
               (Below(g.name, STANDARD) <==> Below(f.name, STANDARD)) && |f.name| + |g.name| < 10002
    ensures exists g :: g in Providers(m, arch, soname) && g.id == id && Siblings(g.name, needed)
  {
    hide Priority, InStandardDirectory, SameDirectory, Siblings, Below;
    var ps := Providers(m, arch, soname);
    var w: nat :| Winner(ps, |ps|, needed, w) && id == ps[w].id;
    StandardIsBelow(f.name);
    StandardIsBelow(ps[w].name);
    SameDirectoryIsSiblings(f.name, needed);
    SameDirectoryIsSiblings(ps[w].name, needed);
    assert ps[w] in ps;
    if !SameDirectory(ps[w].name, needed) { SameDirectoryWins(f.name, ps[w].name, needed); }
  }

  /** What the caller-supplied conflict callbacks are told. */
  datatype Report = Nothing | Missing | Conflict(choices: seq<FileId>)

  /** The identifiers of the first `n` providers, without `id`. */
  function OtherIds(ps: seq<FileRef>, n: nat, id: FileId): (r: seq<FileId>)
    requires n <= |ps|
    ensures forall x :: x in r <==> x != id && exists i :: 0 <= i < n && ps[i].id == x
  {
    if n == 0 then []
    else OtherIds(ps, n - 1, id) + (if ps[n - 1].id != id then [ps[n - 1].id] else [])
  }

  /** They come in the order of the providers. */
  lemma {:induction false} OtherIdsInOrder(ps: seq<FileRef>, qs: seq<FileRef>, id: FileId, n: nat)
    requires n <= |qs|
    ensures OtherIds(ps + qs, |ps| + n, id) == OtherIds(ps, |ps|, id) + OtherIds(qs, n, id)
    decreases n
  {
    if n == 0 {
      OtherIdsPrefix(ps, qs, id, |ps|);
    } else {
      OtherIdsInOrder(ps, qs, id, n - 1);
      assert (ps + qs)[|ps| + n - 1] == qs[n - 1];
    }
  }

  lemma {:induction false} OtherIdsPrefix(ps: seq<FileRef>, qs: seq<FileRef>, id: FileId, n: nat)
    requires n <= |ps|
    ensures OtherIds(ps + qs, n, id) == OtherIds(ps, n, id)
  {
    if n > 0 { OtherIdsPrefix(ps, qs, id, n - 1); }
  }

  /** The candidates for a reference: the providers of that SONAME on that architecture. */
  function Providers(m: ArchSonameMap, arch: string, soname: string): seq<FileRef> {
    if arch in m && soname in m[arch] then m[arch][soname] else []
  }

  /** `id` is what a reference resolves to: the winner's file, or none. */
  ghost predicate ResolvesTo(m: ArchSonameMap, arch: string, soname: string, needed: string, id: FileId) {
    var ps := Providers(m, arch, soname);
    if ps == [] then id == NO_FILE
    else exists w: nat :: Winner(ps, |ps|, needed, w) && id == ps[w].id
  }

  lemma {:induction false} ResolvesToUnique(m: ArchSonameMap, arch: string, soname: string, needed: string, a: FileId, b: FileId)
    requires ResolvesTo(m, arch, soname, needed, a) && ResolvesTo(m, arch, soname, needed, b)
    ensures a == b
  {
    var ps := Providers(m, arch, soname);
    if ps != [] {
      var i: nat :| Winner(ps, |ps|, needed, i) && a == ps[i].id;
      var k: nat :| Winner(ps, |ps|, needed, k) && b == ps[k].id;
      WinnerUnique(ps, needed, i, k);
    }
  }

  ghost predicate Populated(m: ArchSonameMap) {
    forall a, s | a in m && s in m[a] :: m[a][s] != []
  }

  method Lookup(m: ArchSonameMap, arch: string, soname: string, needed: string)
    returns (id: FileId, report: Report)
    requires Populated(m)
    ensures ResolvesTo(m, arch, soname, needed, id)
    ensures report ==
            if arch !in m then Nothing
            else if soname !in m[arch] then Missing
            else if |m[arch][soname]| == 1 then Nothing
            else Conflict([id] + OtherIds(m[arch][soname], |m[arch][soname]|, id))
  {
    hide Priority, Less, FirstAt;
    if arch !in m { return NO_FILE, Nothing; }
    if soname !in m[arch] { return NO_FILE, Missing; }
    var ps := m[arch][soname];
    LessIrreflexive(ps[0].package);
    assert Winner(ps, 1, needed, 0);
    if |ps| == 1 { return ps[0].id, Nothing; }
    var best := BestProvider(ps, needed);
    id := ps[best].id;
    var choices, p := [id], 0;
    while p < |ps|
      invariant p <= |ps| && choices == [id] + OtherIds(ps, p, id)
    {
      if ps[p].id != id { choices := choices + [ps[p].id]; }
      p := p + 1;
    }
    report := Conflict(choices);
  }

  /** The loop over two or more candidates. */
  method BestProvider(ps: seq<FileRef>, needed: string) returns (best: nat)
    requires |ps| > 1
    ensures Winner(ps, |ps|, needed, best)
  {
    best := 0;
    var bestPriority := RatePath(ps[0].name, needed);
    LessIrreflexive(ps[0].package);
    var p := 1;
    while p < |ps|
      invariant 1 <= p <= |ps| && Winner(ps, p, needed, best)
      invariant bestPriority == Priority(ps[best].name, needed)
    {
      WinnerStep(ps, p, needed, best);
      var prio := RatePath(ps[p].name, needed);
      if prio > bestPriority || (ps[p].name == ps[best].name && Less(ps[p].package, ps[best].package)) {
        best, bestPriority := p, prio;
      }
      p := p + 1;
    }
  }

  // ---- spurious conflicts --------------------------------------------------

  predicate IgnoredFileName(path: string) {
    || ("/lib/" <= path
        && ("/lib/i686/nosegneg/" <= path
            || ("/lib/rtkaio/" <= path
                && ("/lib/rtkaio/librtkaio-" <= path || "/lib/rtkaio/i686/nosegneg/" <= path))))
    || "/lib64/rtkaio/librtkaio-" <= path
  }

  predicate IgnoredPackageName(package: string) {
    package == "compat-gcc-34-c++" || package == "compat-glibc"
  }

  predicate Ignored(f: FileRef) {
    IgnoredFileName(f.name) || IgnoredPackageName(f.package)
  }

  /** A library of a compatibility package, or one built for particular processors or kernels. */
  predicate Spurious(f: FileRef) {
    || f.package == "compat-gcc-34-c++" || f.package == "compat-glibc"
    || "/lib/i686/nosegneg/" <= f.name
    || "/lib/rtkaio/librtkaio-" <= f.name
    || "/lib/rtkaio/i686/nosegneg/" <= f.name
    || "/lib64/rtkaio/librtkaio-" <= f.name
  }

  /** The provider at `i` is the only one of the group that is not spurious. */
  ghost predicate OnlyGenuine(group: seq<FileRef>, i: nat) {
    i < |group| && !Spurious(group[i]) && forall j | 0 <= j < |group| && j != i :: Spurious(group[j])
  }

  /** What suppressing spurious conflicts makes of a group: the only genuine provider, or all of them. */
  ghost predicate Suppresses(group: seq<FileRef>, result: seq<FileRef>) {
    && (forall i: nat | OnlyGenuine(group, i) :: result == [group[i]])
    && ((forall i: nat :: !OnlyGenuine(group, i)) ==> result == group)
  }

  ghost predicate ConflictsSuppressed(m: ArchSonameMap, result: ArchSonameMap) {
    forall arch, soname :: Suppresses(Providers(m, arch, soname), Providers(result, arch, soname))
  }

  lemma {:induction false} IgnoredIsSpurious(f: FileRef)
    ensures Ignored(f) <==> Spurious(f)
  {
    var path := f.name;
    PrefixOfPrefix("/lib/", "/lib/i686/nosegneg/", path);
    PrefixOfPrefix("/lib/", "/lib/rtkaio/", path);
    PrefixOfPrefix("/lib/rtkaio/", "/lib/rtkaio/librtkaio-", path);
    PrefixOfPrefix("/lib/rtkaio/", "/lib/rtkaio/i686/nosegneg/", path);
  }

  lemma {:induction false} PrefixOfPrefix(a: string, b: string, s: string)
    requires a <= b
    ensures b <= s ==> a <= s
  {
  }

  lemma {:induction false} RemainsOfNothing(group: seq<FileRef>)
    ensures Remaining(group, 0) == []
  {
  }

  lemma {:induction false} NothingRemains(group: seq<FileRef>, n: nat)
    requires n <= |group|
    ensures Remaining(group, n) == [] <==> forall j | 0 <= j < n :: Ignored(group[j])
  {
    hide Ignored, Remaining;
    if n > 0 {
      NothingRemains(group, n - 1);
      RemainingNext(group, n - 1);
    } else {
      RemainsOfNothing(group);
    }
  }

  lemma {:induction false} OneRemains(group: seq<FileRef>, n: nat, i: nat)
    requires i < n <= |group| && !Ignored(group[i]) && forall j | 0 <= j < n && j != i :: Ignored(group[j])
    ensures Remaining(group, n) == [group[i]]
  {
    hide Ignored, Remaining;
    RemainingNext(group, n - 1);
    if i < n - 1 { OneRemains(group, n - 1, i); } else { NothingRemains(group, n - 1); }
  }

  lemma {:induction false} WhichRemains(group: seq<FileRef>, n: nat) returns (i: nat)
    requires n <= |group| && |Remaining(group, n)| == 1
    ensures i < n && !Ignored(group[i]) && forall j | 0 <= j < n && j != i :: Ignored(group[j])
  {
    hide Ignored, Remaining;
    if n == 0 { RemainsOfNothing(group); }
    RemainingNext(group, n - 1);
    if Ignored(group[n - 1]) {
      i := WhichRemains(group, n - 1);
    } else {
      NothingRemains(group, n - 1);
      i := n - 1;
    }
  }

  lemma {:induction false} PrunedSuppresses(group: seq<FileRef>)
    ensures Suppresses(group, Pruned(group))
  {
    hide Ignored, Spurious, Remaining;
    forall i | 0 <= i < |group| ensures Ignored(group[i]) <==> Spurious(group[i]) { IgnoredIsSpurious(group[i]); }
    forall i: nat | OnlyGenuine(group, i) ensures Remaining(group, |group|) == [group[i]] { OneRemains(group, |group|, i); }
    if |Remaining(group, |group|)| == 1 {
      var i := WhichRemains(group, |group|);
      assert OnlyGenuine(group, i);
    }
  }

  /** Those of the first `n` providers of a group that are not ignored. */
  function Remaining(group: seq<FileRef>, n: nat): (r: seq<FileRef>)
    requires n <= |group|
    ensures |r| <= n
    ensures forall f | f in r :: f in group && !Ignored(f)
  {
    if n == 0 then []
    else Remaining(group, n - 1) + (if Ignored(group[n - 1]) then [] else [group[n - 1]])
  }

  lemma {:induction false} RemainingNext(group: seq<FileRef>, n: nat)
    requires n < |group|
    ensures Remaining(group, n + 1) == if Ignored(group[n]) then Remaining(group, n) else Remaining(group, n) + [group[n]]
  {
    hide Ignored;
  }

  /** A group is reduced to its only provider that is not ignored, if there is exactly one. */
  function Pruned(group: seq<FileRef>): seq<FileRef> {
    if |Remaining(group, |group|)| == 1 then Remaining(group, |group|) else group
  }

  function PrunedGroups(m: SonameMap): SonameMap {
    map s | s in m :: Pruned(m[s])
  }

  function PrunedAll(m: ArchSonameMap): ArchSonameMap {
    map a | a in m :: PrunedGroups(m[a])
  }

  /** The scan of one group of equal keys, and the erasure of the queued entries. */
  method PruneGroup(group: seq<FileRef>) returns (result: seq<FileRef>)
    ensures result == Pruned(group)
    ensures Suppresses(group, result)
  {
    hide IgnoredFileName, IgnoredPackageName, Ignored, Remaining, Suppresses;
    PrunedSuppresses(group);
    RemainsOfNothing(group);
    var q, count, ignoreQueue, kept := 0, 0, [], [];
    while q < |group|
      invariant q <= |group| && count == q
      invariant kept == Remaining(group, q) && |ignoreQueue| + |kept| == q
    {
      RemainingNext(group, q);
      count := count + 1;
      if Ignored(group[q]) { ignoreQueue := ignoreQueue + [group[q]]; } else { kept := kept + [group[q]]; }
      q := q + 1;
    }
    if |ignoreQueue| + 1 == count { return kept; }
    return group;
  }

  /** The loop over the groups of one architecture. */
  method PruneGroups(soname: SonameMap) returns (result: SonameMap)
    ensures result == PrunedGroups(soname)
  {
    hide Pruned;
    result := soname;
    var p := NextString(soname.Keys, None);
    while p.Some?
      invariant result.Keys == soname.Keys && (p.Some? ==> p.value in soname)
      invariant forall s | s in soname :: result[s] == if Passed(s, p) then Pruned(soname[s]) else soname[s]
      decreases p.Some?, set s | s in soname && !Passed(s, p)
    {
      var s := p.value;
      LessIrreflexive(s);
      var group := PruneGroup(result[s]);
      result := result[s := group];
      assert result.Keys == soname.Keys;
      p := NextString(result.Keys, Some(s));
      PassedNext(soname.Keys, s, p);
    }
  }

  /** Prunes every group of every architecture in place. */
  method IgnoreSomeConflicts(arch: ArchSonameMap) returns (result: ArchSonameMap)
    ensures result == PrunedAll(arch)
    ensures ConflictsSuppressed(arch, result)
  {
    hide PrunedGroups, Suppresses;
    forall a, s ensures Suppresses(Providers(arch, a, s), Providers(PrunedAll(arch), a, s)) {
      PrunedProviders(arch, a, s);
      PrunedSuppresses(Providers(arch, a, s));
    }
    result := arch;
    var parch := NextString(arch.Keys, None);
    while parch.Some?
      invariant result.Keys == arch.Keys && (parch.Some? ==> parch.value in arch)
      invariant forall a | a in arch :: result[a] == if Passed(a, parch) then PrunedGroups(arch[a]) else arch[a]
      decreases parch.Some?, set a | a in arch && !Passed(a, parch)
    {
      var a := parch.value;
      LessIrreflexive(a);
      var soname := PruneGroups(result[a]);
      result := result[a := soname];
      assert result.Keys == arch.Keys;
      parch := NextString(result.Keys, Some(a));
      PassedNext(arch.Keys, a, parch);
    }
  }

  lemma {:induction false} PrunedTwice(group: seq<FileRef>)
    ensures Pruned(Pruned(group)) == Pruned(group)
    ensures Pruned(group) == [] <==> group == []
    ensures Pruned(group) == group || exists f :: f in group && !Ignored(f) && Pruned(group) == [f]
  {
    var r := Remaining(group, |group|);
    if |r| == 1 {
      assert r[0] in group && !Ignored(r[0]) && r == [r[0]];
      assert Remaining(r, 0) == [];
      assert Remaining(r, 1) == [r[0]];
    }
  }

  lemma {:induction false} PrunedProviders(m: ArchSonameMap, a: string, s: string)
    ensures Providers(PrunedAll(m), a, s) == Pruned(Providers(m, a, s))
  {
    hide Ignored, Remaining;
    PrunedTwice([]);
  }

  /** Pruning loses no resolvable pair, and what it leaves is the group or its one provider that is not ignored. */
  lemma {:induction false} PruningKeepsResolvable(m: ArchSonameMap, a: string, s: string)
    ensures Providers(PrunedAll(m), a, s) == [] <==> Providers(m, a, s) == []
    ensures Suppresses(Providers(m, a, s), Providers(PrunedAll(m), a, s))
  {
    PrunedSuppresses(Providers(m, a, s));
    PrunedProviders(m, a, s);
    PrunedTwice(Providers(m, a, s));
  }

  lemma {:induction false} PruningIsIdempotent(m: ArchSonameMap)
    ensures PrunedAll(PrunedAll(m)) == PrunedAll(m)
    ensures Populated(m) ==> Populated(PrunedAll(m))
  {
    forall a, s | a in m && s in m[a]
      ensures Pruned(Pruned(m[a][s])) == Pruned(m[a][s])
      ensures m[a][s] != [] ==> Pruned(m[a][s]) != []
    {
      PrunedTwice(m[a][s]);
    }
    hide Pruned, Ignored;
    assert forall a | a in m :: PrunedGroups(PrunedGroups(m[a])) == PrunedGroups(m[a]);
  }
}
