/**
  The whole computation, from the two query results to the rows of the closure
  table: index the providers, prune, resolve every needed SONAME, close.
 */
module UpdateElfClosure {
  import opened Wrappers
  import opened SonameLookup
  import opened Closure
  import opened Database

  /** A row of the first query: a DSO in the package set. */
  datatype ProviderRow = ProviderRow(arch: string, soname: string, file: FileId, name: string, package: string)

  /** A row of the second query: a file and a SONAME it needs. */
  datatype NeededRow = NeededRow(arch: string, soname: string, file: FileId, path: string)

  /** The last path component stands in for a missing SONAME. */
  function SynthesizeSoname(path: string): string {
    path[LastSlash(path) + 1..]
  }

  function EffectiveSoname(r: ProviderRow): string {
    if r.soname == "" then SynthesizeSoname(r.name) else r.soname
  }

  /** The providers of (arch, soname) among the first `n` rows, in row order. */
  function RowProviders(rows: seq<ProviderRow>, n: nat, arch: string, soname: string): seq<FileRef>
    requires n <= |rows|
  {
    if n == 0 then []
    else
      var r := rows[n - 1];
      RowProviders(rows, n - 1, arch, soname)
      + (if r.arch == arch && EffectiveSoname(r) == soname then [FileRef(r.file, r.name, r.package)] else [])
  }

  /** The row names the SONAME, or it has none and the SONAME is the last component of its path. */
  ghost predicate Provides(r: ProviderRow, soname: string) {
    if r.soname != "" then r.soname == soname
    else '/' !in soname && (r.name == soname || exists d :: r.name == Joined(d, soname))
  }

  lemma {:induction false} EffectiveIsProvided(r: ProviderRow, soname: string)
    ensures EffectiveSoname(r) == soname <==> Provides(r, soname)
  {
    var path, l := r.name, LastSlash(r.name);
    assert '/' !in path[l + 1..];
    if l == -1 { assert path[l + 1..] == path; } else { assert path == Joined(path[..l], path[l + 1..]); }
    if d :| '/' !in soname && path == Joined(d, soname) {
      JoinedSlash(d, soname);
      assert path[l + 1..] == soname;
    }
  }

  /** The group of (arch, soname) has exactly the files of the rows of that architecture that provide that SONAME. */
  lemma {:induction false} ProvidersListed(rows: seq<ProviderRow>, n: nat, arch: string, soname: string, f: FileRef)
    requires n <= |rows|
    ensures f in RowProviders(rows, n, arch, soname) <==>
              exists i :: 0 <= i < n && rows[i].arch == arch && Provides(rows[i], soname)
                          && f.id == rows[i].file && f.name == rows[i].name && f.package == rows[i].package
  {
    hide EffectiveSoname, Provides;
    if n > 0 {
      ProvidersListed(rows, n - 1, arch, soname, f);
      EffectiveIsProvided(rows[n - 1], soname);
    }
  }

  /** Further rows are listed behind. */
  lemma {:induction false} ListedInRowOrder(rows: seq<ProviderRow>, m: nat, n: nat, arch: string, soname: string)
    requires m <= n <= |rows|
    ensures RowProviders(rows, m, arch, soname) <= RowProviders(rows, n, arch, soname)
  {
    hide EffectiveSoname;
    if m < n { ListedInRowOrder(rows, m, n - 1, arch, soname); }
  }

  /** `m` indexes the first `n` rows. */
  ghost predicate Indexes(m: ArchSonameMap, rows: seq<ProviderRow>, n: nat)
    requires n <= |rows|
  {
    Populated(m) && forall a, s :: Providers(m, a, s) == RowProviders(rows, n, a, s)
  }

  /** Inserting into the map of maps: only the group of (arch, soname) grows. */
  function Insert(m: ArchSonameMap, arch: string, soname: string, f: FileRef): (r: ArchSonameMap)
    ensures Populated(m) ==> Populated(r)
    ensures forall a, s :: Providers(r, a, s) == Providers(m, a, s) + (if a == arch && s == soname then [f] else [])
  {
    var group := if arch in m then m[arch] else map[];
    m[arch := group[soname := (if soname in group then group[soname] else []) + [f]]]
  }

  method IndexProviders(rows: seq<ProviderRow>) returns (m: ArchSonameMap)
    ensures Indexes(m, rows, |rows|)
  {
    m := map[];
    for row := 0 to |rows|
      invariant Indexes(m, rows, row)
    {
      hide SynthesizeSoname;
      var r := rows[row];
      m := Insert(m, r.arch, EffectiveSoname(r), FileRef(r.file, r.name, r.package));
    }
  }

  /** Row by row: file `a` needs a SONAME that resolves to file `b`. */
  ghost predicate Needs(m: ArchSonameMap, rows: seq<NeededRow>, n: nat, a: FileId, b: FileId)
    requires n <= |rows|
  {
    b != NO_FILE && exists i | 0 <= i < n ::
      rows[i].file == a && ResolvesTo(m, rows[i].arch, rows[i].soname, rows[i].path, b)
  }

  /** A row adds the file that its SONAME resolves to. */
  lemma {:induction false} NeedsNext(m: ArchSonameMap, rows: seq<NeededRow>, n: nat,
                                     a: FileId, b: FileId, library: FileId)
    requires n < |rows| && ResolvesTo(m, rows[n].arch, rows[n].soname, rows[n].path, library)
    ensures Needs(m, rows, n + 1, a, b) <==> Needs(m, rows, n, a, b) || (b != NO_FILE && a == rows[n].file && b == library)
  {
    hide ResolvesTo;
    if ResolvesTo(m, rows[n].arch, rows[n].soname, rows[n].path, b) {
      ResolvesToUnique(m, rows[n].arch, rows[n].soname, rows[n].path, b, library);
    }
  }

  /** The direct dependencies, one lookup per row. */
  method DirectDependencies(m: ArchSonameMap, rows: seq<NeededRow>) returns (base: DependencyMap)
    requires Populated(m)
    ensures forall a, b :: Edge(base, a, b) <==> Needs(m, rows, |rows|, a, b)
  {
    base := map[];
    for row := 0 to |rows|
      invariant forall a, b :: Edge(base, a, b) <==> Needs(m, rows, row, a, b)
    {
      hide Needs, ResolvesTo, Populated;
      ghost var before := base;
      var r := rows[row];
      var library, _ := Lookup(m, r.arch, r.soname, r.path);
      if library != NO_FILE {
        base := base[r.file := (if r.file in base then base[r.file] else {}) + {library}];
      }
      forall a, b ensures Edge(base, a, b) <==> Needs(m, rows, row + 1, a, b) {
        NeedsNext(m, rows, row, a, b, library);
        assert Edge(before, a, b) <==> Needs(m, rows, row, a, b);
      }
    }
  }

  /** Each member of `p` directly needs the next. */
  ghost predicate NeedsChain(m: ArchSonameMap, rows: seq<NeededRow>, p: seq<FileId>) {
    forall i | 0 <= i < |p| - 1 :: Needs(m, rows, |rows|, p[i], p[i + 1])
  }

  ghost predicate NeedsTransitively(m: ArchSonameMap, rows: seq<NeededRow>, a: FileId, b: FileId) {
    exists p :: |p| >= 2 && p[0] == a && p[|p| - 1] == b && NeedsChain(m, rows, p)
  }

  /**
    The closure table: `b` is listed for `a` exactly when a chain of needed
    SONAMEs, resolved among the pruned providers, leads from `a` to `b`.
   */
  method UpdateElfClosure(providers: seq<ProviderRow>, needed: seq<NeededRow>)
    returns (closure: DependencyMap)
    ensures exists index, pruned ::
              && Indexes(index, providers, |providers|) && ConflictsSuppressed(index, pruned)
              && forall a, b :: Edge(closure, a, b) <==> NeedsTransitively(pruned, needed, a, b)
  {
    var index := IndexProviders(providers);
    PruningIsIdempotent(index);
    var archSoname := IgnoreSomeConflicts(index);
    var base := DirectDependencies(archSoname, needed);
    closure := TransitiveClosure(base);
    forall a, b ensures Reaches(base, a, b) <==> NeedsTransitively(archSoname, needed, a, b) {
      forall p ensures Chain(base, p) <==> NeedsChain(archSoname, needed, p) {
        forall i | 0 <= i < |p| - 1
          ensures Edge(base, p[i], p[i + 1]) <==> Needs(archSoname, needed, |needed|, p[i], p[i + 1]) {}
      }
    }
  }
}
