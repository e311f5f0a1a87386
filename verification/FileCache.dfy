/**
  The content-addressed file cache. The hash functions are a parameter, the
  directory is a map from names to entries, and whether the operating system
  carries out a request is decided by the caller.
 */
module FileCache {
  import opened Wrappers
  import opened Bytes
  import opened Base16

  datatype HashType = Md5 | Sha1 | Sha256

  type Hash = (HashType, seq<Byte>) -> seq<Byte>

  const TWO_TO_THE_64: nat := 0x1_0000_0000_0000_0000

  type U64 = x: nat | x < 0x1_0000_0000_0000_0000

  /** Stands for a length that is not known. */
  const NO_LENGTH: U64 := 0xFFFF_FFFF_FFFF_FFFF

  datatype Checksum = Checksum(value: seq<Byte>, length: U64, hashType: HashType)

  datatype Node = Regular(contents: seq<Byte>) | Directory

  type Dir = map<string, Node>

  datatype Error = LengthMismatch | DigestMismatch | System

  /** `hashed` is what the hash has been fed, `tempFile` is empty when there is nothing to clean up. */
  datatype Sink = Sink(csum: Checksum, tempFile: string, hashed: seq<Byte>, length: U64)

  const TMP := ".tmp"

  function Hex(csum: Checksum): string { Encoded(csum.value) }

  function TempName(csum: Checksum): string { Hex(csum) + TMP }

  function Wrapped(n: nat): U64 { n % TWO_TO_THE_64 }

  // ---- the operations ------------------------------------------------------------------

  /** `unlinkat`, whose failure is not reported. */
  function Unlinked(dir: Dir, name: string, unlinks: bool): Dir {
    if unlinks && name in dir && dir[name].Regular? then dir - {name} else dir
  }

  /** A new sink truncates its temporary file; if that fails, one that was there before is to be removed. */
  function Opened(dir: Dir, csum: Checksum, os: bool, unlinks: bool): (Dir, Option<Sink>) {
    var temp := TempName(csum);
    if os && !(temp in dir && dir[temp].Directory?) then
      (dir[temp := Regular([])], Some(Sink(csum, temp, [], 0)))
    else (Unlinked(dir, temp, unlinks), None)
  }

  predicate HasTemp(dir: Dir, s: Sink) { s.tempFile in dir && dir[s.tempFile].Regular? }

  /** A write goes to the file and then to the hash; one that fails stops behind `n` bytes of the file. */
  function Written(dir: Dir, s: Sink, buf: seq<Byte>, failed: Option<nat>): (Dir, Sink)
    requires HasTemp(dir, s) && (failed.Some? ==> failed.value <= |buf|)
  {
    var part := if failed.Some? then buf[..failed.value] else buf;
    (dir[s.tempFile := Regular(dir[s.tempFile].contents + part)],
     if failed.Some? then s else s.(hashed := s.hashed + buf, length := Wrapped(s.length + |buf|)))
  }

  /** The checks before the temporary file gets its final name. */
  function Verdict(hash: Hash, s: Sink): Option<Error> {
    if s.csum.length != NO_LENGTH && s.csum.length != s.length then Some(LengthMismatch)
    else if hash(s.csum.hashType, s.hashed) != s.csum.value then Some(DigestMismatch)
    else None
  }

  function Finished(hash: Hash, root: string, dir: Dir, s: Sink, os: bool): (Dir, Sink, Result<string, Error>)
    requires HasTemp(dir, s)
  {
    var verdict, hex := Verdict(hash, s), Hex(s.csum);
    if verdict.Some? then (dir, s, Err(verdict.value))
    else if os && !(hex in dir && dir[hex].Directory?) then
      ((dir - {s.tempFile})[hex := dir[s.tempFile]], s.(tempFile := ""), Ok(root + hex))
    else (dir, s, Err(System))
  }

  function Destroyed(dir: Dir, s: Sink, unlinks: bool): Dir {
    if s.tempFile == "" then dir else Unlinked(dir, s.tempFile, unlinks)
  }

  function LookedUp(root: string, dir: Dir, csum: Checksum): Option<string> {
    var hex := Hex(csum);
    if && hex in dir && dir[hex].Regular?
       && (csum.length == NO_LENGTH || csum.length == Wrapped(|dir[hex].contents|))
    then Some(root + hex) else None
  }

  /** The names that are digests, in the order of the listing. */
  function Digests(listing: seq<string>): seq<seq<Byte>> {
    if listing == [] then []
    else
      (var d := Decoded(listing[0]); if d.Some? then [d.value] else []) + Digests(listing[1..])
  }

  // ---- names ------------------------------------------------------------------------------

  /** No name of a committed file is the name of a temporary file. */
  lemma {:induction false} TempIsNotEncoded(csum: Checksum)
    ensures !IsEncoded(TempName(csum)) && TempName(csum) != "" && Decoded(TempName(csum)).None?
  {
    assert TempName(csum)[|Hex(csum)|] == '.';
    if Decoded(TempName(csum)).Some? { DecodedDigits(TempName(csum), |Hex(csum)|); }
  }

  lemma {:induction false} TempNameIs(csum: Checksum)
    ensures TempName(csum) == Encoded(csum.value) + ".tmp"
  {
  }

  lemma {:induction false} DecodedDigits(s: string, i: nat)
    requires Decoded(s).Some? && i < |s|
    ensures DigitValue(s[i]).Some?
  {
    if i >= 2 { DecodedDigits(s[2..], i - 2); }
  }

  lemma {:induction false} TempInjective(a: Checksum, b: Checksum)
    requires TempName(a) == TempName(b)
    ensures a.value == b.value
  {
    assert Hex(a) == TempName(a)[..|TempName(a)| - 4] && Hex(b) == TempName(b)[..|TempName(b)| - 4];
    EncodedInjective(a.value, b.value);
  }

  // ---- runs over any number of sinks --------------------------------------------------------

  /**
    `broken` are the sinks that failed; their users only destroy them. `leaked` are the temporary
    files that could not be removed, until another sink for the same digest takes them over.
   */
  datatype Cache = Cache(dir: Dir, sinks: map<nat, Sink>, broken: set<nat>, leaked: set<string>)

  /** `os` and `unlinks` say whether the operating system does what it is asked for. */
  datatype Op =
    | Open(id: nat, csum: Checksum, os: bool, unlinks: bool)
    | Write(id: nat, buf: seq<Byte>, failed: Option<nat>)
    | Finish(id: nat, os: bool)
    | Destroy(id: nat, unlinks: bool)

  predicate Unfinished(c: Cache, id: nat) { id in c.sinks && c.sinks[id].tempFile != "" }

  /** What users must observe: one open sink per digest, and nothing but destruction after a failure. */
  ghost predicate Allowed(c: Cache, op: Op) {
    match op
    case Open(id, csum, _, _) =>
      id !in c.sinks && forall other | Unfinished(c, other) :: c.sinks[other].csum.value != csum.value
    case Write(id, buf, failed) =>
      && Unfinished(c, id) && id !in c.broken && HasTemp(c.dir, c.sinks[id])
      && (failed.Some? ==> failed.value <= |buf|)
    case Finish(id, _) => Unfinished(c, id) && id !in c.broken && HasTemp(c.dir, c.sinks[id])
    case Destroy(id, _) => id in c.sinks
  }

  function Step(hash: Hash, c: Cache, op: Op): Cache
    requires Allowed(c, op)
  {
    match op
    case Open(id, csum, os, unlinks) =>
      var (dir, sink) := Opened(c.dir, csum, os, unlinks);
      if sink.None? then c.(dir := dir, leaked := if unlinks then c.leaked - {TempName(csum)} else c.leaked)
      else Cache(dir, c.sinks[id := sink.value], c.broken - {id}, c.leaked - {TempName(csum)})
    case Write(id, buf, failed) =>
      var (dir, sink) := Written(c.dir, c.sinks[id], buf, failed);
      c.(dir := dir, sinks := c.sinks[id := sink], broken := if failed.Some? then c.broken + {id} else c.broken)
    case Finish(id, os) =>
      var (dir, sink, result) := Finished(hash, "", c.dir, c.sinks[id], os);
      c.(dir := dir, sinks := c.sinks[id := sink], broken := if result.Err? then c.broken + {id} else c.broken)
    case Destroy(id, unlinks) =>
      c.(dir := Destroyed(c.dir, c.sinks[id], unlinks), sinks := c.sinks - {id},
         leaked := if Unfinished(c, id) && !unlinks then c.leaked + {c.sinks[id].tempFile} else c.leaked)
  }

  /** The entry's name is the digest of its contents. */
  ghost predicate Committed(hash: Hash, name: string, node: Node) {
    node.Regular? && exists t :: name == Encoded(hash(t, node.contents))
  }

  /** The sink has a temporary file of its own, which holds what was hashed unless a write failed. */
  predicate GoodSink(c: Cache, id: nat)
    requires id in c.sinks
  {
    var s := c.sinks[id];
    && s.tempFile == TempName(s.csum)
    && HasTemp(c.dir, s)
    && (id !in c.broken ==> c.dir[s.tempFile].contents == s.hashed && s.length == Wrapped(|s.hashed|))
  }

  ghost predicate OwnTemp(c: Cache, name: string) { exists id :: Unfinished(c, id) && c.sinks[id].tempFile == name }

  /** `stale` are the names in the directory that the cache has not put there. */
  ghost predicate Inv(hash: Hash, stale: set<string>, c: Cache) {
    && (forall name | name in c.dir && IsEncoded(name) :: Committed(hash, name, c.dir[name]))
    && (forall name | name in c.dir && !IsEncoded(name) :: name in stale || name in c.leaked || OwnTemp(c, name))
    && (forall name | name in c.leaked :: name in c.dir && !IsEncoded(name) && c.dir[name].Regular?)
    && (forall id | Unfinished(c, id) :: GoodSink(c, id) && c.sinks[id].tempFile !in c.leaked)
    && (forall a, b | Unfinished(c, a) && Unfinished(c, b) && a != b :: c.sinks[a].csum.value != c.sinks[b].csum.value)
  }

  lemma {:induction false} OwnTempIs(hash: Hash, stale: set<string>, c: Cache, id: nat)
    requires Inv(hash, stale, c) && Unfinished(c, id)
    ensures HasTemp(c.dir, c.sinks[id]) && c.sinks[id].tempFile == TempName(c.sinks[id].csum)
    ensures !IsEncoded(c.sinks[id].tempFile)
    ensures forall other | Unfinished(c, other) && other != id :: c.sinks[other].tempFile != c.sinks[id].tempFile
  {
    hide TempName, IsEncoded, Committed, HasTemp;
    TempIsNotEncoded(c.sinks[id].csum);
    forall other | Unfinished(c, other) && other != id ensures c.sinks[other].tempFile != c.sinks[id].tempFile {
      assert GoodSink(c, other) && GoodSink(c, id);
      if c.sinks[other].tempFile == c.sinks[id].tempFile { TempInjective(c.sinks[other].csum, c.sinks[id].csum); }
    }
  }

  lemma {:induction false} EncodedNames(csum: Checksum)
    ensures IsEncoded(Hex(csum))
  {
    EncodedDigits(csum.value);
  }

  lemma {:induction false} OpenKeepsInv(hash: Hash, stale: set<string>, c: Cache, id: nat, csum: Checksum, os: bool, unlinks: bool)
    requires Inv(hash, stale, c) && Allowed(c, Open(id, csum, os, unlinks))
    ensures Inv(hash, stale, Step(hash, c, Open(id, csum, os, unlinks)))
  {
    hide TempName, IsEncoded, Committed;
    var d := Step(hash, c, Open(id, csum, os, unlinks));
    var temp := TempName(csum);
    TempIsNotEncoded(csum);
    forall other | Unfinished(c, other) ensures c.sinks[other].tempFile != temp {
      assert GoodSink(c, other);
      if c.sinks[other].tempFile == temp { TempInjective(c.sinks[other].csum, csum); }
    }
    forall other | Unfinished(d, other) && other != id ensures GoodSink(d, other) && Unfinished(c, other) {
      assert Unfinished(c, other) && GoodSink(c, other);
    }
    forall name | name in d.dir && !IsEncoded(name) ensures name in stale || name in d.leaked || OwnTemp(d, name) {
      if id in d.sinks && name == temp {
        assert Unfinished(d, id);
      } else if name in c.dir && OwnTemp(c, name) {
        var other :| Unfinished(c, other) && c.sinks[other].tempFile == name;
        assert Unfinished(d, other) && d.sinks[other].tempFile == name;
      }
    }
  }

  lemma {:induction false} WriteKeepsInv(hash: Hash, stale: set<string>, c: Cache, id: nat, buf: seq<Byte>, failed: Option<nat>)
    requires Inv(hash, stale, c) && Allowed(c, Write(id, buf, failed))
    ensures Inv(hash, stale, Step(hash, c, Write(id, buf, failed)))
  {
    hide TempName, IsEncoded, Committed;
    var d := Step(hash, c, Write(id, buf, failed));
    OwnTempIs(hash, stale, c, id);
    forall other ensures Unfinished(d, other) <==> Unfinished(c, other) { }
    forall name | name in d.dir && !IsEncoded(name) ensures name in stale || name in d.leaked || OwnTemp(d, name) {
      if OwnTemp(c, name) {
        var other :| Unfinished(c, other) && c.sinks[other].tempFile == name;
        assert Unfinished(d, other) && d.sinks[other].tempFile == name;
      }
    }
  }

  /** A sink that is not finished only becomes broken. */
  lemma {:induction false} FailedFinishKeepsInv(hash: Hash, stale: set<string>, c: Cache, id: nat, os: bool)
    requires Inv(hash, stale, c) && Allowed(c, Finish(id, os))
    requires Finished(hash, "", c.dir, c.sinks[id], os).2.Err?
    ensures Inv(hash, stale, Step(hash, c, Finish(id, os)))
  {
    hide TempName, IsEncoded, Hex, Committed;
    var d := Step(hash, c, Finish(id, os));
    assert d.dir == c.dir && d.sinks == c.sinks && d.leaked == c.leaked;
    forall other ensures Unfinished(d, other) <==> Unfinished(c, other) { }
    forall name | OwnTemp(c, name) ensures OwnTemp(d, name) {
      var other :| Unfinished(c, other) && c.sinks[other].tempFile == name;
      assert Unfinished(d, other) && d.sinks[other].tempFile == name;
    }
  }

  /** A sink that is finished hands its file over to the committed ones. */
  lemma {:induction false} PassedFinishKeepsInv(hash: Hash, stale: set<string>, c: Cache, id: nat, os: bool)
    requires Inv(hash, stale, c) && Allowed(c, Finish(id, os))
    requires Finished(hash, "", c.dir, c.sinks[id], os).2.Ok?
    ensures Inv(hash, stale, Step(hash, c, Finish(id, os)))
  {
    hide TempName, IsEncoded, Hex, Committed;
    var d := Step(hash, c, Finish(id, os));
    var s := c.sinks[id];
    OwnTempIs(hash, stale, c, id);
    EncodedNames(s.csum);
    assert GoodSink(c, id);
    CommittedByFinish(hash, s, c.dir[s.tempFile]);
    hide Verdict;
    assert d.dir == (c.dir - {s.tempFile})[Hex(s.csum) := c.dir[s.tempFile]];
    assert d.sinks == c.sinks[id := s.(tempFile := "")] && d.broken == c.broken && d.leaked == c.leaked;
    hide Finished, Step;
    forall other | Unfinished(d, other)
      ensures GoodSink(d, other) && Unfinished(c, other) && other != id && d.sinks[other] == c.sinks[other]
    {
      assert Unfinished(c, other) && GoodSink(c, other);
      TempIsNotEncoded(c.sinks[other].csum);
    }
    hide GoodSink;
    forall name | name in d.dir && !IsEncoded(name) ensures name in stale || name in d.leaked || OwnTemp(d, name) {
      if OwnTemp(c, name) {
        var other :| Unfinished(c, other) && c.sinks[other].tempFile == name;
        assert Unfinished(d, other) && d.sinks[other].tempFile == name;
      }
    }
  }

  lemma {:induction false} FinishKeepsInv(hash: Hash, stale: set<string>, c: Cache, id: nat, os: bool)
    requires Inv(hash, stale, c) && Allowed(c, Finish(id, os))
    ensures Inv(hash, stale, Step(hash, c, Finish(id, os)))
  {
    hide Inv, Step, Finished;
    if Finished(hash, "", c.dir, c.sinks[id], os).2.Ok? {
      PassedFinishKeepsInv(hash, stale, c, id, os);
    } else {
      FailedFinishKeepsInv(hash, stale, c, id, os);
    }
  }

  /** A sink that passes the checks has hashed what its name says. */
  lemma {:induction false} CommittedByFinish(hash: Hash, s: Sink, node: Node)
    requires Verdict(hash, s).None? && node == Regular(s.hashed)
    ensures Committed(hash, Hex(s.csum), node)
  {
    assert Hex(s.csum) == Encoded(hash(s.csum.hashType, node.contents));
  }

  lemma {:induction false} DestroyKeepsInv(hash: Hash, stale: set<string>, c: Cache, id: nat, unlinks: bool)
    requires Inv(hash, stale, c) && Allowed(c, Destroy(id, unlinks))
    ensures Inv(hash, stale, Step(hash, c, Destroy(id, unlinks)))
  {
    hide TempName, IsEncoded, Committed;
    var d := Step(hash, c, Destroy(id, unlinks));
    if Unfinished(c, id) { OwnTempIs(hash, stale, c, id); }
    forall other | Unfinished(d, other) ensures GoodSink(d, other) && Unfinished(c, other) {
      assert Unfinished(c, other) && GoodSink(c, other);
    }
    forall name | name in d.dir && !IsEncoded(name) ensures name in stale || name in d.leaked || OwnTemp(d, name) {
      if OwnTemp(c, name) && name !in d.leaked {
        var other :| Unfinished(c, other) && c.sinks[other].tempFile == name;
        assert Unfinished(d, other) && d.sinks[other].tempFile == name;
      }
    }
  }

  /** Every operation keeps names and contents in agreement, and accounts for every temporary file. */
  lemma {:induction false} StepKeepsInv(hash: Hash, stale: set<string>, c: Cache, op: Op)
    requires Inv(hash, stale, c) && Allowed(c, op)
    ensures Inv(hash, stale, Step(hash, c, op))
  {
    hide Inv, Allowed, Step;
    match op
    case Open(id, csum, os, unlinks) => OpenKeepsInv(hash, stale, c, id, csum, os, unlinks);
    case Write(id, buf, failed) => WriteKeepsInv(hash, stale, c, id, buf, failed);
    case Finish(id, os) => FinishKeepsInv(hash, stale, c, id, os);
    case Destroy(id, unlinks) => DestroyKeepsInv(hash, stale, c, id, unlinks);
  }

  /** Only a sink that passes all checks adds to the committed files, and nothing takes from them. */
  lemma {:induction false} CommittedStay(hash: Hash, stale: set<string>, c: Cache, op: Op, name: string)
    requires Inv(hash, stale, c) && Allowed(c, op) && IsEncoded(name)
    ensures var d := Step(hash, c, op);
            if op.Finish? && name == Hex(c.sinks[op.id].csum) && Finished(hash, "", c.dir, c.sinks[op.id], op.os).2.Ok? then
              name in d.dir && d.dir[name] == Regular(c.sinks[op.id].hashed) && Verdict(hash, c.sinks[op.id]).None?
            else
              (name in d.dir <==> name in c.dir) && (name in c.dir ==> d.dir[name] == c.dir[name])
  {
    hide IsEncoded, Hex, TempName, Committed;
    if op.Open? {
      TempIsNotEncoded(op.csum);
    } else if Unfinished(c, op.id) {
      OwnTempIs(hash, stale, c, op.id);
      assert GoodSink(c, op.id);
    }
  }

  /** A `finish` that fails changes nothing in the directory. */
  lemma {:induction false} FailedFinishChangesNothing(hash: Hash, stale: set<string>, c: Cache, id: nat, os: bool)
    requires Inv(hash, stale, c) && Allowed(c, Finish(id, os))
    ensures var r := Finished(hash, "", c.dir, c.sinks[id], os);
            r.2.Err? <==> Step(hash, c, Finish(id, os)).dir == c.dir
  {
    OwnTempIs(hash, stale, c, id);
    EncodedNames(c.sinks[id].csum);
  }

  ghost predicate AllowedRun(hash: Hash, c: Cache, ops: seq<Op>)
    decreases |ops|
  {
    ops != [] ==> Allowed(c, ops[0]) && AllowedRun(hash, Step(hash, c, ops[0]), ops[1..])
  }

  function Run(hash: Hash, c: Cache, ops: seq<Op>): Cache
    requires AllowedRun(hash, c, ops)
    decreases |ops|
  {
    if ops == [] then c else Run(hash, Step(hash, c, ops[0]), ops[1..])
  }

  function AtStart(dir: Dir): Cache { Cache(dir, map[], {}, {}) }

  /** Why `finish` fails: first the length is compared, then the digest, and then the file is renamed. */
  lemma {:induction false} WhyNotFinished(hash: Hash, stale: set<string>, c: Cache, id: nat, os: bool)
    requires Inv(hash, stale, c) && Allowed(c, Finish(id, os))
    ensures var s := c.sinks[id];
            var r := Finished(hash, "", c.dir, s, os).2;
            && (r == Err(LengthMismatch) <==> s.csum.length != 0xFFFF_FFFF_FFFF_FFFF && s.csum.length != |s.hashed| % 0x1_0000_0000_0000_0000)
            && (r == Err(DigestMismatch) ==> hash(s.csum.hashType, s.hashed) != s.csum.value)
            && (r.Ok? || r == Err(System) ==> hash(s.csum.hashType, s.hashed) == s.csum.value)
  {
    assert GoodSink(c, id);
    hide TempName, IsEncoded, Hex, Committed;
  }

  /** What the directory held before the cache was opened on it, other than committed files. */
  function Stale(dir: Dir): set<string> { set name | name in dir && !IsEncoded(name) }

  ghost predicate CommittedOnly(hash: Hash, dir: Dir) {
    forall name | name in dir && IsEncoded(name) :: Committed(hash, name, dir[name])
  }

  lemma {:induction false} RunKeepsInv(hash: Hash, stale: set<string>, c: Cache, ops: seq<Op>)
    requires Inv(hash, stale, c) && AllowedRun(hash, c, ops)
    ensures Inv(hash, stale, Run(hash, c, ops))
    ensures forall name | name in c.dir && IsEncoded(name) :: name in Run(hash, c, ops).dir
    decreases |ops|
  {
    hide Inv, Allowed, Step, IsEncoded;
    if ops != [] {
      StepKeepsInv(hash, stale, c, ops[0]);
      forall name | name in c.dir && IsEncoded(name) ensures name in Step(hash, c, ops[0]).dir {
        CommittedStay(hash, stale, c, ops[0], name);
      }
      RunKeepsInv(hash, stale, Step(hash, c, ops[0]), ops[1..]);
    }
  }

  /**
    Over any run, committed files are named after their contents and stay. Every other file was there
    before, belongs to an open sink, or is one that could not be removed; and all of the latter are there.
   */
  lemma {:induction false} RunsAreClean(hash: Hash, dir: Dir, ops: seq<Op>)
    requires CommittedOnly(hash, dir) && AllowedRun(hash, AtStart(dir), ops)
    ensures var c := Run(hash, AtStart(dir), ops);
            && CommittedOnly(hash, c.dir)
            && (forall name | name in dir && IsEncoded(name) :: name in c.dir)
            && (forall name | name in Stale(c.dir) :: name in Stale(dir) || name in c.leaked || OwnTemp(c, name))
            && c.leaked <= Stale(c.dir)
  {
    hide IsEncoded, Committed, GoodSink;
    RunKeepsInv(hash, Stale(dir), AtStart(dir), ops);
  }

  /** When no sink is open, the temporary files that the cache has added are exactly those it could not remove. */
  lemma {:induction false} LeftExactlyIfNotRemoved(hash: Hash, dir: Dir, ops: seq<Op>, name: string)
    requires CommittedOnly(hash, dir) && AllowedRun(hash, AtStart(dir), ops)
    requires forall id :: !Unfinished(Run(hash, AtStart(dir), ops), id)
    requires name !in dir
    ensures name in Run(hash, AtStart(dir), ops).dir && !IsEncoded(name) <==> name in Run(hash, AtStart(dir), ops).leaked
  {
    hide IsEncoded, CommittedOnly, Run;
    RunsAreClean(hash, dir, ops);
  }

  /** The operations in which the operating system removes what it is asked to remove. */
  predicate Unlinks(op: Op) { (op.Open? || op.Destroy?) ==> op.unlinks }

  lemma {:induction false} NothingLeaks(hash: Hash, c: Cache, ops: seq<Op>)
    requires AllowedRun(hash, c, ops) && c.leaked == {} && forall i | 0 <= i < |ops| :: Unlinks(ops[i])
    ensures Run(hash, c, ops).leaked == {}
    decreases |ops|
  {
    hide Allowed;
    if ops != [] { NothingLeaks(hash, Step(hash, c, ops[0]), ops[1..]); }
  }

  /** Destroying a sink that was not finished leaves its temporary file exactly if it cannot be removed. */
  lemma {:induction false} DestroyLeaves(hash: Hash, stale: set<string>, c: Cache, id: nat, unlinks: bool)
    requires Inv(hash, stale, c) && Unfinished(c, id)
    ensures c.sinks[id].tempFile in Step(hash, c, Destroy(id, unlinks)).dir <==> !unlinks
  {
    OwnTempIs(hash, stale, c, id);
  }

  /** A failed attempt leaves a temporary file exactly if one was there that is not removed. */
  lemma {:induction false} FailedOpenLeaves(hash: Hash, stale: set<string>, c: Cache, id: nat, csum: Checksum, os: bool, unlinks: bool)
    requires Inv(hash, stale, c) && Allowed(c, Open(id, csum, os, unlinks))
    ensures var d := Step(hash, c, Open(id, csum, os, unlinks));
            id !in d.sinks ==>
              (TempName(csum) in d.dir <==> TempName(csum) in c.dir && (!unlinks || c.dir[TempName(csum)].Directory?))
  {
    hide TempName;
  }

  // ---- what is found in the cache --------------------------------------------------------------

  /** The length asked for is not known, or it is that of the data in 64 bits. */
  predicate LengthFits(length: U64, data: seq<Byte>) {
    length == 0xFFFF_FFFF_FFFF_FFFF || length == |data| % 0x1_0000_0000_0000_0000
  }

  ghost predicate Stored(dir: Dir, digest: seq<Byte>, data: seq<Byte>) {
    Encoded(digest) in dir && dir[Encoded(digest)] == Regular(data)
  }

  /** A lookup succeeds exactly if a file of that name and length is there. */
  lemma {:induction false} FoundExactlyIfStored(root: string, dir: Dir, csum: Checksum)
    ensures LookedUp(root, dir, csum) == Some(root + Encoded(csum.value)) <==>
              exists data :: Stored(dir, csum.value, data) && LengthFits(csum.length, data)
    ensures LookedUp(root, dir, csum) == None <==>
              forall data :: !(Stored(dir, csum.value, data) && LengthFits(csum.length, data))
  {
    if Encoded(csum.value) in dir && dir[Encoded(csum.value)].Regular? {
      assert Stored(dir, csum.value, dir[Encoded(csum.value)].contents);
    }
  }

  /** What has been added is found afterwards, by its digest alone or with its length. */
  lemma {:induction false} AddedIsFound(root: string, dir: Dir, csum: Checksum, data: seq<Byte>, again: Checksum)
    requires again.value == csum.value && LengthFits(again.length, data)
    ensures LookedUp(root, (dir - {TempName(csum)})[Hex(csum) := Regular(data)], again) == Some(root + Encoded(csum.value))
  {
    var after := (dir - {TempName(csum)})[Hex(csum) := Regular(data)];
    assert Stored(after, again.value, data);
    FoundExactlyIfStored(root, after, again);
  }

  /** A lookup finds contents with the digest asked for, and of the length asked for. */
  lemma {:induction false} LookupFindsContents(hash: Hash, root: string, dir: Dir, csum: Checksum)
    requires CommittedOnly(hash, dir)
    ensures LookedUp(root, dir, csum).Some? ==>
              && LookedUp(root, dir, csum).value == root + Hex(csum)
              && Hex(csum) in dir && dir[Hex(csum)].Regular?
              && (exists t :: hash(t, dir[Hex(csum)].contents) == csum.value)
              && (csum.length != NO_LENGTH ==> csum.length == Wrapped(|dir[Hex(csum)].contents|))
  {
    EncodedNames(csum);
    if LookedUp(root, dir, csum).Some? {
      var contents := dir[Hex(csum)].contents;
      var t :| Hex(csum) == Encoded(hash(t, contents));
      EncodedInjective(hash(t, contents), csum.value);
    }
  }

  /** The digest sizes tell the hash functions apart. */
  lemma {:induction false} LookupFindsType(hash: Hash, root: string, dir: Dir, csum: Checksum, size: HashType -> nat)
    requires CommittedOnly(hash, dir) && LookedUp(root, dir, csum).Some?
    requires forall t, data :: |hash(t, data)| == size(t)
    requires forall t, u :: size(t) == size(u) ==> t == u
    requires |csum.value| == size(csum.hashType)
    ensures hash(csum.hashType, dir[Hex(csum)].contents) == csum.value
  {
    LookupFindsContents(hash, root, dir, csum);
    var t :| hash(t, dir[Hex(csum)].contents) == csum.value;
    assert size(t) == size(csum.hashType);
  }

  /** A listing has every name once; whether it has the two entries of every directory makes no difference. */
  ghost predicate IsListing(listing: seq<string>, dir: Dir) {
    && (forall name | name in dir :: name in listing)
    && (forall name | name in listing :: name in dir || name == "." || name == "..")
    && (forall i, j | 0 <= i < j < |listing| :: listing[i] != listing[j])
  }

  lemma {:induction false} DigestsOf(listing: seq<string>, d: seq<Byte>)
    ensures d in Digests(listing) <==> exists i :: 0 <= i < |listing| && Decoded(listing[i]) == Some(d)
    decreases |listing|
  {
    if listing != [] {
      DigestsOf(listing[1..], d);
      assert forall i | 0 < i < |listing| :: listing[i] == listing[1..][i - 1];
    }
  }

  lemma {:induction false} DigestsInOrder(a: seq<string>, b: seq<string>)
    ensures Digests(a + b) == Digests(a) + Digests(b)
    decreases |a|
  {
    hide Decoded;
    if a == [] {
      assert a + b == b;
    } else {
      assert (a + b)[1..] == a[1..] + b;
      DigestsInOrder(a[1..], b);
    }
  }

  /** Where everything but committed files has been cleaned up, the digests are exactly those of the committed files. */
  lemma {:induction false} DigestsAreCommitted(hash: Hash, dir: Dir, listing: seq<string>, d: seq<Byte>)
    requires CommittedOnly(hash, dir) && IsListing(listing, dir)
    requires forall name | name in Stale(dir) :: Decoded(name).None?
    ensures d in Digests(listing) <==> Encoded(d) in dir
    ensures d in Digests(listing) ==> exists t, data :: dir[Encoded(d)] == Regular(data) && hash(t, data) == d
  {
    DigestsOf(listing, d);
    DecodedEncoded(d);
    EncodedDigits(d);
    DotsAreNoDigests();
    hide Decoded, Encoded;
    if i :| 0 <= i < |listing| && Decoded(listing[i]) == Some(d) {
      assert listing[i] in dir && IsEncoded(listing[i]);
      EncodedDecoded(listing[i]);
    }
    if Encoded(d) in dir {
      var t :| Encoded(d) == Encoded(hash(t, dir[Encoded(d)].contents));
      EncodedInjective(d, hash(t, dir[Encoded(d)].contents));
    }
  }

  lemma {:induction false} DotsAreNoDigests()
    ensures Decoded(".").None? && Decoded("..").None?
  {
  }

  // ---- the objects ---------------------------------------------------------------------------------

  class FileCache {
    const hash: Hash
    const root: string
    var directory: Dir

    constructor (path: string, hash: Hash, directory: Dir)
      ensures this.hash == hash && this.directory == directory
      ensures root == path || (path != "" && root == path + "/")
      ensures root != "" ==> root[|root| - 1] == '/'
    {
      this.hash, this.directory := hash, directory;
      root := if |path| > 0 && path[|path| - 1] != '/' then path + "/" else path;
    }

    method LookupPath(csum: Checksum) returns (path: Option<string>)
      ensures path == LookedUp(root, directory, csum)
    {
      var hex := Base16Encode(csum.value);
      if hex in directory && directory[hex].Regular? {
        var size := |directory[hex].contents|;
        if csum.length == NO_LENGTH || csum.length == Wrapped(size) { return Some(root + hex); }
      }
      return None;
    }

    /** Appends to `digests` in the order the directory is read; names that do not decode are passed over. */
    method ListDigests(listing: seq<string>, digests: seq<seq<Byte>>) returns (r: seq<seq<Byte>>)
      ensures r == digests + Digests(listing)
    {
      r := digests;
      assert listing[0..] == listing;
      for i := 0 to |listing|
        invariant r + Digests(listing[i..]) == digests + Digests(listing)
      {
        hide Decoded;
        assert listing[i..][0] == listing[i] && listing[i..][1..] == listing[i + 1..];
        var decoded, _ := Base16Decode(listing[i]);
        ghost var before := r;
        if decoded.Some? { r := r + [decoded.value]; }
        assert before + Digests(listing[i..]) == r + Digests(listing[i + 1..]);
      }
      assert listing[|listing|..] == [] && r + [] == r;
    }

    /** The directory is opened for a new temporary file; if this fails, there is no sink. */
    method OpenSink(csum: Checksum, os: bool, unlinks: bool) returns (sink: AddSink?)
      modifies this
      ensures directory == Opened(old(directory), csum, os, unlinks).0
      ensures sink == null <==> Opened(old(directory), csum, os, unlinks).1.None?
      ensures sink != null ==> fresh(sink) && sink.cache == this
      ensures sink != null ==> Some(sink.Abstract()) == Opened(old(directory), csum, os, unlinks).1
    {
      var hex := Base16Encode(csum.value);
      var temp := hex + TMP;
      if os && !(temp in directory && directory[temp].Directory?) {
        directory := directory[temp := Regular([])];
        sink := new AddSink(this, csum, temp);
      } else {
        directory := Unlinked(directory, temp, unlinks);
        sink := null;
      }
    }

    /**
      Stores the data under its digest if it has the digest and the length asked for and nothing fails.
      Otherwise, a temporary file is left exactly if one is there and cannot be removed.
     */
    method Add(csum: Checksum, data: seq<Byte>, opens: bool, failed: Option<nat>, finishes: bool, unlinks: bool)
      returns (r: Result<string, Error>)
      requires failed.Some? ==> failed.value <= |data|
      modifies this
      ensures r.Ok? <==> && CanOpen(old(directory), csum, opens) && failed.None? && finishes
                         && LengthFits(csum.length, data) && hash(csum.hashType, data) == csum.value
                         && !(Hex(csum) in old(directory) && old(directory)[Hex(csum)].Directory?)
      ensures r.Ok? ==> r.value == root + Hex(csum)
      ensures r.Ok? ==> directory == (old(directory) - {TempName(csum)})[Hex(csum) := Regular(data)]
      ensures r.Err? ==> directory == Unlinked(Attempted(old(directory), csum, data, opens, failed), TempName(csum), unlinks)
    {
      if CanOpen(directory, csum, opens) && failed.None? { WrittenAndFinished(hash, root, directory, csum, data, finishes); }
      hide Hex, TempName, Finished, LengthFits;
      OpenedAndWritten(directory, csum, data, opens, failed, unlinks);
      hide Attempted, CanOpen, Opened, Written, Unlinked;
      var sink := OpenSink(csum, opens, unlinks);
      if sink == null { return Err(System); }
      var written := sink.Write(data, failed);
      if written {
        r := sink.Finish(finishes);
      } else {
        r := Err(System);
      }
      sink.Destroy(unlinks);
    }
  }

  predicate CanOpen(dir: Dir, csum: Checksum, opens: bool) {
    opens && !(TempName(csum) in dir && dir[TempName(csum)].Directory?)
  }

  /** The directory with the data written so far in the temporary file. */
  function Attempted(dir: Dir, csum: Checksum, data: seq<Byte>, opens: bool, failed: Option<nat>): Dir
    requires failed.Some? ==> failed.value <= |data|
  {
    if CanOpen(dir, csum, opens)
    then dir[TempName(csum) := Regular(if failed.Some? then data[..failed.value] else data)]
    else dir
  }

  lemma {:induction false} OpenedAndWritten(dir: Dir, csum: Checksum, data: seq<Byte>, opens: bool, failed: Option<nat>, unlinks: bool)
    requires failed.Some? ==> failed.value <= |data|
    ensures var (begun, sink) := Opened(dir, csum, opens, unlinks);
            && (sink.Some? <==> CanOpen(dir, csum, opens))
            && (sink.None? ==> begun == Unlinked(Attempted(dir, csum, data, opens, failed), TempName(csum), unlinks))
            && (sink.Some? ==>
                  && HasTemp(begun, sink.value)
                  && Written(begun, sink.value, data, failed) ==
                       (Attempted(dir, csum, data, opens, failed),
                        Sink(csum, TempName(csum), if failed.Some? then [] else data,
                             if failed.Some? then 0 else Wrapped(|data|)))
                  && HasTemp(Attempted(dir, csum, data, opens, failed), sink.value)
                  && (failed.None? ==> Attempted(dir, csum, data, opens, failed) == dir[TempName(csum) := Regular(data)]))
  {
    hide TempName;
    var temp, part := TempName(csum), if failed.Some? then data[..failed.value] else data;
    assert [] + part == part;
    assert dir[temp := Regular([])][temp := Regular(part)] == dir[temp := Regular(part)];
  }

  lemma {:induction false} WrittenAndFinished(hash: Hash, root: string, dir: Dir, csum: Checksum, data: seq<Byte>, finishes: bool)
    requires CanOpen(dir, csum, true)
    ensures var sink := Sink(csum, TempName(csum), data, Wrapped(|data|));
            var written := Attempted(dir, csum, data, true, None);
            var (after, done, r) := Finished(hash, root, written, sink, finishes);
            && (r.Ok? <==> finishes && LengthFits(csum.length, data) && hash(csum.hashType, data) == csum.value && !(Hex(csum) in dir && dir[Hex(csum)].Directory?))
            && (r.Ok? ==> r.value == root + Hex(csum) && done.tempFile == "")
            && (r.Ok? ==> after == (dir - {TempName(csum)})[Hex(csum) := Regular(data)])
            && (r.Err? ==> after == written && done == sink)
  {
    TempIsNotEncoded(csum);
    EncodedNames(csum);
    hide IsEncoded, Hex, TempName;
  }

  class AddSink {
    const cache: FileCache
    const csum: Checksum
    var tempFile: string
    var hashed: seq<Byte>
    var length: U64

    constructor (cache: FileCache, csum: Checksum, tempFile: string)
      ensures this.cache == cache && Abstract() == Sink(csum, tempFile, [], 0)
    {
      this.cache, this.csum, this.tempFile, hashed, length := cache, csum, tempFile, [], 0;
    }

    ghost function Abstract(): Sink
      reads this
    {
      Sink(csum, tempFile, hashed, length)
    }

    /** The file is written before the hash; a failure leaves part of the data in the file alone. */
    method Write(buf: seq<Byte>, failed: Option<nat>) returns (ok: bool)
      requires HasTemp(cache.directory, Abstract()) && (failed.Some? ==> failed.value <= |buf|)
      modifies this, cache
      ensures ok <==> failed.None?
      ensures (cache.directory, Abstract()) == Written(old(cache.directory), old(Abstract()), buf, failed)
    {
      var contents := cache.directory[tempFile].contents;
      if failed.Some? {
        cache.directory := cache.directory[tempFile := Regular(contents + buf[..failed.value])];
        return false;
      }
      cache.directory := cache.directory[tempFile := Regular(contents + buf)];
      hashed := hashed + buf;
      length := Wrapped(length + |buf|);
      return true;
    }

    method Finish(os: bool) returns (path: Result<string, Error>)
      requires HasTemp(cache.directory, Abstract())
      modifies this, cache
      ensures (cache.directory, Abstract(), path) ==
                Finished(cache.hash, cache.root, old(cache.directory), old(Abstract()), os)
    {
      if csum.length != NO_LENGTH && csum.length != length { return Err(LengthMismatch); }
      var digest := cache.hash(csum.hashType, hashed);
      if digest != csum.value { return Err(DigestMismatch); }
      var hex := Base16Encode(csum.value);
      if !os || (hex in cache.directory && cache.directory[hex].Directory?) { return Err(System); }
      var node := cache.directory[tempFile];
      cache.directory := (cache.directory - {tempFile})[hex := node];
      tempFile := "";
      return Ok(cache.root + hex);
    }

    /** Tries to clean up the temporary file unless it was given its final name. */
    method Destroy(unlinks: bool)
      modifies cache
      ensures cache.directory == Destroyed(old(cache.directory), Abstract(), unlinks)
    {
      if tempFile != "" { cache.directory := Unlinked(cache.directory, tempFile, unlinks); }
    }
  }
}
