/**
  Picking the newest version of each package: the order on epoch, version and
  release, and the nested map that keeps one value per architecture and name.
  The comparison of version strings (`rpmvercmp`) is a parameter.
 */
module Consolidator {
  import opened Wrappers
  import opened Ordering

  // ---- the order of versions -------------------------------------------------------

  datatype Evr = Evr(epoch: string, version: string, release: string)

  type Compare = (string, string) -> int

  /** What is asked of `rpmvercmp`: a total preorder. */
  ghost predicate TotalPreorder(cmp: Compare) {
    && (forall a, b :: cmp(a, b) < 0 <==> cmp(b, a) > 0)
    && (forall a, b, c :: cmp(a, b) <= 0 && cmp(b, c) <= 0 ==> cmp(a, c) <= 0)
  }

  /** `rpm_evr::operator<`. */
  predicate Older(a: Evr, b: Evr, cmp: Compare) {
    if a.epoch == b.epoch then
      var ret := cmp(a.version, b.version);
      if ret != 0 then ret < 0 else cmp(a.release, b.release) < 0
    else if |a.epoch| != |b.epoch| then |a.epoch| < |b.epoch|
    else Less(a.epoch, b.epoch)
  }

  lemma {:induction false} OlderIrreflexive(a: Evr, cmp: Compare)
    requires TotalPreorder(cmp)
    ensures !Older(a, a, cmp)
  {
    assert cmp(a.version, a.version) < 0 <==> cmp(a.version, a.version) > 0;
    assert cmp(a.release, a.release) < 0 <==> cmp(a.release, a.release) > 0;
  }

  /** Transitivity of the strict part. */
  lemma {:induction false} OlderTransitive(a: Evr, b: Evr, c: Evr, cmp: Compare)
    requires TotalPreorder(cmp) && Older(a, b, cmp) && Older(b, c, cmp)
    ensures Older(a, c, cmp)
  {
    EpochCases(a, b);
    EpochCases(b, c);
    EpochCases(a, c);
    if a.epoch == b.epoch == c.epoch {
      StrictChain(cmp, a.version, b.version, c.version);
      StrictChain(cmp, a.release, b.release, c.release);
    } else if |a.epoch| == |b.epoch| == |c.epoch| && a.epoch != b.epoch && b.epoch != c.epoch {
      LessTransitive(a.epoch, b.epoch, c.epoch);
      LessIrreflexive(a.epoch);
    }
  }

  /** Transitivity of being neither older nor newer: with the above, a strict weak order. */
  lemma {:induction false} TiesTransitive(a: Evr, b: Evr, c: Evr, cmp: Compare)
    requires TotalPreorder(cmp)
    requires !Older(a, b, cmp) && !Older(b, c, cmp)
    ensures !Older(a, c, cmp)
  {
    EpochCases(a, b);
    EpochCases(b, c);
    EpochCases(a, c);
    if a.epoch == b.epoch == c.epoch {
      StrictChain(cmp, c.version, b.version, a.version);
      StrictChain(cmp, c.release, b.release, a.release);
    } else if |a.epoch| == |b.epoch| == |c.epoch| && a.epoch != b.epoch && b.epoch != c.epoch {
      LessTransitive(c.epoch, b.epoch, a.epoch);
    }
  }

  lemma {:induction false} EpochCases(a: Evr, b: Evr)
    ensures a.epoch != b.epoch && |a.epoch| == |b.epoch| ==> (Less(a.epoch, b.epoch) <==> !Less(b.epoch, a.epoch))
  {
    LessTotal(a.epoch, b.epoch);
    if Less(a.epoch, b.epoch) { LessAsymmetric(a.epoch, b.epoch); }
  }

  lemma {:induction false} StrictChain(cmp: Compare, a: string, b: string, c: string)
    requires TotalPreorder(cmp)
    ensures cmp(a, b) <= 0 && cmp(b, c) <= 0 ==> cmp(a, c) <= 0
    ensures cmp(a, b) <= 0 && cmp(b, c) <= 0 && cmp(a, c) == 0 ==> cmp(a, b) == 0 && cmp(b, c) == 0
    ensures cmp(a, b) < 0 <==> cmp(b, a) > 0
    ensures cmp(b, c) < 0 <==> cmp(c, b) > 0
    ensures cmp(a, c) < 0 <==> cmp(c, a) > 0
    ensures (cmp(a, b) == 0 <==> cmp(b, a) == 0) && (cmp(b, c) == 0 <==> cmp(c, b) == 0) && (cmp(a, c) == 0 <==> cmp(c, a) == 0)
  {
    assert cmp(a, b) < 0 <==> cmp(b, a) > 0;
    assert cmp(b, a) < 0 <==> cmp(a, b) > 0;
    assert cmp(b, c) < 0 <==> cmp(c, b) > 0;
    assert cmp(c, b) < 0 <==> cmp(b, c) > 0;
    assert cmp(a, c) < 0 <==> cmp(c, a) > 0;
    assert cmp(c, a) < 0 <==> cmp(a, c) > 0;
    if cmp(a, b) <= 0 && cmp(b, c) <= 0 && cmp(a, c) == 0 {
      assert cmp(c, a) <= 0 && cmp(a, b) <= 0 ==> cmp(c, b) <= 0;
      assert cmp(b, c) <= 0 && cmp(c, a) <= 0 ==> cmp(b, a) <= 0;
    }
  }

  // ---- epochs as decimal numbers -------------------------------------------------------

  /** Decimal digits without leading zeros. */
  predicate IsDecimal(s: string) {
    s != "" && (|s| > 1 ==> s[0] != '0') && forall i | 0 <= i < |s| :: '0' <= s[i] <= '9'
  }

  function Power10(n: nat): nat { if n == 0 then 1 else 10 * Power10(n - 1) }

  function DecimalValue(s: string): int {
    if s == "" then 0 else (s[0] as int - '0' as int) * Power10(|s| - 1) + DecimalValue(s[1..])
  }

  lemma {:induction false} DecimalBound(s: string)
    requires forall i | 0 <= i < |s| :: '0' <= s[i] <= '9'
    ensures 0 <= DecimalValue(s) < Power10(|s|)
  {
    if s != "" {
      DecimalBound(s[1..]);
      Scaled(s[0] as int - '0' as int, 9, Power10(|s| - 1));
      Scaled(0, s[0] as int - '0' as int, Power10(|s| - 1));
    }
  }

  lemma {:induction false} Scaled(a: int, b: int, n: nat)
    requires a <= b
    ensures a * n <= b * n
  {
  }

  lemma {:induction false} Power10Grows(m: nat, n: nat)
    requires m <= n
    ensures 1 <= Power10(m) <= Power10(n)
    decreases n
  {
    if m < n { Power10Grows(m, n - 1); } else if n > 0 { Power10Grows(m - 1, n - 1); }
  }

  lemma {:induction false} SameLengthOrder(a: string, b: string)
    requires |a| == |b|
    requires forall i | 0 <= i < |a| :: '0' <= a[i] <= '9' && '0' <= b[i] <= '9'
    ensures Less(a, b) <==> DecimalValue(a) < DecimalValue(b)
  {
    if a != "" {
      SameLengthOrder(a[1..], b[1..]);
      DecimalBound(a[1..]);
      DecimalBound(b[1..]);
      FirstDigitDecides(a[0] as int - '0' as int, b[0] as int - '0' as int, Power10(|a| - 1), DecimalValue(a[1..]), DecimalValue(b[1..]));
      hide Power10;
    }
  }

  lemma {:induction false} FirstDigitDecides(x: int, y: int, n: int, low: int, other: int)
    requires 0 <= low < n && 0 <= other < n
    ensures x < y ==> x * n + low < y * n + other
    ensures y < x ==> y * n + other < x * n + low
  {
    assert (x + 1) * n == x * n + n && (y + 1) * n == y * n + n;
    if x < y { ScaledInt(x + 1, y, n); }
    if y < x { ScaledInt(y + 1, x, n); }
  }

  lemma {:induction false} ScaledInt(a: int, b: int, n: int)
    requires a <= b && n >= 0
    ensures a * n <= b * n
  {
  }

  /** Comparing the lengths first makes the order of decimal epochs the order of their numbers. */
  lemma {:induction false} DecimalEpochsCompareAsNumbers(a: Evr, b: Evr, cmp: Compare)
    requires IsDecimal(a.epoch) && IsDecimal(b.epoch) && a.epoch != b.epoch
    ensures Older(a, b, cmp) <==> DecimalValue(a.epoch) < DecimalValue(b.epoch)
  {
    if |a.epoch| == |b.epoch| {
      SameLengthOrder(a.epoch, b.epoch);
    } else if |a.epoch| < |b.epoch| {
      ShorterIsSmaller(a.epoch, b.epoch);
    } else {
      ShorterIsSmaller(b.epoch, a.epoch);
    }
  }

  lemma {:induction false} ShorterIsSmaller(a: string, b: string)
    requires IsDecimal(a) && IsDecimal(b) && |a| < |b|
    ensures DecimalValue(a) < DecimalValue(b)
  {
    DecimalBound(a);
    DecimalBound(b[1..]);
    Power10Grows(|a|, |b| - 1);
    Scaled(1, b[0] as int - '0' as int, Power10(|b| - 1));
  }

  // ---- epochs stored as one character ----------------------------------------------------

  /** Assigning an integer to a string stores one character. */
  function EpochString(epoch: int): string { [(epoch % 256) as char] }

  /** How versions and releases order when epochs are equal: the version decides, and then the release. */
  predicate OlderRelease(v: Evr, w: Evr, cmp: Compare) {
    cmp(v.version, w.version) < 0 || (cmp(v.version, w.version) == 0 && cmp(v.release, w.release) < 0)
  }

  /** With equal epochs, a difference of versions decides whatever the releases are. */
  lemma {:induction false} VersionDecides(a: Evr, b: Evr, cmp: Compare)
    requires a.epoch == b.epoch
    ensures cmp(a.version, b.version) != 0 ==> (Older(a, b, cmp) <==> cmp(a.version, b.version) < 0)
    ensures cmp(a.version, b.version) == 0 ==> (Older(a, b, cmp) <==> cmp(a.release, b.release) < 0)
    ensures Older(a, b, cmp) <==> OlderRelease(a, b, cmp)
  {
  }

  /** So epochs are compared modulo 256. */
  lemma {:induction false} EpochsCompareModulo256(a: int, b: int, v: Evr, w: Evr, cmp: Compare)
    ensures a % 256 != b % 256 ==>
              (Older(v.(epoch := EpochString(a)), w.(epoch := EpochString(b)), cmp) <==> a % 256 < b % 256)
    ensures a % 256 == b % 256 ==>
              (Older(v.(epoch := EpochString(a)), w.(epoch := EpochString(b)), cmp) <==> OlderRelease(v, w, cmp))
  {
    var x, y := EpochString(a), EpochString(b);
    assert x[0] == (a % 256) as char && y[0] == (b % 256) as char;
    assert x[1..] == [] && y[1..] == [];
    assert Less(x, y) <==> x[0] < y[0];
  }

  /** The order that epochs are meant to have: by number, and by version when equal. */
  predicate NumericallyOlder(a: int, v: Evr, b: int, w: Evr, cmp: Compare) {
    a < b || (a == b && OlderRelease(v, w, cmp))
  }

  /**
    The order of the code is the numeric one exactly for epochs in the same block of 256, for those
    whose remainders order as they do, and for those with equal remainders whose versions do.
   */
  lemma {:induction false} EpochsAgreeExactly(a: int, b: int, v: Evr, w: Evr, cmp: Compare)
    ensures (Older(v.(epoch := EpochString(a)), w.(epoch := EpochString(b)), cmp) <==> NumericallyOlder(a, v, b, w, cmp))
       <==> || a / 256 == b / 256
            || (a % 256 != b % 256 && (a % 256 < b % 256 <==> a < b))
            || (a % 256 == b % 256 && (OlderRelease(v, w, cmp) <==> a < b))
  {
    EpochsCompareModulo256(a, b, v, w, cmp);
    hide Older, EpochString;
  }

  /** A package without an epoch has epoch -1, which outranks every epoch from 0 to 254. */
  lemma {:induction false} MissingEpochOutranks(epoch: int, v: Evr, w: Evr, cmp: Compare)
    requires 0 <= epoch < 255
    ensures Older(v.(epoch := EpochString(epoch)), w.(epoch := EpochString(-1)), cmp)
  {
    EpochsCompareModulo256(epoch, -1, v, w, cmp);
  }

  /** An epoch of 256 is older than an epoch of 1. */
  lemma {:induction false} LargeEpochsAreMisjudged(v: Evr, cmp: Compare)
    ensures Older(v.(epoch := EpochString(256)), v.(epoch := EpochString(1)), cmp)
  {
    EpochsCompareModulo256(256, 1, v, v, cmp);
  }

  // ---- the consolidator ----------------------------------------------------------------

  datatype Package = Package(name: string, arch: string, epoch: int, version: string, release: string)

  function EvrOf(p: Package): Evr { Evr(EpochString(p.epoch), p.version, p.release) }

  datatype Value<T> = Value(version: Evr, data: T)

  /** `i` is the earliest call among those of maximal version for that architecture and name. */
  ghost predicate IsNewest<T>(log: seq<(Package, T)>, cmp: Compare, arch: string, name: string, i: nat) {
    && i < |log| && log[i].0.arch == arch && log[i].0.name == name
    && (forall j | 0 <= j < |log| && log[j].0.arch == arch && log[j].0.name == name ::
          !Older(EvrOf(log[i].0), EvrOf(log[j].0), cmp))
    && (forall j | 0 <= j < i && log[j].0.arch == arch && log[j].0.name == name ::
          Older(EvrOf(log[j].0), EvrOf(log[i].0), cmp))
  }

  ghost predicate Added<T>(log: seq<(Package, T)>, arch: string, name: string) {
    exists i :: 0 <= i < |log| && log[i].0.arch == arch && log[i].0.name == name
  }

  predicate Matches(p: Package, arch: string, name: string) { p.arch == arch && p.name == name }

  /** Another call replaces the newest exactly when the newest is older. */
  lemma {:induction false} NewestStep<T>(log: seq<(Package, T)>, e: (Package, T), cmp: Compare, arch: string, name: string, i: nat)
    requires TotalPreorder(cmp) && IsNewest(log, cmp, arch, name, i)
    ensures IsNewest(log + [e], cmp, arch, name,
                     if Matches(e.0, arch, name) && Older(EvrOf(log[i].0), EvrOf(e.0), cmp) then |log| else i)
    ensures i < |log| && (log + [e])[i] == log[i] && (log + [e])[|log|] == e
  {
    hide Older, EvrOf;
    var all := log + [e];
    if Matches(e.0, arch, name) && Older(EvrOf(log[i].0), EvrOf(e.0), cmp) {
      var was, now := EvrOf(log[i].0), EvrOf(e.0);
      OlderIrreflexive(now, cmp);
      forall j | 0 <= j < |log| && log[j].0.arch == arch && log[j].0.name == name
        ensures !Older(now, EvrOf(log[j].0), cmp) && Older(EvrOf(log[j].0), now, cmp)
      {
        if Older(now, EvrOf(log[j].0), cmp) { OlderTransitive(was, now, EvrOf(log[j].0), cmp); }
        if !Older(EvrOf(log[j].0), now, cmp) { TiesTransitive(was, EvrOf(log[j].0), now, cmp); }
      }
      assert forall j | 0 <= j < |log| :: all[j] == log[j];
    } else {
      assert forall j | 0 <= j < |log| :: all[j] == log[j];
    }
  }

  lemma {:induction false} FirstIsNewest<T>(log: seq<(Package, T)>, e: (Package, T), cmp: Compare)
    requires TotalPreorder(cmp) && !Added(log, e.0.arch, e.0.name)
    ensures IsNewest(log + [e], cmp, e.0.arch, e.0.name, |log|)
  {
    OlderIrreflexive(EvrOf(e.0), cmp);
    hide Older, EvrOf;
    assert forall j | 0 <= j < |log| :: (log + [e])[j] == log[j] && !Matches(log[j].0, e.0.arch, e.0.name);
  }

  lemma {:induction false} AddedStep<T>(log: seq<(Package, T)>, e: (Package, T), arch: string, name: string)
    ensures Added(log + [e], arch, name) <==> Added(log, arch, name) || Matches(e.0, arch, name)
  {
    var all := log + [e];
    if Added(log, arch, name) {
      var i :| 0 <= i < |log| && log[i].0.arch == arch && log[i].0.name == name;
      assert all[i] == log[i];
    }
    if Matches(e.0, arch, name) { assert all[|log|] == e; }
  }

  /** The newest version is unique, so it determines the value. */
  lemma {:induction false} NewestUnique<T>(log: seq<(Package, T)>, cmp: Compare, arch: string, name: string, i: nat, k: nat)
    requires IsNewest(log, cmp, arch, name, i) && IsNewest(log, cmp, arch, name, k)
    ensures i == k
  {
  }

  type Packages<T> = map<string, map<string, Value<T>>>

  /** The value of `k` is the one added earliest among those of maximal version. */
  ghost predicate IsAnswer<T>(log: seq<(Package, T)>, cmp: Compare, arch: string, name: string, v: Value<T>) {
    exists i: nat :: i < |log| && IsNewest(log, cmp, arch, name, i) && v == Value(EvrOf(log[i].0), log[i].1)
  }

  /** The map holds, for exactly the pairs that have been added, the newest value. */
  ghost predicate Consolidates<T>(packages: Packages<T>, log: seq<(Package, T)>, cmp: Compare) {
    && (forall a, n :: a in packages && n in packages[a] <==> Added(log, a, n))
    && (forall a, n | a in packages && n in packages[a] :: IsAnswer(log, cmp, a, n, packages[a][n]))
  }

  /** One call of `add`, on the innermost value. */
  lemma {:induction false} AnswerStep<T>(log: seq<(Package, T)>, e: (Package, T), cmp: Compare, arch: string, name: string, v: Value<T>)
    requires TotalPreorder(cmp) && IsAnswer(log, cmp, arch, name, v)
    ensures IsAnswer(log + [e], cmp, arch, name,
                     if Matches(e.0, arch, name) && Older(v.version, EvrOf(e.0), cmp) then Value(EvrOf(e.0), e.1) else v)
  {
    hide IsNewest, Older, EvrOf;
    var i: nat :| i < |log| && IsNewest(log, cmp, arch, name, i) && v == Value(EvrOf(log[i].0), log[i].1);
    NewestStep(log, e, cmp, arch, name, i);
  }

  lemma {:induction false} FirstAnswer<T>(log: seq<(Package, T)>, e: (Package, T), cmp: Compare)
    requires TotalPreorder(cmp) && !Added(log, e.0.arch, e.0.name)
    ensures IsAnswer(log + [e], cmp, e.0.arch, e.0.name, Value(EvrOf(e.0), e.1))
  {
    FirstIsNewest(log, e, cmp);
    assert (log + [e])[|log|] == e;
  }

  class PackageSetConsolidator<T> {
    var packages: Packages<T>
    const cmp: Compare
    ghost var log: seq<(Package, T)>

    ghost predicate Valid()
      reads this
    {
      TotalPreorder(cmp) && Consolidates(packages, log, cmp)
    }

    constructor (cmp: Compare)
      requires TotalPreorder(cmp)
      ensures Valid() && log == [] && this.cmp == cmp
    {
      packages, this.cmp, log := map[], cmp, [];
    }

    method Add(info: Package, v: T)
      requires Valid()
      modifies this
      ensures Valid() && log == old(log) + [(info, v)]
    {
      hide IsNewest, Older, EvrOf, Added, IsAnswer, TotalPreorder;
      ghost var before, e := packages, (info, v);
      var evr := EvrOf(info);
      var nmap := if info.arch in packages then packages[info.arch] else map[];
      if info.name !in nmap {
        FirstAnswer(log, e, cmp);
        nmap := nmap[info.name := Value(evr, v)];
      } else {
        AnswerStep(log, e, cmp, info.arch, info.name, nmap[info.name]);
        if Older(nmap[info.name].version, evr, cmp) {
          nmap := nmap[info.name := Value(evr, v)];
        }
      }
      packages := packages[info.arch := nmap];
      log := log + [e];
      forall a, n ensures a in packages && n in packages[a] <==> Added(log, a, n) {
        AddedStep(old(log), e, a, n);
      }
      forall a, n | a in packages && n in packages[a] ensures IsAnswer(log, cmp, a, n, packages[a][n]) {
        if !Matches(info, a, n) { AnswerStep(old(log), e, cmp, a, n, before[a][n]); }
      }
    }

    /** The inner loop: the values of one architecture, by name. */
    method CollectNames(a: string, done: seq<T>, ghost doneKeys: seq<(string, string)>)
      returns (result: seq<T>, ghost keys: seq<(string, string)>)
      requires Valid() && a in packages && AnswersAll(log, cmp, doneKeys, done) && Ordered(doneKeys)
      requires forall k | k in doneKeys :: Less(k.0, a)
      ensures AnswersAll(log, cmp, keys, result) && Ordered(keys)
      ensures forall k :: k in keys <==> k in doneKeys || (k.0 == a && k.1 in packages[a])
    {
      hide IsNewest, Older, EvrOf, Added, Less, TotalPreorder, AnswersAll, Ordered;
      result, keys := done, doneKeys;
      var arch := packages[a];
      var namep := NextString(arch.Keys, None);
      while namep.Some?
        invariant namep.Some? ==> namep.value in arch
        invariant forall k :: k in keys <==> k in doneKeys || (k.0 == a && k.1 in arch && Passed(k.1, namep))
        invariant Ordered(keys) && AnswersAll(log, cmp, keys, result)
        decreases namep.Some?, set n | n in arch && !Passed(n, namep)
      {
        var n := namep.value;
        assert IsAnswer(log, cmp, a, n, packages[a][n]);
        ExtendAnswers(log, cmp, keys, result, (a, n), arch[n]);
        ExtendOrdered(keys, (a, n));
        result := result + [arch[n].data];
        keys := keys + [(a, n)];
        namep := NextString(arch.Keys, Some(n));
        PassedNext(arch.Keys, n, namep);
      }
    }

    /** One value for every pair that has been added, ordered by architecture and name. */
    method Values() returns (result: seq<T>)
      requires Valid()
      ensures AllNewest(log, cmp, result)
    {
      hide IsNewest, Older, EvrOf, Added, Less, TotalPreorder;
      result := [];
      ghost var keys: seq<(string, string)> := [];
      var archp := NextString(packages.Keys, None);
      while archp.Some?
        invariant archp.Some? ==> archp.value in packages
        invariant forall k :: k in keys <==> k.0 in packages && k.1 in packages[k.0] && Passed(k.0, archp)
        invariant Ordered(keys) && AnswersAll(log, cmp, keys, result)
        decreases archp.Some?, set a | a in packages && !Passed(a, archp)
      {
        var a := archp.value;
        result, keys := CollectNames(a, result, keys);
        archp := NextString(packages.Keys, Some(a));
        PassedNext(packages.Keys, a, archp);
      }
      assert ListsAdded(log, keys);
    }
  }

  /** The order of the nested iteration. */
  predicate Before(k: (string, string), l: (string, string)) {
    Less(k.0, l.0) || (k.0 == l.0 && Less(k.1, l.1))
  }

  ghost predicate Ordered(keys: seq<(string, string)>) {
    forall i, j | 0 <= i < j < |keys| :: Before(keys[i], keys[j])
  }

  /** Exactly the pairs that have been added, in the order of the nested iteration. */
  ghost predicate ListsAdded<T>(log: seq<(Package, T)>, keys: seq<(string, string)>) {
    Ordered(keys) && forall k :: k in keys <==> Added(log, k.0, k.1)
  }

  /** One datum for each pair that has been added: the earliest added among those of maximal version. */
  ghost predicate AllNewest<T>(log: seq<(Package, T)>, cmp: Compare, data: seq<T>) {
    exists keys :: ListsAdded(log, keys) && AnswersAll(log, cmp, keys, data)
  }

  /** `data[i]` was added earliest among those of maximal version for `keys[i]`. */
  ghost predicate AnswersAll<T>(log: seq<(Package, T)>, cmp: Compare, keys: seq<(string, string)>, data: seq<T>) {
    |keys| == |data| && forall i | 0 <= i < |keys| :: IsAnswerData(log, cmp, keys[i], data[i])
  }

  ghost predicate IsAnswerData<T>(log: seq<(Package, T)>, cmp: Compare, k: (string, string), data: T) {
    exists i: nat :: i < |log| && IsNewest(log, cmp, k.0, k.1, i) && data == log[i].1
  }

  lemma {:induction false} ExtendAnswers<T>(log: seq<(Package, T)>, cmp: Compare, keys: seq<(string, string)>, data: seq<T>,
                                         k: (string, string), v: Value<T>)
    requires AnswersAll(log, cmp, keys, data) && IsAnswer(log, cmp, k.0, k.1, v)
    ensures AnswersAll(log, cmp, keys + [k], data + [v.data])
  {
    hide IsNewest;
    var i: nat :| i < |log| && IsNewest(log, cmp, k.0, k.1, i) && v == Value(EvrOf(log[i].0), log[i].1);
    assert IsAnswerData(log, cmp, k, v.data);
  }

  lemma {:induction false} ExtendOrdered(keys: seq<(string, string)>, k: (string, string))
    requires Ordered(keys) && forall l | l in keys :: Before(l, k)
    ensures Ordered(keys + [k])
  {
    hide Before;
    assert forall i | 0 <= i < |keys| :: keys[i] in keys;
  }

  /** The pairs come in strictly increasing order, so no pair comes twice. */
  lemma {:induction false} OrderedIsDistinct(keys: seq<(string, string)>, i: nat, j: nat)
    requires Ordered(keys) && i < j < |keys|
    ensures keys[i] != keys[j]
  {
    assert Before(keys[i], keys[j]);
    LessIrreflexive(keys[i].0);
    LessIrreflexive(keys[i].1);
  }

  lemma {:induction false} BeforeAsymmetric(k: (string, string), l: (string, string))
    requires Before(k, l)
    ensures !Before(l, k) && k != l
  {
    LessIrreflexive(k.0);
    LessIrreflexive(k.1);
    if Less(k.0, l.0) { LessAsymmetric(k.0, l.0); } else { LessAsymmetric(k.1, l.1); }
  }

  lemma {:induction false} HeadIsMember<T>(s: seq<T>)
    ensures s != [] ==> s[0] in s
  {
  }

  /** The order leaves only one way to list a set of pairs. */
  lemma {:induction false} OrderedUnique(a: seq<(string, string)>, b: seq<(string, string)>)
    requires Ordered(a) && Ordered(b) && forall k :: k in a <==> k in b
    ensures a == b
    decreases |a|
  {
    hide Before;
    HeadIsMember(a);
    HeadIsMember(b);
    if a != [] {
      if a[0] != b[0] {
        var i :| 0 < i < |a| && a[i] == b[0];
        BeforeAsymmetric(a[0], a[i]);
        assert false;
      }
      forall k ensures k in a[1..] <==> k in b[1..] {
        TailMembers(a, k);
        TailMembers(b, k);
      }
      OrderedUnique(a[1..], b[1..]);
      assert a == [a[0]] + a[1..] && b == [b[0]] + b[1..];
    }
  }

  lemma {:induction false} TailMembers(keys: seq<(string, string)>, k: (string, string))
    requires Ordered(keys) && keys != []
    ensures k in keys[1..] <==> k in keys && k != keys[0]
  {
    hide Before;
    assert keys == [keys[0]] + keys[1..];
    if k in keys[1..] {
      var i :| 0 <= i < |keys[1..]| && keys[1..][i] == k;
      BeforeAsymmetric(keys[0], keys[i + 1]);
    }
  }

  lemma {:induction false} AnswerUnique<T>(log: seq<(Package, T)>, cmp: Compare, k: (string, string), x: T, y: T)
    requires IsAnswerData(log, cmp, k, x) && IsAnswerData(log, cmp, k, y)
    ensures x == y
  {
    hide IsNewest;
    var i: nat :| i < |log| && IsNewest(log, cmp, k.0, k.1, i) && x == log[i].1;
    var j: nat :| j < |log| && IsNewest(log, cmp, k.0, k.1, j) && y == log[j].1;
    NewestUnique(log, cmp, k.0, k.1, i, j);
  }

  /** The calls determine the values. */
  lemma {:induction false} ValuesUnique<T>(log: seq<(Package, T)>, cmp: Compare, x: seq<T>, y: seq<T>)
    requires AllNewest(log, cmp, x) && AllNewest(log, cmp, y)
    ensures x == y
  {
    hide IsAnswerData, Ordered, Added;
    var a: seq<(string, string)> :| ListsAdded(log, a) && AnswersAll(log, cmp, a, x);
    var b: seq<(string, string)> :| ListsAdded(log, b) && AnswersAll(log, cmp, b, y);
    OrderedUnique(a, b);
    forall i | 0 <= i < |a| ensures x[i] == y[i] {
      AnswerUnique(log, cmp, a[i], x[i], y[i]);
    }
  }

  // ---- when the newest is the newest by number -------------------------------------------------

  /** The epochs decide as numbers, then the versions, then the releases. */
  predicate NumericallyOlderPackage(p: Package, q: Package, cmp: Compare) {
    || p.epoch < q.epoch
    || (p.epoch == q.epoch && cmp(p.version, q.version) < 0)
    || (p.epoch == q.epoch && cmp(p.version, q.version) == 0 && cmp(p.release, q.release) < 0)
  }

  /** `IsNewest` with epochs compared as numbers. */
  ghost predicate IsNumericallyNewest<T>(log: seq<(Package, T)>, cmp: Compare, arch: string, name: string, i: nat) {
    && i < |log| && Matches(log[i].0, arch, name)
    && (forall j | 0 <= j < |log| && Matches(log[j].0, arch, name) :: !NumericallyOlderPackage(log[i].0, log[j].0, cmp))
    && (forall j | 0 <= j < i && Matches(log[j].0, arch, name) :: NumericallyOlderPackage(log[j].0, log[i].0, cmp))
  }

  /** Larger epochs have larger remainders, as is the case for any epochs of one block of 256. */
  ghost predicate InOrder(epochs: set<int>) {
    forall a, b | a in epochs && b in epochs && a < b :: a % 256 < b % 256
  }

  lemma {:induction false} OneBlockIsInOrder(epochs: set<int>, block: int)
    requires forall a | a in epochs :: a / 256 == block
    ensures InOrder(epochs)
  {
  }

  /** The epochs of the packages added with that architecture and name. */
  ghost predicate EpochsWithin<T>(log: seq<(Package, T)>, arch: string, name: string, epochs: set<int>) {
    forall j | 0 <= j < |log| && Matches(log[j].0, arch, name) :: log[j].0.epoch in epochs
  }

  lemma {:induction false} PackagesAgree(p: Package, q: Package, epochs: set<int>, cmp: Compare)
    requires InOrder(epochs) && p.epoch in epochs && q.epoch in epochs
    ensures Older(EvrOf(p), EvrOf(q), cmp) <==> NumericallyOlderPackage(p, q, cmp)
  {
    var v, w := EvrOf(p), EvrOf(q);
    EpochsAgreeExactly(p.epoch, q.epoch, v, w, cmp);
    hide Older, EpochString;
    assert v.(epoch := EpochString(p.epoch)) == v && w.(epoch := EpochString(q.epoch)) == w;
    assert p.epoch < q.epoch || q.epoch < p.epoch || p.epoch == q.epoch;
  }

  lemma {:induction false} NewestByNumber<T>(log: seq<(Package, T)>, cmp: Compare, arch: string, name: string, i: nat, epochs: set<int>)
    requires InOrder(epochs) && EpochsWithin(log, arch, name, epochs)
    ensures IsNewest(log, cmp, arch, name, i) <==> IsNumericallyNewest(log, cmp, arch, name, i)
  {
    hide Older, EvrOf, NumericallyOlderPackage, InOrder;
    if i < |log| && Matches(log[i].0, arch, name) {
      forall j | 0 <= j < |log| && Matches(log[j].0, arch, name)
        ensures Older(EvrOf(log[i].0), EvrOf(log[j].0), cmp) <==> NumericallyOlderPackage(log[i].0, log[j].0, cmp)
        ensures Older(EvrOf(log[j].0), EvrOf(log[i].0), cmp) <==> NumericallyOlderPackage(log[j].0, log[i].0, cmp)
      {
        PackagesAgree(log[i].0, log[j].0, epochs, cmp);
        PackagesAgree(log[j].0, log[i].0, epochs, cmp);
      }
    }
  }

  /** Two calls with the same version and epochs out of order: the first is kept although the second is newer. */
  function Misjudged<T>(a: int, b: int, data: T): seq<(Package, T)> {
    [(Package("", "", a, "", ""), data), (Package("", "", b, "", ""), data)]
  }

  lemma {:induction false} OutOfOrderIsMisjudged<T>(a: int, b: int, data: T, cmp: Compare)
    requires TotalPreorder(cmp) && a < b && a % 256 >= b % 256
    ensures IsNewest(Misjudged(a, b, data), cmp, "", "", 0) && !IsNumericallyNewest(Misjudged(a, b, data), cmp, "", "", 0)
  {
    var p, q := Package("", "", a, "", ""), Package("", "", b, "", "");
    OlderIrreflexive(EvrOf(p), cmp);
    EpochsCompareModulo256(a, b, EvrOf(p), EvrOf(q), cmp);
    assert EvrOf(p) == EvrOf(p).(epoch := EpochString(a)) && EvrOf(q) == EvrOf(q).(epoch := EpochString(b));
    assert EvrOf(p).(epoch := "") == EvrOf(q).(epoch := "");
    OlderIrreflexive(EvrOf(p).(epoch := ""), cmp);
    hide Older;
    var log := Misjudged(a, b, data);
    assert log[0].0 == p && log[1].0 == q && NumericallyOlderPackage(p, q, cmp);
  }

  /** The consolidator keeps the newest by number, whatever is added, exactly for sets of epochs in order. */
  lemma {:induction false} NewestByNumberExactly<T(!new)>(epochs: set<int>, data: T, cmp: Compare)
    requires TotalPreorder(cmp)
    ensures InOrder(epochs)
       <==> forall log: seq<(Package, T)>, arch, name, i: nat | EpochsWithin(log, arch, name, epochs) ::
              IsNewest(log, cmp, arch, name, i) <==> IsNumericallyNewest(log, cmp, arch, name, i)
  {
    hide IsNewest, IsNumericallyNewest;
    if InOrder(epochs) {
      forall log: seq<(Package, T)>, arch, name, i: nat | EpochsWithin(log, arch, name, epochs)
        ensures IsNewest(log, cmp, arch, name, i) <==> IsNumericallyNewest(log, cmp, arch, name, i)
      {
        NewestByNumber(log, cmp, arch, name, i, epochs);
      }
    } else {
      var a, b :| a in epochs && b in epochs && a < b && a % 256 >= b % 256;
      OutOfOrderIsMisjudged(a, b, data, cmp);
      assert EpochsWithin(Misjudged(a, b, data), "", "", epochs);
    }
  }

  ghost predicate NumericallyNewestData<T>(log: seq<(Package, T)>, cmp: Compare, k: (string, string), data: T) {
    exists i: nat :: i < |log| && IsNumericallyNewest(log, cmp, k.0, k.1, i) && data == log[i].1
  }

  /** One datum for each pair that has been added: the earliest added among those newest by number. */
  ghost predicate AllNumericallyNewest<T>(log: seq<(Package, T)>, cmp: Compare, data: seq<T>) {
    exists keys :: ListsAdded(log, keys) && |keys| == |data|
                && forall i | 0 <= i < |keys| :: NumericallyNewestData(log, cmp, keys[i], data[i])
  }

  /** If the epochs of each pair are in order, for example all in 0..255, the values are the newest by number. */
  lemma {:induction false} ValuesAreNumericallyNewest<T>(log: seq<(Package, T)>, cmp: Compare, data: seq<T>,
                                                       epochs: (string, string) -> set<int>)
    requires AllNewest(log, cmp, data)
    requires forall a, n :: InOrder(epochs(a, n)) && EpochsWithin(log, a, n, epochs(a, n))
    ensures AllNumericallyNewest(log, cmp, data)
  {
    hide IsNewest, IsNumericallyNewest, InOrder, ListsAdded, EpochsWithin;
    var keys: seq<(string, string)> :| ListsAdded(log, keys) && AnswersAll(log, cmp, keys, data);
    forall i | 0 <= i < |keys| ensures NumericallyNewestData(log, cmp, keys[i], data[i]) {
      var (a, n) := keys[i];
      assert IsAnswerData(log, cmp, keys[i], data[i]);
      var k: nat :| k < |log| && IsNewest(log, cmp, a, n, k) && data[i] == log[k].1;
      NewestByNumber(log, cmp, a, n, k, epochs(a, n));
    }
  }

  /** The package is above every other one of its architecture and name, whose epochs are the same. */
  ghost predicate StandsOut<T>(log: seq<(Package, T)>, cmp: Compare, i: nat) {
    && i < |log|
    && forall j | 0 <= j < |log| && j != i && Matches(log[j].0, log[i].0.arch, log[i].0.name) ::
         && log[j].0.epoch == log[i].0.epoch
         && (|| cmp(log[j].0.version, log[i].0.version) < 0
             || (cmp(log[j].0.version, log[i].0.version) == 0 && cmp(log[j].0.release, log[i].0.release) < 0))
  }

  /** Whenever it is added, it displaces what was added before, and nothing displaces it. */
  lemma {:induction false} HighestVersionIsKept<T>(log: seq<(Package, T)>, cmp: Compare, i: nat, data: seq<T>)
    requires TotalPreorder(cmp) && StandsOut(log, cmp, i) && AllNewest(log, cmp, data)
    ensures IsNewest(log, cmp, log[i].0.arch, log[i].0.name, i) && log[i].1 in data
  {
    var p := log[i].0;
    StandsOutIsNewest(log, cmp, i);
    assert Added(log, p.arch, p.name) by { assert Matches(p, p.arch, p.name); }
    hide IsNewest, Ordered, Added, StandsOut;
    var keys: seq<(string, string)> :| ListsAdded(log, keys) && AnswersAll(log, cmp, keys, data);
    assert (p.arch, p.name) in keys;
    var k: nat :| k < |keys| && keys[k] == (p.arch, p.name);
    assert IsAnswerData(log, cmp, keys[k], data[k]) && IsAnswerData(log, cmp, keys[k], log[i].1);
    AnswerUnique(log, cmp, keys[k], data[k], log[i].1);
  }

  lemma {:induction false} StandsOutIsNewest<T>(log: seq<(Package, T)>, cmp: Compare, i: nat)
    requires TotalPreorder(cmp) && StandsOut(log, cmp, i)
    ensures IsNewest(log, cmp, log[i].0.arch, log[i].0.name, i)
  {
    var p := log[i].0;
    OlderIrreflexive(EvrOf(p), cmp);
    forall j | 0 <= j < |log| && j != i && Matches(log[j].0, p.arch, p.name)
      ensures Older(EvrOf(log[j].0), EvrOf(p), cmp) && !Older(EvrOf(p), EvrOf(log[j].0), cmp)
    {
      var q := log[j].0;
      VersionDecides(EvrOf(q), EvrOf(p), cmp);
      if Older(EvrOf(p), EvrOf(q), cmp) { OlderTransitive(EvrOf(p), EvrOf(q), EvrOf(p), cmp); }
    }
  }
}
