/**
  The transitive closure of the ELF dependencies, computed as the source does:
  repeated passes over an ordered map, each of which inserts into the very set
  it is iterating over.
 */
module Closure {
  import opened Wrappers
  import opened Ordering
  import opened Database

  type DependencyMap = map<FileId, set<FileId>>

  ghost predicate Edge(m: DependencyMap, a: FileId, b: FileId) {
    a in m && b in m[a]
  }

  /** Consecutive members of `p` depend on each other directly. */
  ghost predicate Chain(m: DependencyMap, p: seq<FileId>) {
    forall i | 0 <= i < |p| - 1 :: Edge(m, p[i], p[i + 1])
  }

  /** There is a chain of one or more dependencies from `a` to `b`. */
  ghost predicate Reaches(m: DependencyMap, a: FileId, b: FileId) {
    exists p :: |p| >= 2 && p[0] == a && p[|p| - 1] == b && Chain(m, p)
  }

  lemma {:induction false} EdgeReaches(m: DependencyMap, a: FileId, b: FileId)
    requires Edge(m, a, b)
    ensures Reaches(m, a, b)
  {
    var p := [a, b];
    assert Chain(m, p) && p[0] == a && p[|p| - 1] == b;
  }

  lemma {:induction false} ReachesTransitive(m: DependencyMap, a: FileId, b: FileId, c: FileId)
    requires Reaches(m, a, b) && Reaches(m, b, c)
    ensures Reaches(m, a, c)
  {
    var p :| |p| >= 2 && p[0] == a && p[|p| - 1] == b && Chain(m, p);
    var q :| |q| >= 2 && q[0] == b && q[|q| - 1] == c && Chain(m, q);
    var r := p + q[1..];
    forall i | 0 <= i < |r| - 1 ensures Edge(m, r[i], r[i + 1]) {
      if i < |p| - 1 { assert Edge(m, p[i], p[i + 1]); }
      else { assert Edge(m, q[i - (|p| - 1)], q[i - (|p| - 1) + 1]); }
    }
    assert Chain(m, r);
  }

  /** Whatever `k` depends on, its dependencies are dependencies of `k`. */
  ghost predicate ClosedAt(m: DependencyMap, k: FileId)
    requires k in m
  {
    forall d | d in m[k] && d in m :: m[d] <= m[k]
  }

  ghost predicate Sound(base: DependencyMap, m: DependencyMap) {
    m.Keys == base.Keys && forall a, b | Edge(m, a, b) :: Reaches(base, a, b)
  }

  ghost predicate Contains(m: DependencyMap, n: DependencyMap) {
    m.Keys == n.Keys && forall a | a in m :: m[a] <= n[a]
  }

  lemma {:induction false} ContainsAntisymmetric(m: DependencyMap, n: DependencyMap)
    ensures Contains(m, n) && Contains(n, m) ==> m == n
  {
    if Contains(m, n) && Contains(n, m) {
      assert forall a | a in m :: m[a] == n[a];
    }
  }

  /** A map that contains `base` and is closed contains all that is reachable. */
  lemma {:induction false} ClosedContainsChains(base: DependencyMap, m: DependencyMap, p: seq<FileId>)
    requires Contains(base, m) && forall k | k in m :: ClosedAt(m, k)
    requires |p| >= 2 && Chain(base, p)
    ensures Edge(m, p[0], p[|p| - 1])
  {
    assert Edge(base, p[0], p[1]);
    if |p| > 2 {
      var q := p[1..];
      forall i | 0 <= i < |q| - 1 ensures Edge(base, q[i], q[i + 1]) {
        assert Edge(base, p[i + 1], p[i + 1 + 1]);
      }
      ClosedContainsChains(base, m, q);
      assert ClosedAt(m, p[0]);
    }
  }

  ghost function Targets(m: DependencyMap): set<FileId> {
    set a, b | a in m && b in m[a] :: b
  }

  lemma {:induction false} ReachesTarget(m: DependencyMap, a: FileId, b: FileId)
    requires Reaches(m, a, b)
    ensures b in Targets(m)
  {
    var p :| |p| >= 2 && p[0] == a && p[|p| - 1] == b && Chain(m, p);
    assert Edge(m, p[|p| - 2], p[|p| - 2 + 1]);
  }

  /** The pairs that a pass can still add: the termination measure. */
  ghost function Missing(base: DependencyMap, m: DependencyMap): set<(FileId, FileId)> {
    set a, b | a in base.Keys && b in Targets(base) && !Edge(m, a, b) :: (a, b)
  }

  lemma {:induction false} MissingShrinks(base: DependencyMap, m: DependencyMap, n: DependencyMap)
    requires Sound(base, n) && Contains(m, n) && m != n
    ensures Missing(base, n) < Missing(base, m)
  {
    assert forall a, b | Edge(m, a, b) :: Edge(n, a, b);
    assert (forall a | a in m :: m[a] == n[a]) ==> m == n;
    var a :| a in m && m[a] != n[a];
    var was, now := m[a], n[a];
    assert (forall b: FileId | b in now :: b in was) ==> was == now;
    var b :| b in n[a] && b !in m[a];
    assert Edge(n, a, b);
    ReachesTarget(base, a, b);
    assert (a, b) in Missing(base, m) && (a, b) !in Missing(base, n);
    assert Missing(base, n) <= Missing(base, m);
  }

  /** Inserting a dependency of a dependency keeps the map sound. */
  lemma {:induction false} InsertKeepsSound(base: DependencyMap, m: DependencyMap, k: FileId, d: FileId, x: FileId)
    requires Sound(base, m) && Edge(m, k, d) && Edge(m, d, x)
    ensures Sound(base, m[k := m[k] + {x}])
    ensures x in Targets(base)
  {
    ReachesTransitive(base, k, d, x);
    ReachesTarget(base, k, x);
    hide Reaches;
    var n := m[k := m[k] + {x}];
    forall a, b | Edge(n, a, b) ensures Reaches(base, a, b) {
      assert (a == k && b == x) || Edge(m, a, b);
    }
  }

  lemma {:induction false} EdgeTarget(base: DependencyMap, m: DependencyMap, a: FileId, b: FileId)
    requires Sound(base, m) && Edge(m, a, b)
    ensures b in Targets(base)
  {
    ReachesTarget(base, a, b);
  }

  lemma {:induction false} ContainsTransitive(m: DependencyMap, n: DependencyMap, o: DependencyMap)
    requires Contains(m, n) && Contains(n, o)
    ensures Contains(m, o) && (m == o ==> m == n && n == o)
  {
    ContainsAntisymmetric(m, n);
    ContainsAntisymmetric(n, o);
  }

  /** The innermost loop: the dependencies of `d` become dependencies of `k`, which may be `d` itself. */
  method AbsorbOne(m: DependencyMap, k: FileId, d: FileId, ghost base: DependencyMap)
    returns (closure: DependencyMap, changed: bool)
    requires Sound(base, m) && Edge(m, k, d) && d in m
    ensures Sound(base, closure) && Contains(m, closure)
    ensures forall j | j in m && j != k :: closure[j] == m[j]
    ensures changed <==> closure != m
    ensures closure[d] <= closure[k]
  {
    hide Sound, Targets;
    closure, changed := m, false;
    var depDep := NextInt(closure[d], None);
    while depDep.Some?
      invariant Sound(base, closure) && Contains(m, closure)
      invariant forall j | j in m && j != k :: closure[j] == m[j]
      invariant changed <==> closure[k] != m[k]
      invariant depDep.Some? ==> depDep.value in closure[d]
      invariant forall x | x in closure[d] && (depDep.None? || x < depDep.value) :: x in closure[k]
      decreases depDep.Some?,
                if depDep.Some? then set x | x in Targets(base) && x > depDep.value else {}
    {
      var x := depDep.value;
      InsertKeepsSound(base, closure, k, d, x);
      var newElement := x !in closure[k];
      closure := closure[k := closure[k] + {x}];
      changed := changed || newElement;
      depDep := NextInt(closure[d], Some(x));
      if depDep.Some? { EdgeTarget(base, closure, d, depDep.value); }
    }
    assert forall x | x in closure[d] :: x in closure[k];
    assert closure[k] == m[k] ==> closure == m;
  }

  /**
    The two inner loops for one file: walk its dependency set in order, insert
    the dependencies of each element, and go on with the set as it has grown.
   */
  method Absorb(m: DependencyMap, k: FileId, ghost base: DependencyMap)
    returns (closure: DependencyMap, changed: bool)
    requires k in m && Sound(base, m)
    ensures Sound(base, closure) && Contains(m, closure)
    ensures forall j | j in m && j != k :: closure[j] == m[j]
    ensures changed <==> closure != m
    ensures !changed ==> ClosedAt(m, k)
  {
    hide Sound, Targets;
    closure, changed := m, false;
    var needingDep := NextInt(closure[k], None);
    while needingDep.Some?
      invariant Sound(base, closure) && Contains(m, closure)
      invariant forall j | j in m && j != k :: closure[j] == m[j]
      invariant changed <==> closure != m
      invariant needingDep.Some? ==> needingDep.value in closure[k]
      invariant !changed ==> forall d | d in m[k] && d in m && (needingDep.None? || d < needingDep.value) :: m[d] <= m[k]
      decreases needingDep.Some?,
                if needingDep.Some? then set x | x in Targets(base) && x > needingDep.value else {}
    {
      var d := needingDep.value;
      EdgeTarget(base, closure, k, d);
      if d in closure {
        ghost var before := closure;
        var grew;
        closure, grew := AbsorbOne(closure, k, d, base);
        changed := changed || grew;
        ContainsTransitive(m, before, closure);
      }
      needingDep := NextInt(closure[k], Some(d));
      if needingDep.Some? { EdgeTarget(base, closure, k, needingDep.value); }
    }
  }

  /** Repeats passes until one of them changes nothing. */
  method TransitiveClosure(base: DependencyMap) returns (closure: DependencyMap)
    ensures closure.Keys == base.Keys
    ensures forall a, b :: Edge(closure, a, b) <==> Reaches(base, a, b)
  {
    closure := base;
    forall a, b | Edge(base, a, b) ensures Reaches(base, a, b) { EdgeReaches(base, a, b); }
    var changed := true;
    while changed
      invariant Sound(base, closure) && Contains(base, closure)
      invariant !changed ==> forall k | k in closure :: ClosedAt(closure, k)
      decreases Missing(base, closure), changed
    {
      ghost var before := closure;
      changed := false;
      var needing := NextInt(closure.Keys, None);
      while needing.Some?
        invariant Sound(base, closure) && Contains(before, closure)
        invariant needing.Some? ==> needing.value in closure
        invariant changed <==> closure != before
        invariant !changed ==> forall k | k in closure && (needing.None? || k < needing.value) :: ClosedAt(closure, k)
        decreases needing.Some?, if needing.Some? then set x | x in base.Keys && x > needing.value else {}
      {
        var grew;
        ghost var previous := closure;
        closure, grew := Absorb(closure, needing.value, base);
        ContainsAntisymmetric(previous, closure);
        changed := changed || grew;
        needing := NextInt(closure.Keys, Some(needing.value));
      }
      if changed { MissingShrinks(base, before, closure); }
    }
    forall a, b | Reaches(base, a, b) ensures Edge(closure, a, b) {
      var p :| |p| >= 2 && p[0] == a && p[|p| - 1] == b && Chain(base, p);
      ClosedContainsChains(base, closure, p);
    }
  }
}
