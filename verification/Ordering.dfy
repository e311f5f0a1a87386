/**
  The order of `std::string` keys, and iteration over ordered containers.
  A `std::set` or `std::map` iterator is modelled by the key it stands on;
  incrementing it moves to the least key above in the container as it is *now*,
  which is what the source relies on when it inserts into a set it is walking.
 */
module Ordering {
  import opened Wrappers

  // ---- lexicographic order -------------------------------------------------

  predicate Less(a: string, b: string) {
    b != [] && (a == [] || a[0] < b[0] || (a[0] == b[0] && Less(a[1..], b[1..])))
  }

  lemma {:induction false} LessIrreflexive(a: string)
    ensures !Less(a, a)
  {
    if a != [] { LessIrreflexive(a[1..]); }
  }

  lemma {:induction false} LessTransitive(a: string, b: string, c: string)
    requires Less(a, b) && Less(b, c)
    ensures Less(a, c)
  {
    if a != [] && a[0] == b[0] && b[0] == c[0] {
      LessTransitive(a[1..], b[1..], c[1..]);
    }
  }

  lemma {:induction false} LessTotal(a: string, b: string)
    ensures Less(a, b) || a == b || Less(b, a)
  {
    if a != [] && b != [] {
      LessTotal(a[1..], b[1..]);
      assert a == [a[0]] + a[1..] && b == [b[0]] + b[1..];
    }
  }

  lemma {:induction false} LessAsymmetric(a: string, b: string)
    requires Less(a, b)
    ensures !Less(b, a) && a != b
  {
    LessIrreflexive(a);
    if Less(b, a) { LessTransitive(a, b, a); }
  }

  // ---- string slices: three-way comparison ---------------------------------

  /** The length of the longest common prefix. */
  function Common(a: string, b: string): (n: nat)
    ensures n <= |a| && n <= |b| && a[..n] == b[..n]
    ensures n < |a| && n < |b| ==> a[n] != b[n]
  {
    if a == [] || b == [] || a[0] != b[0] then 0
    else
      var n := Common(a[1..], b[1..]);
      assert a[..n + 1] == [a[0]] + a[1..][..n] && b[..n + 1] == [b[0]] + b[1..][..n];
      n + 1
  }

  /** Behind the common prefix, the smaller character comes first, or the end of the string. */
  lemma {:induction false} LessAtDifference(a: string, b: string)
    ensures var n := Common(a, b);
            Less(a, b) <==> if n < |a| && n < |b| then a[n] < b[n] else |a| < |b|
  {
    if a != [] && b != [] && a[0] == b[0] { LessAtDifference(a[1..], b[1..]); }
  }

  /** The sign of `memcmp` over the shorter length, then of the length difference. */
  function Compare(left: string, right: string): int {
    var n := Common(left, right);
    if n < |left| && n < |right| then (if left[n] < right[n] then -1 else 1)
    else if |left| < |right| then -1
    else if |left| > |right| then 1
    else 0
  }

  lemma {:induction false} CompareIsLess(left: string, right: string)
    ensures Compare(left, right) < 0 <==> Less(left, right)
    ensures Compare(left, right) == 0 <==> left == right
  {
    if left != [] && right != [] && left[0] == right[0] {
      CompareIsLess(left[1..], right[1..]);
      assert left == [left[0]] + left[1..] && right == [right[0]] + right[1..];
    }
  }

  // ---- iteration over ordered sets -----------------------------------------

  predicate AboveInt(x: int, after: Option<int>) {
    after.None? || after.value < x
  }

  lemma {:induction false} LeastIntExists(s: set<int>, m: int)
    requires m in s
    ensures exists x :: x in s && forall y | y in s :: x <= y
    decreases set x | x in s && x < m
  {
    if y :| y in s && y < m {
      var belowM, belowY := set x | x in s && x < m, set x | x in s && x < y;
      assert y in belowM && y !in belowY && belowY <= belowM;
      LeastIntExists(s, y);
    } else {
      assert forall y | y in s :: m <= y;
    }
  }

  /** The iterator after the one standing on `after` (`None`: before the first). */
  function NextInt(s: set<int>, after: Option<int>): (r: Option<int>)
    ensures r.None? ==> forall y | y in s :: !AboveInt(y, after)
    ensures r.Some? ==> r.value in s && AboveInt(r.value, after)
    ensures r.Some? ==> forall y | y in s && AboveInt(y, after) :: r.value <= y
  {
    var above := set x | x in s && AboveInt(x, after);
    if above == {} then
      assert forall y | y in s && AboveInt(y, after) :: y in above;
      None
    else
      LeastIntExists(above, var x :| x in above; x);
      var x :| x in above && forall y | y in above :: x <= y;
      assert forall y | y in s && AboveInt(y, after) :: y in above;
      Some(x)
  }

  predicate AboveString(x: string, after: Option<string>) {
    after.None? || Less(after.value, x)
  }

  /** `x` is in `s` and no member of `s` is below it. */
  predicate IsLeast(s: set<string>, x: string) {
    x in s && forall y | y in s :: !Less(y, x)
  }

  lemma {:induction false} LeastStringExists(s: set<string>)
    requires s != {}
    ensures exists m :: IsLeast(s, m)
    decreases s
  {
    var m :| m in s;
    LessIrreflexive(m);
    if s == {m} {
      assert IsLeast(s, m);
    } else {
      LeastStringExists(s - {m});
      var n :| IsLeast(s - {m}, n);
      if Less(n, m) {
        LessAsymmetric(n, m);
        assert IsLeast(s, n);
      } else {
        LessTotal(m, n);
        forall y | y in s ensures !Less(y, m) {
          if Less(y, m) && m != n { LessTransitive(y, m, n); }
        }
        assert IsLeast(s, m);
      }
    }
  }

  lemma {:induction false} LeastStringUnique(s: set<string>)
    ensures forall x, y | IsLeast(s, x) && IsLeast(s, y) :: x == y
  {
    forall x, y | IsLeast(s, x) && IsLeast(s, y) ensures x == y {
      LessTotal(x, y);
    }
  }

  function NextString(s: set<string>, after: Option<string>): (r: Option<string>)
    ensures r.None? ==> forall y | y in s :: !AboveString(y, after)
    ensures r.Some? ==> r.value in s && AboveString(r.value, after)
    ensures r.Some? ==> forall y | y in s && AboveString(y, after) :: !Less(y, r.value)
  {
    var above := set x | x in s && AboveString(x, after);
    if above == {} then
      assert forall y | y in s && AboveString(y, after) :: y in above;
      None
    else
      LeastStringExists(above);
      LeastStringUnique(above);
      var x :| IsLeast(above, x);
      assert forall y | y in s && AboveString(y, after) :: y in above;
      Some(x)
  }

  /** The iterator has moved behind `x`. */
  predicate Passed(x: string, p: Option<string>) { p.None? || Less(x, p.value) }

  lemma {:induction false} PassedNext(keys: set<string>, s: string, p: Option<string>)
    requires s in keys && p == NextString(keys, Some(s))
    ensures forall x | x in keys :: Passed(x, p) <==> Passed(x, Some(s)) || x == s
    ensures (set x | x in keys && !Passed(x, p)) < (set x | x in keys && !Passed(x, Some(s)))
  {
    forall x | x in keys ensures Passed(x, p) <==> Passed(x, Some(s)) || x == s {
      LessTotal(x, s);
      if p.Some? {
        LessTotal(x, p.value);
        if Less(x, s) { LessTransitive(x, s, p.value); }
        if Less(s, x) { LessAsymmetric(s, x); }
        if Less(p.value, x) { LessAsymmetric(p.value, x); }
        LessIrreflexive(p.value);
      } else {
        assert !AboveString(x, Some(s));
      }
    }
    LessIrreflexive(s);
    var now, was := set x | x in keys && !Passed(x, p), set x | x in keys && !Passed(x, Some(s));
    assert s in was && s !in now && now <= was;
  }
}
