/** What it means that a buffer holds something at an offset. */
module Sequences {
  /** `vec` holds `part` at `offset`. */
  predicate Holds<T(==)>(vec: seq<T>, offset: nat, part: seq<T>) {
    offset + |part| <= |vec| && vec[offset..offset + |part|] == part
  }

  lemma {:induction false} HoldsParts<T>(vec: seq<T>, offset: nat, a: seq<T>, b: seq<T>)
    requires Holds(vec, offset, a + b)
    ensures Holds(vec, offset, a) && Holds(vec, offset + |a|, b)
  {
    var s := vec[offset..offset + |a + b|];
    assert s[..|a|] == vec[offset..offset + |a|] && s[|a|..] == vec[offset + |a|..offset + |a| + |b|];
  }

  lemma {:induction false} Associative<T>(a: seq<T>, b: seq<T>, c: seq<T>)
    ensures a + b + c == a + (b + c)
  {
  }
}
