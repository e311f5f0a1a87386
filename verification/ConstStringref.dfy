/**
  Slices of a string that is stored elsewhere. A slice that is out of range
  raises `bad_string_index`; a failed search returns an empty slice that does not
  point into the original string.
 */
module ConstStringref {
  import opened Wrappers

  /** The first occurrence of `c` (`memchr`), or the length. */
  function IndexOf(s: string, c: char): (i: nat)
    ensures i <= |s| && c !in s[..i] && (i < |s| ==> s[i] == c)
  {
    if s == [] || s[0] == c then 0
    else
      var i := IndexOf(s[1..], c);
      assert s[..i + 1] == [s[0]] + s[1..][..i];
      i + 1
  }

  datatype Slice = Slice(buffer: string, start: nat, size: nat) {
    predicate Valid() { start + size <= |buffer| }

    function Str(): string
      requires Valid()
    {
      buffer[start..start + size]
    }

    /** `operator[]`; none for the exception. */
    function At(i: nat): (r: Option<char>)
      requires Valid()
      ensures r == if i < |Str()| then Some(Str()[i]) else None
    {
      if i < size then Some(buffer[start + i]) else None
    }

    /** `operator+`, `operator+=` and `operator++`. */
    function Drop(n: nat): (r: Option<Slice>)
      requires Valid()
      ensures r.Some? <==> n <= |Str()|
      ensures r.Some? ==> r.value.Valid() && r.value.Str() == Str()[n..] && r.value.buffer == buffer && r.value.start == start + n
    {
      if n <= size then Some(Slice(buffer, start + n, size - n)) else None
    }

    /** `substr`: at most `count` characters from `pos` on. */
    function Substr(pos: nat, count: nat): (r: Option<Slice>)
      requires Valid()
      ensures r.Some? <==> pos <= |Str()|
      ensures r.Some? ==> r.value.Valid() && r.value.Str() == if pos + count <= |Str()| then Str()[pos..pos + count] else Str()[pos..]
    {
      if pos <= size then Some(Slice(buffer, start + pos, if count < size - pos then count else size - pos)) else None
    }

    /** `chr`: from the first occurrence on. */
    function Chr(c: char): (r: Slice)
      requires Valid()
      ensures r.Valid()
      ensures var i := IndexOf(Str(), c);
              r.Str() == Str()[i..]
              && (i < |Str()| ==> r.buffer == buffer && r.start == start + i && r.start + r.size == start + size)
    {
      var i := IndexOf(Str(), c);
      if i == size then Slice("", 0, 0) else Slice(buffer, start + i, size - i)
    }

    /** `upto`: the part before `stop`, or everything if `stop` is empty. */
    function UpTo(stop: Slice): (r: Option<Slice>)
      requires Valid() && stop.Valid()
      requires stop.size > 0 ==> stop.buffer == buffer && start <= stop.start
      ensures stop.size == 0 ==> r == Some(this)
      ensures stop.size > 0 ==> (r.Some? <==> stop.start <= start + size)
      ensures stop.size > 0 && r.Some? ==> r.value.Valid() && r.value.Str() == buffer[start..stop.start]
    {
      if stop.size == 0 then Some(this)
      else if stop.start - start <= size then Some(Slice(buffer, start, stop.start - start))
      else None
    }
  }
}
