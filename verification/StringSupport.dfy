/** Stripping white space: every character up to and including the blank. */
module StringSupport {
  predicate Whitespace(c: char) { c <= ' ' }

  function TrimLeft(s: string): string {
    if s != [] && Whitespace(s[0]) then TrimLeft(s[1..]) else s
  }

  function TrimRight(s: string): string {
    if s != [] && Whitespace(s[|s| - 1]) then TrimRight(s[..|s| - 1]) else s
  }

  function Trim(s: string): string { TrimRight(TrimLeft(s)) }

  predicate Blank(s: string) { forall i | 0 <= i < |s| :: s[i] <= ' ' }

  /** What is left begins and ends with a character above the blank, and what is gone has none. */
  lemma {:induction false} TrimStrips(left: string, s: string, right: string)
    requires Blank(left) && Blank(right) && (s != "" ==> s[0] > ' ' && s[|s| - 1] > ' ')
    ensures Trim(left + s + right) == s
  {
    if left != "" {
      assert (left + s + right)[1..] == left[1..] + s + right;
      TrimStrips(left[1..], s, right);
    } else if s != "" {
      assert left + s + right == s + right;
      RightStrips(s, right);
    } else {
      assert left + s + right == right;
      NothingLeft(right);
    }
  }

  lemma {:induction false} RightStrips(s: string, right: string)
    requires Blank(right) && s != "" && s[|s| - 1] > ' '
    ensures TrimRight(s + right) == s
  {
    if right == "" {
      assert s + right == s;
    } else {
      assert (s + right)[..|s + right| - 1] == s + right[..|right| - 1];
      RightStrips(s, right[..|right| - 1]);
    }
  }

  lemma {:induction false} NothingLeft(s: string)
    requires Blank(s)
    ensures TrimLeft(s) == ""
  {
    if s != "" { NothingLeft(s[1..]); }
  }
}
