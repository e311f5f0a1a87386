/**
  When the splitter drops a statement: it returns silently at a comment that is
  not terminated, whether or not a statement has begun.
 */
module SqlOpenComments {
  import opened Wrappers
  import opened SqlSplitter

  /** Ends an open comment, and then the statement in front of it. */
  const CLOSING := "\n;"

  /**
    The splitter succeeds, but once the text is ended properly, one more statement comes to light:
    it was there, and was dropped.
   */
  ghost predicate DropsStatement(s: string) {
    && Split(s).Ok?
    && exists i: nat :: i <= |s| && Split(s + CLOSING) == Ok(Split(s).value + [s[i..] + CLOSING])
  }

  /** The scan comes to a comment that is not terminated while the scanner's flag is set. */
  predicate ReachesOpenComment(s: string, inStatement: bool)
    decreases |s|
  {
    s != []
    && match NextStep(s, [], inStatement)
       case More(rest, _, in') => ReachesOpenComment(rest, in')
       case Found(_, rest) => ReachesOpenComment(rest, false)
       case Over(result) => inStatement && result.Ok?
  }

  /** What has been read decides nothing about where the scan goes. */
  lemma {:induction false} SameCourse(s: string, acc: string, other: string, inStatement: bool)
    requires s != []
    ensures var r, t := NextStep(s, acc, inStatement), NextStep(s, other, inStatement);
            && r.More? == t.More? && r.Found? == t.Found?
            && (r.More? ==> r.rest == t.rest && r.inStatement == t.inStatement)
            && (r.Found? ==> r.rest == t.rest)
            && (r.Over? ==> r == t)
  {
    hide AfterLine, AfterQuote, AfterDollar;
  }

  lemma {:induction false} AfterLineAppend(s: string, x: string)
    ensures AfterLine(s).Some? ==> AfterLine(s + x) == Some(AfterLine(s).value + x)
    ensures AfterLine(s).None? && x != [] && x[0] == '\n' ==> AfterLine(s + x) == Some(x[1..])
  {
    if s == [] {
      assert s + x == x;
    } else {
      assert (s + x)[1..] == s[1..] + x;
      AfterLineAppend(s[1..], x);
    }
  }

  lemma {:induction false} AfterQuoteAppend(s: string, x: string)
    ensures AfterQuote(s) != [] ==> AfterQuote(s + x) == AfterQuote(s) + x
  {
    if s != [] {
      assert (s + x)[1..] == s[1..] + x;
      AfterQuoteAppend(s[1..], x);
      if |s| > 1 {
        assert (s + x)[2..] == s[2..] + x;
        AfterQuoteAppend(s[2..], x);
      }
    }
  }

  lemma {:induction false} AfterDollarAppend(s: string, x: string)
    ensures AfterDollar(s) != [] ==> AfterDollar(s + x) == AfterDollar(s) + x
  {
    if s != [] {
      assert (s + x)[1..] == s[1..] + x;
      AfterDollarAppend(s[1..], x);
      if |s| > 1 { assert (s + x)[2..] == s[2..] + x; }
    }
  }

  lemma {:induction false} BeforeAppend(s: string, rest: string, x: string)
    requires |rest| <= |s|
    ensures Before(s + x, rest + x) == Before(s, rest)
  {
  }

  /** A round that does not come to the end is the same when more text follows. */
  lemma {:induction false} StepAppended(s: string, acc: string, inStatement: bool)
    requires s != []
    ensures var r, t := NextStep(s, acc, inStatement), NextStep(s + CLOSING, acc, inStatement);
            && (r.More? ==> t == More(r.rest + CLOSING, r.acc, r.inStatement))
            && (r.Found? ==> t == Found(r.statement, r.rest + CLOSING))
  {
    hide AfterLine, AfterQuote, AfterDollar, Before, Ordinary;
    assert (s + CLOSING)[1..] == s[1..] + CLOSING;
    AfterQuoteAppend(s[1..], CLOSING);
    if |s| > 1 {
      assert (s + CLOSING)[2..] == s[2..] + CLOSING;
      AfterLineAppend(s[2..], CLOSING);
      AfterDollarAppend(s[2..], CLOSING);
    }
    var r := NextStep(s, acc, inStatement);
    if r.More? { BeforeAppend(s, r.rest, CLOSING); }
  }

  /** A round ends the scan without an error only at an open comment; behind its end, the rest follows. */
  lemma {:induction false} OpenCommentClosed(s: string, acc: string, inStatement: bool)
    requires s != [] && NextStep(s, acc, inStatement).Over? && NextStep(s, acc, inStatement).result.Ok?
    ensures NextStep(s, acc, inStatement).result == Ok([])
    ensures NextStep(s + CLOSING, acc, inStatement)
         == More(";", if inStatement then acc + (s + "\n") else [], inStatement)
  {
    hide AfterLine, AfterQuote, AfterDollar, Ordinary;
    assert s[0] == '-' && s[1] == '-';
    assert (s + CLOSING)[2..] == s[2..] + CLOSING && CLOSING[1..] == ";";
    AfterLineAppend(s[2..], CLOSING);
    assert Before(s + CLOSING, ";") == s + "\n";
  }

  /** The text since the last statement is not empty inside a statement. */
  lemma {:induction false} StepKeepsNonEmpty(s: string, acc: string, inStatement: bool)
    requires s != [] && (inStatement ==> acc != [])
    ensures var r := NextStep(s, acc, inStatement); r.More? && r.inStatement ==> r.acc != []
  {
    hide AfterLine, AfterQuote, AfterDollar, Before, Ordinary;
  }

  lemma {:induction false} ScanSemicolon(acc: string, inStatement: bool)
    ensures Scan(";", acc, inStatement) == if inStatement then Ok([acc + ";"]) else Err(EmptyStatement)
  {
    assert ";"[1..] == [];
    assert Scan([], [], false) == Ok([]);
    assert [acc + ";"] + [] == [acc + ";"];
  }

  /** What the text shows at its proper end: one more statement, or that none was begun. */
  ghost predicate EndsProperly(text: string, before: Statements, after: Statements, dropped: bool) {
    if !before.Ok? then true
    else if dropped then exists i: nat :: i <= |text| && after == Ok(before.value + [text[i..] + CLOSING])
    else after == Err(EmptyStatement)
  }

  lemma {:induction false} EndsProperlyLater(text: string, n: nat, before: Statements, after: Statements, dropped: bool)
    requires n <= |text| && EndsProperly(text[n..], before, after, dropped)
    ensures EndsProperly(text, before, after, dropped)
  {
    if before.Ok? && dropped {
      var i: nat :| i <= |text[n..]| && after == Ok(before.value + [text[n..][i..] + CLOSING]);
      assert text[n..][i..] == text[n + i..];
    }
  }

  lemma {:induction false} EndsProperlyFound(statement: string, text: string, before: Statements, after: Statements, dropped: bool)
    requires EndsProperly(text, before, after, dropped)
    ensures EndsProperly(text, Prepended(statement, before), Prepended(statement, after), dropped)
  {
    if before.Ok? && dropped {
      var i: nat :| i <= |text| && after == Ok(before.value + [text[i..] + CLOSING]);
      assert [statement] + (before.value + [text[i..] + CLOSING]) == [statement] + before.value + [text[i..] + CLOSING];
    }
  }

  lemma {:induction false} EndsInComment(s: string, acc: string, inStatement: bool)
    requires s != [] && NextStep(s, acc, inStatement).Over? && (inStatement ==> acc != [])
    ensures EndsProperly(acc + s, Scan(s, acc, inStatement), Scan(s + CLOSING, acc, inStatement), ReachesOpenComment(s, inStatement))
  {
    hide NextStep;
    SameCourse(s, acc, [], inStatement);
    if NextStep(s, acc, inStatement).result.Ok? {
      OpenCommentClosed(s, acc, inStatement);
      ScanSemicolon(if inStatement then acc + (s + "\n") else [], inStatement);
      assert acc + (s + "\n") + ";" == (acc + s)[0..] + CLOSING;
      assert [] + [(acc + s)[0..] + CLOSING] == [(acc + s)[0..] + CLOSING];
    }
  }

  lemma {:induction false} EndsAtEnd(acc: string)
    ensures EndsProperly(acc, Scan("", acc, false), Scan("" + CLOSING, acc, false), false)
  {
    if acc == [] {
      assert "" + CLOSING == CLOSING && CLOSING[1..] == ";" && !Ordinary(CLOSING[0]);
      ScanSemicolon([], false);
    }
  }

  lemma {:induction false} ScanEndsProperly(s: string, acc: string, inStatement: bool)
    requires inStatement ==> acc != []
    ensures EndsProperly(acc + s, Scan(s, acc, inStatement), Scan(s + CLOSING, acc, inStatement), ReachesOpenComment(s, inStatement))
    decreases |s|
  {
    hide NextStep, EndsProperly;
    if s == [] {
      assert acc + s == acc;
      if inStatement { UnterminatedEnd(acc); } else { EndsAtEnd(acc); }
    } else {
      var r := NextStep(s, acc, inStatement);
      SameCourse(s, acc, [], inStatement);
      StepAppended(s, acc, inStatement);
      StepKeepsText(s, acc, inStatement);
      StepKeepsNonEmpty(s, acc, inStatement);
      match r
      case More(rest, acc', in') =>
        ScanEndsProperly(rest, acc', in');
        var n: nat :| n <= |acc + s| && acc' + rest == (acc + s)[n..];
        EndsProperlyLater(acc + s, n, Scan(rest, acc', in'), Scan(rest + CLOSING, acc', in'), ReachesOpenComment(rest, in'));
      case Found(statement, rest) =>
        ScanEndsProperly(rest, [], false);
        assert [] + rest == rest && (acc + s)[|statement|..] == rest;
        EndsProperlyLater(acc + s, |statement|, Scan(rest, [], false), Scan(rest + CLOSING, [], false), ReachesOpenComment(rest, false));
        EndsProperlyFound(statement, acc + s, Scan(rest, [], false), Scan(rest + CLOSING, [], false), ReachesOpenComment(rest, false));
      case Over(_) =>
        EndsInComment(s, acc, inStatement);
    }
  }

  lemma {:induction false} UnterminatedEnd(acc: string)
    requires acc != []
    ensures EndsProperly(acc, Scan("", acc, true), Scan("" + CLOSING, acc, true), false)
  {
  }

  lemma {:induction false} OpenCommentIsAccepted(s: string, acc: string, inStatement: bool)
    requires ReachesOpenComment(s, inStatement)
    ensures Scan(s, acc, inStatement).Ok?
    decreases |s|
  {
    hide NextStep;
    SameCourse(s, acc, [], inStatement);
    match NextStep(s, acc, inStatement)
    case More(rest, acc', in') => OpenCommentIsAccepted(rest, acc', in');
    case Found(_, rest) => OpenCommentIsAccepted(rest, [], false);
    case Over(_) =>
  }

  /**
    On any input: a statement is dropped if and only if the scan comes to an open comment inside a
    statement. Any other script that is accepted ends between statements.
   */
  lemma {:induction false} DropsExactlyAtOpenComments(s: string)
    ensures DropsStatement(s) <==> ReachesOpenComment(s, false)
    ensures Split(s).Ok? && !DropsStatement(s) ==> Split(s + CLOSING) == Err(EmptyStatement)
  {
    hide Scan, ReachesOpenComment;
    ScanEndsProperly(s, [], false);
    assert [] + s == s;
    if ReachesOpenComment(s, false) { OpenCommentIsAccepted(s, [], false); }
  }
}
