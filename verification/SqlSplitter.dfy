/**
  Splitting an SQL script into statements. `Split` is the scanner's meaning as a
  function of what is ahead; the grammar of scripts below it is independent, and
  the theorems connect the two.
 */
module SqlSplitter {
  import opened Wrappers
  import opened ConstStringref

  datatype Error = StringAtStart | UnterminatedString | DollarAtStart | UnterminatedDollar | EmptyStatement | UnterminatedStatement

  type Statements = Result<seq<string>, Error>

  /** `ch > ' '` for a signed `char`: octets from 128 on count as white space. */
  predicate Ordinary(c: char) { ' ' < c < 128 as char }

  // ---- the scanner --------------------------------------------------------------

  /** Behind the next newline, if there is one. */
  function AfterLine(s: string): (r: Option<string>)
    ensures r.Some? ==> |r.value| < |s|
  {
    if s == [] then None else if s[0] == '\n' then Some(s[1..]) else AfterLine(s[1..])
  }

  /** Behind the closing quote; empty if there is none. */
  function AfterQuote(s: string): (r: string)
    ensures |r| <= |s|
  {
    if s == [] then []
    else if s[0] != '\'' then AfterQuote(s[1..])
    else if |s| == 1 || s[1] != '\'' then s[1..]
    else AfterQuote(s[2..])
  }

  /** Behind the closing `$$`; empty if there is none. */
  function AfterDollar(s: string): (r: string)
    ensures |r| <= |s|
  {
    if s == [] then []
    else if s[0] == '$' && |s| > 1 && s[1] == '$' then s[2..]
    else AfterDollar(s[1..])
  }

  function Prepended(statement: string, rest: Statements): Statements {
    if rest.Err? then rest else Ok([statement] + rest.value)
  }

  /** What lies between the text ahead and a later point of it. */
  function Before(s: string, later: string): string
    requires |later| <= |s|
  {
    s[..|s| - |later|]
  }

  /** One round of the scanner: on with the rest, a statement found, or the end. */
  datatype Step = More(rest: string, acc: string, inStatement: bool) | Found(statement: string, rest: string) | Over(result: Statements)

  /** `s` is ahead, `acc` is what has been read since `last`, and `inStatement` is the scanner's flag. */
  function NextStep(s: string, acc: string, inStatement: bool): (r: Step)
    requires s != []
    ensures r.More? ==> |r.rest| < |s|
    ensures r.Found? ==> |r.rest| < |s|
  {
    if s[0] == '-' then
      if |s| > 1 && s[1] == '-' then
        var rest := AfterLine(s[2..]);
        if rest.None? then Over(Ok([]))
        else More(rest.value, if inStatement then acc + Before(s, rest.value) else [], inStatement)
      else More(s[1..], acc + [s[0]], inStatement)
    else if s[0] == '\'' then
      if !inStatement then Over(Err(StringAtStart))
      else
        var rest := AfterQuote(s[1..]);
        if rest == [] then Over(Err(UnterminatedString)) else More(rest, acc + Before(s, rest), true)
    else if s[0] == '$' then
      if !inStatement then Over(Err(DollarAtStart))
      else if |s| > 1 && s[1] == '$' then
        var rest := AfterDollar(s[2..]);
        if rest == [] then Over(Err(UnterminatedDollar)) else More(rest, acc + Before(s, rest), true)
      else More(s[1..], acc + [s[0]], true)
    else if s[0] == ';' then
      if !inStatement then Over(Err(EmptyStatement)) else Found(acc + [s[0]], s[1..])
    else if inStatement || Ordinary(s[0]) then More(s[1..], acc + [s[0]], true)
    else More(s[1..], [], false)
  }

  /** The statements found from here on. */
  function Scan(s: string, acc: string, inStatement: bool): Statements
    decreases |s|
  {
    if s == [] then if acc == [] then Ok([]) else Err(UnterminatedStatement)
    else match NextStep(s, acc, inStatement)
      case More(rest, acc', in') => Scan(rest, acc', in')
      case Found(statement, rest) => Prepended(statement, Scan(rest, [], false))
      case Over(result) => result
  }

  function Split(script: string): Statements { Scan(script, [], false) }

  // ---- the grammar of scripts -----------------------------------------------------

  datatype Piece =
    | Plain(c: char)          // any character without a role of its own
    | Dash                    // a single minus sign
    | Dollar                  // a single dollar sign
    | Quoted(body: string)    // a string; quotes inside are doubled
    | Dollars(body: string)   // a string between $$ and $$
    | Comment(text: string)   // -- up to and including the newline

  function Doubled(body: string): string {
    if body == [] then []
    else (if body[0] == '\'' then ['\'', '\''] else [body[0]]) + Doubled(body[1..])
  }

  function Rendered(p: Piece): (s: string)
    ensures s != []
  {
    match p
    case Plain(c) => [c]
    case Dash => "-"
    case Dollar => "$"
    case Quoted(body) => ['\''] + (Doubled(body) + ['\''])
    case Dollars(body) => ['$', '$'] + (body + ['$', '$'])
    case Comment(text) => ['-', '-'] + (text + ['\n'])
  }

  /** No `$$` in the body, and no `$` that would join the terminator. */
  predicate NoDollars(body: string) {
    body != [] ==> (body[0] == '$' ==> |body| > 1 && body[1] != '$') && NoDollars(body[1..])
  }

  predicate WellFormed(p: Piece) {
    match p
    case Plain(c) => c != '-' && c != '\'' && c != '$' && c != ';'
    case Dollars(body) => NoDollars(body)
    case Comment(text) => '\n' !in text
    case _ => true
  }

  /** What follows a piece must not extend it. */
  predicate Ends(p: Piece, next: string) {
    match p
    case Dash => next == [] || next[0] != '-'
    case Dollar => next == [] || next[0] != '$'
    case Quoted(_) => next != [] && next[0] != '\''
    case Dollars(_) => next != []
    case _ => true
  }

  function RenderedAll(ps: seq<Piece>): string {
    if ps == [] then [] else Rendered(ps[0]) + RenderedAll(ps[1..])
  }

  /** The pieces can stand in this order in front of `next`. */
  predicate Fit(ps: seq<Piece>, next: string) {
    ps != [] ==> WellFormed(ps[0]) && Ends(ps[0], RenderedAll(ps[1..]) + next) && Fit(ps[1..], next)
  }

  /** What can begin a statement: ASCII above the blank, without the characters that have a role. */
  predicate Starts(p: Piece) { p.Plain? && ' ' < p.c < 128 as char && p.c !in "-'$;" }

  /** What separates statements: comments, white space, and octets that are no ASCII. */
  predicate Separates(p: Piece) { (p.Comment? && '\n' !in p.text) || (p.Plain? && (p.c <= ' ' || p.c >= 128 as char)) }

  /** A statement ends with its semicolon. */
  predicate IsStatement(ps: seq<Piece>) {
    ps != [] && Starts(ps[0]) && Fit(ps, ";")
  }

  /** White space and comments between statements. */
  predicate IsGap(ps: seq<Piece>) {
    forall i | 0 <= i < |ps| :: Separates(ps[i])
  }

  datatype Item = Item(gap: seq<Piece>, statement: seq<Piece>)

  function StatementText(ps: seq<Piece>): string { RenderedAll(ps) + ";" }

  function ScriptText(items: seq<Item>, last: seq<Piece>): string {
    if items == [] then RenderedAll(last)
    else RenderedAll(items[0].gap) + (StatementText(items[0].statement) + ScriptText(items[1..], last))
  }

  function StatementTexts(items: seq<Item>): seq<string> {
    if items == [] then [] else [StatementText(items[0].statement)] + StatementTexts(items[1..])
  }

  predicate IsScript(items: seq<Item>, last: seq<Piece>) {
    IsGap(last) && forall i | 0 <= i < |items| :: IsGap(items[i].gap) && IsStatement(items[i].statement)
  }

  // ---- scanning what the grammar renders -------------------------------------------

  lemma {:induction false} QuoteCloses(body: string, next: string)
    requires next != [] && next[0] != '\''
    ensures AfterQuote(Doubled(body) + ['\''] + next) == next
  {
    var s := Doubled(body) + ['\''] + next;
    if body == [] {
      assert s == ['\''] + next && s[1..] == next;
    } else {
      var rest := Doubled(body[1..]) + ['\''] + next;
      QuoteCloses(body[1..], next);
      if body[0] == '\'' {
        assert s == ['\'', '\''] + rest && s[2..] == rest;
      } else {
        assert s == [body[0]] + rest && s[1..] == rest;
      }
    }
  }

  lemma {:induction false} DollarsClose(body: string, next: string)
    requires NoDollars(body)
    ensures AfterDollar(body + ['$', '$'] + next) == next
  {
    var s := body + ['$', '$'] + next;
    if body == [] {
      assert s == ['$', '$'] + next && s[2..] == next;
    } else {
      DollarsClose(body[1..], next);
      assert s[1..] == body[1..] + ['$', '$'] + next;
      assert |body| > 1 ==> s[1] == body[1];
    }
  }

  lemma {:induction false} LineEnds(text: string, next: string)
    requires '\n' !in text
    ensures AfterLine(text + ['\n'] + next) == Some(next)
  {
    var s := text + ['\n'] + next;
    if text == [] {
      assert s == ['\n'] + next && s[1..] == next;
    } else {
      assert text[0] in text && s[0] == text[0];
      assert s[1..] == text[1..] + ['\n'] + next;
      LineEnds(text[1..], next);
    }
  }

  lemma {:induction false} StepOverQuoted(body: string, next: string, acc: string)
    requires next != [] && next[0] != '\''
    ensures NextStep(Rendered(Quoted(body)) + next, acc, true) == More(next, acc + Rendered(Quoted(body)), true)
  {
    hide AfterLine, AfterDollar, AfterQuote, Doubled;
    var s := Rendered(Quoted(body)) + next;
    assert s[1..] == Doubled(body) + ['\''] + next;
    QuoteCloses(body, next);
    assert Before(s, next) == Rendered(Quoted(body));
  }

  lemma {:induction false} StepOverDollars(body: string, next: string, acc: string)
    requires next != [] && NoDollars(body)
    ensures NextStep(Rendered(Dollars(body)) + next, acc, true) == More(next, acc + Rendered(Dollars(body)), true)
  {
    hide AfterLine, AfterDollar, AfterQuote, NoDollars;
    var s := Rendered(Dollars(body)) + next;
    assert s[2..] == body + ['$', '$'] + next;
    DollarsClose(body, next);
    assert Before(s, next) == Rendered(Dollars(body));
  }

  lemma {:induction false} StepOverComment(text: string, next: string, acc: string, inStatement: bool)
    requires '\n' !in text
    ensures NextStep(Rendered(Comment(text)) + next, acc, inStatement)
         == More(next, if inStatement then acc + Rendered(Comment(text)) else [], inStatement)
  {
    hide AfterLine, AfterDollar, AfterQuote;
    var s := Rendered(Comment(text)) + next;
    assert s[2..] == text + ['\n'] + next;
    LineEnds(text, next);
    assert Before(s, next) == Rendered(Comment(text));
  }

  lemma {:induction false} StepOverCharacter(p: Piece, next: string, acc: string)
    requires WellFormed(p) && Ends(p, next) && (p.Plain? || p.Dash? || p.Dollar?)
    ensures NextStep(Rendered(p) + next, acc, true) == More(next, acc + Rendered(p), true)
  {
    hide AfterLine, AfterDollar, AfterQuote;
    var s := Rendered(p) + next;
    assert s[1..] == next && [s[0]] == Rendered(p);
  }

  /** Inside a statement, a piece is read as a whole. */
  lemma {:induction false} StepOverPiece(p: Piece, next: string, acc: string)
    requires WellFormed(p) && Ends(p, next)
    ensures NextStep(Rendered(p) + next, acc, true) == More(next, acc + Rendered(p), true)
  {
    hide NextStep, Rendered;
    match p
    case Quoted(body) => StepOverQuoted(body, next, acc);
    case Dollars(body) => StepOverDollars(body, next, acc);
    case Comment(text) => StepOverComment(text, next, acc, true);
    case _ => StepOverCharacter(p, next, acc);
  }

  lemma {:induction false} ScanPieces(ps: seq<Piece>, next: string, acc: string)
    requires Fit(ps, next)
    ensures Scan(RenderedAll(ps) + next, acc, true) == Scan(next, acc + RenderedAll(ps), true)
  {
    hide NextStep, Rendered, WellFormed, Ends;
    if ps == [] {
      assert RenderedAll(ps) + next == next && acc + RenderedAll(ps) == acc;
    } else {
      var rest := RenderedAll(ps[1..]) + next;
      assert RenderedAll(ps) + next == Rendered(ps[0]) + rest;
      StepOverPiece(ps[0], rest, acc);
      ScanPieces(ps[1..], next, acc + Rendered(ps[0]));
      assert acc + Rendered(ps[0]) + RenderedAll(ps[1..]) == acc + RenderedAll(ps);
    }
  }

  /** Between statements, white space and comments leave no trace. */
  lemma {:induction false} StepOverGap(p: Piece, next: string)
    requires Separates(p)
    ensures NextStep(Rendered(p) + next, [], false) == More(next, [], false)
  {
    if p.Comment? { StepOverComment(p.text, next, [], false); }
    else { assert (Rendered(p) + next)[1..] == next; }
  }

  lemma {:induction false} ScanGap(ps: seq<Piece>, next: string)
    requires IsGap(ps)
    ensures Scan(RenderedAll(ps) + next, [], false) == Scan(next, [], false)
  {
    if ps == [] {
      assert RenderedAll(ps) + next == next;
    } else {
      var rest := RenderedAll(ps[1..]) + next;
      assert RenderedAll(ps) + next == Rendered(ps[0]) + rest;
      StepOverGap(ps[0], rest);
      ScanGap(ps[1..], next);
    }
  }

  /** Reading the first character of a statement and the pieces after it. */
  lemma {:induction false} ScanFirstPieces(ps: seq<Piece>, next: string)
    requires ps != [] && Starts(ps[0]) && Fit(ps, next)
    ensures Scan(RenderedAll(ps) + next, [], false) == Scan(next, RenderedAll(ps), true)
  {
    hide NextStep, Rendered, WellFormed, Ends, Starts;
    StepIntoStatement(ps[0], RenderedAll(ps[1..]) + next);
    var rest := RenderedAll(ps[1..]) + next;
    assert RenderedAll(ps) + next == Rendered(ps[0]) + rest;
    ScanPieces(ps[1..], next, Rendered(ps[0]));
    assert Rendered(ps[0]) + RenderedAll(ps[1..]) == RenderedAll(ps);
  }

  lemma {:induction false} StepIntoStatement(p: Piece, next: string)
    requires Starts(p)
    ensures NextStep(Rendered(p) + next, [], false) == More(next, Rendered(p), true)
  {
    assert (Rendered(p) + next)[1..] == next;
  }

  /** A statement is found as it was written. */
  lemma {:induction false} ScanStatement(ps: seq<Piece>, next: string)
    requires IsStatement(ps)
    ensures Scan(StatementText(ps) + next, [], false) == Prepended(StatementText(ps), Scan(next, [], false))
  {
    hide NextStep, RenderedAll, Fit, Starts, Prepended;
    assert StatementText(ps) + next == RenderedAll(ps) + (";" + next);
    FitInFront(ps, ";", next);
    ScanFirstPieces(ps, ";" + next);
    StepOverSemicolon(RenderedAll(ps), next);
  }

  lemma {:induction false} StepOverSemicolon(acc: string, next: string)
    ensures NextStep(";" + next, acc, true) == Found(acc + ";", next)
  {
    assert (";" + next)[1..] == next;
  }

  /** Whether pieces fit depends on the next character only. */
  lemma {:induction false} FitInFront(ps: seq<Piece>, next: string, more: string)
    requires Fit(ps, next) && next != []
    ensures Fit(ps, next + more)
  {
    if ps != [] {
      FitInFront(ps[1..], next, more);
      var a, b := RenderedAll(ps[1..]) + next, RenderedAll(ps[1..]) + (next + more);
      assert a != [] && b[0] == a[0];
    }
  }

  /** A script splits into exactly its statements. */
  lemma {:induction false} SplitRoundTrip(items: seq<Item>, last: seq<Piece>)
    requires IsScript(items, last)
    ensures Split(ScriptText(items, last)) == Ok(StatementTexts(items))
  {
    if items == [] {
      ScanGap(last, []);
      assert RenderedAll(last) + [] == RenderedAll(last);
    } else {
      var rest := ScriptText(items[1..], last);
      ScanGap(items[0].gap, StatementText(items[0].statement) + rest);
      ScanStatement(items[0].statement, rest);
      SplitRoundTrip(items[1..], last);
    }
  }

  /** The shortest statements and separators: which characters begin a statement, and which do not. */
  lemma {:induction false} FirstCharacters(c: char)
    ensures ' ' < c < 128 as char && c !in "-'$;" ==> Split([c] + ";") == Ok([[c] + ";"])
    ensures c <= ' ' || c >= 128 as char ==> Split([c]) == Ok([])
  {
    var ps := [Plain(c)];
    assert RenderedAll(ps) == [c] && ps[1..] == [];
    if Starts(Plain(c)) {
      assert Fit([], ";") && WellFormed(ps[0]) && Ends(ps[0], RenderedAll(ps[1..]) + ";");
      ScanStatement(ps, "");
      assert StatementText(ps) + "" == [c] + ";";
      assert [[c] + ";"] + [] == [[c] + ";"];
    }
    if Separates(Plain(c)) {
      ScanGap(ps, "");
      assert RenderedAll(ps) + "" == [c];
    }
  }

  /** Between statements, a string, a dollar sign and a semicolon are errors. */
  lemma {:induction false} ErrorsBetweenStatements(items: seq<Item>, gap: seq<Piece>, next: string)
    requires IsScript(items, gap)
    ensures Split(ScriptText(items, gap) + ("'" + next)) == Err(StringAtStart)
    ensures Split(ScriptText(items, gap) + ("$" + next)) == Err(DollarAtStart)
    ensures Split(ScriptText(items, gap) + (";" + next)) == Err(EmptyStatement)
  {
    hide Scan, IsScript;
    forall s | s in ["'" + next, "$" + next, ";" + next] {
      ScanScript(items, gap, s);
    }
    ErrorsAtStart(next);
  }

  lemma {:induction false} ErrorsAtStart(next: string)
    ensures Scan("'" + next, [], false) == Err(StringAtStart)
    ensures Scan("$" + next, [], false) == Err(DollarAtStart)
    ensures Scan(";" + next, [], false) == Err(EmptyStatement)
  {
  }

  /** Inside a statement, strings must be closed. */
  lemma {:induction false} ErrorsInsideStatements(items: seq<Item>, gap: seq<Piece>, ps: seq<Piece>, text: string)
    requires IsScript(items, gap) && ps != [] && Starts(ps[0])
    ensures Fit(ps, "'" + text) && '\'' !in text ==>
              Split(ScriptText(items, gap) + (RenderedAll(ps) + ("'" + text))) == Err(UnterminatedString)
    ensures Fit(ps, "$$" + text) && '$' !in text ==>
              Split(ScriptText(items, gap) + (RenderedAll(ps) + ("$$" + text))) == Err(UnterminatedDollar)
  {
    hide Fit, Starts, Scan, IsScript;
    if Fit(ps, "'" + text) && '\'' !in text {
      ScanFirstPieces(ps, "'" + text);
      OpenString(text, RenderedAll(ps));
      ScanScript(items, gap, RenderedAll(ps) + ("'" + text));
    }
    if Fit(ps, "$$" + text) && '$' !in text {
      ScanFirstPieces(ps, "$$" + text);
      OpenDollar(text, RenderedAll(ps));
      ScanScript(items, gap, RenderedAll(ps) + ("$$" + text));
    }
  }

  lemma {:induction false} OpenString(text: string, acc: string)
    requires '\'' !in text
    ensures Scan("'" + text, acc, true) == Err(UnterminatedString)
  {
    NoQuote(text);
    assert ("'" + text)[1..] == text;
    hide AfterQuote;
  }

  lemma {:induction false} OpenDollar(text: string, acc: string)
    requires '$' !in text
    ensures Scan("$$" + text, acc, true) == Err(UnterminatedDollar)
  {
    NoDollar(text);
    assert ("$$" + text)[2..] == text;
    hide AfterDollar;
  }

  lemma {:induction false} NoQuote(text: string)
    requires '\'' !in text
    ensures AfterQuote(text) == ""
  {
    if text != "" {
      assert text[0] in text;
      NoQuote(text[1..]);
    }
  }

  lemma {:induction false} NoDollar(text: string)
    requires '$' !in text
    ensures AfterDollar(text) == ""
  {
    if text != "" {
      assert text[0] in text;
      NoDollar(text[1..]);
    }
  }

  // ---- on any input ----------------------------------------------------------------

  /** The strings are substrings of the text, in order and without overlap. */
  ghost predicate InOrder(statements: seq<string>, text: string) {
    statements != [] ==>
      exists i, j :: 0 <= i < j <= |text| && text[i..j] == statements[0] && InOrder(statements[1..], text[j..])
  }

  lemma {:induction false} InOrderLater(statements: seq<string>, earlier: string, text: string)
    requires InOrder(statements, text)
    ensures InOrder(statements, earlier + text)
  {
    if statements != [] {
      var i, j :| 0 <= i < j <= |text| && text[i..j] == statements[0] && InOrder(statements[1..], text[j..]);
      var n := |earlier|;
      assert (earlier + text)[n + i..n + j] == statements[0] && (earlier + text)[n + j..] == text[j..];
    }
  }

  /** Each step keeps what it has read, or drops it, but never rewrites it. */
  lemma {:induction false} StepKeepsText(s: string, acc: string, inStatement: bool)
    requires s != []
    ensures var r := NextStep(s, acc, inStatement);
            && (r.More? ==> exists n: nat :: n <= |acc + s| && r.acc + r.rest == (acc + s)[n..])
            && (r.Found? ==> r.statement + r.rest == acc + s && r.statement != [])
  {
    hide NextStep, Before, Suffix;
    var r := NextStep(s, acc, inStatement);
    StepRestIsSuffix(s, acc, inStatement);
    if r.More? {
      SuffixSplits(s, r.rest, acc);
      if r.acc == [] {
        var n := |acc + s| - |r.rest|;
        assert r.acc + r.rest == (acc + s)[n..];
      } else {
        assert r.acc + r.rest == (acc + s)[0..];
      }
    }
    if r.Found? { assert acc + [s[0]] + s[1..] == acc + s; }
  }

  lemma {:induction false} SuffixSplits(s: string, r: string, acc: string)
    requires Suffix(r, s)
    ensures |r| <= |s| && acc + Before(s, r) + r == acc + s
    ensures r == (acc + s)[|acc + s| - |r|..]
  {
  }

  lemma {:induction false} TailIsSuffix(s: string)
    requires s != []
    ensures Suffix(s[1..], s) && Before(s, s[1..]) == [s[0]]
  {
  }

  lemma {:induction false} StepRestIsSuffix(s: string, acc: string, inStatement: bool)
    requires s != []
    ensures var r := NextStep(s, acc, inStatement);
            && (r.More? ==> Suffix(r.rest, s) && (r.acc == [] || r.acc == acc + Before(s, r.rest)))
            && (r.Found? ==> r.statement == acc + [s[0]] && r.rest == s[1..])
  {
    hide AfterLine, AfterQuote, AfterDollar, Suffix, Before;
    AfterAreSuffixes(s);
    TailIsSuffix(s);
  }

  predicate Suffix(r: string, s: string) { |r| <= |s| && r == s[|s| - |r|..] }

  lemma {:induction false} AfterLineIsSuffix(s: string)
    ensures AfterLine(s).Some? ==> Suffix(AfterLine(s).value, s)
  {
    if s != [] && s[0] != '\n' { AfterLineIsSuffix(s[1..]); }
  }

  lemma {:induction false} AfterQuoteIsSuffix(s: string)
    ensures Suffix(AfterQuote(s), s)
  {
    if s != [] {
      AfterQuoteIsSuffix(s[1..]);
      if |s| > 1 { AfterQuoteIsSuffix(s[2..]); }
    }
  }

  lemma {:induction false} AfterDollarIsSuffix(s: string)
    ensures Suffix(AfterDollar(s), s)
  {
    if s != [] { AfterDollarIsSuffix(s[1..]); }
  }

  lemma {:induction false} AfterAreSuffixes(s: string)
    requires s != []
    ensures |s| > 1 && AfterLine(s[2..]).Some? ==> Suffix(AfterLine(s[2..]).value, s)
    ensures Suffix(AfterQuote(s[1..]), s)
    ensures |s| > 1 ==> Suffix(AfterDollar(s[2..]), s)
  {
    AfterQuoteIsSuffix(s[1..]);
    if |s| > 1 {
      AfterLineIsSuffix(s[2..]);
      AfterDollarIsSuffix(s[2..]);
    }
  }

  lemma {:induction false} NothingInOrder(text: string)
    ensures InOrder([], text)
  {
  }

  lemma {:induction false} OverFindsNothing(s: string, acc: string, inStatement: bool)
    requires s != [] && NextStep(s, acc, inStatement).Over? && NextStep(s, acc, inStatement).result.Ok?
    ensures NextStep(s, acc, inStatement).result.value == []
  {
    hide AfterLine, AfterQuote, AfterDollar;
  }

  lemma {:induction false} InOrderFirst(statement: string, rest: string, tail: seq<string>)
    requires statement != [] && InOrder(tail, rest)
    ensures InOrder([statement] + tail, statement + rest)
  {
    var text := statement + rest;
    assert text[|statement|..] == rest && text[0..|statement|] == statement && ([statement] + tail)[1..] == tail;
  }

  lemma {:induction false} ScanFindsSubstrings(s: string, acc: string, inStatement: bool)
    requires Scan(s, acc, inStatement).Ok?
    ensures InOrder(Scan(s, acc, inStatement).value, acc + s)
    decreases |s|
  {
    hide NextStep, InOrder;
    if s == [] {
      NothingInOrder(acc + s);
    } else {
      StepKeepsText(s, acc, inStatement);
      match NextStep(s, acc, inStatement)
      case More(rest, acc', in') =>
        ScanFindsSubstrings(rest, acc', in');
        var n: nat :| n <= |acc + s| && acc' + rest == (acc + s)[n..];
        InOrderLater(Scan(rest, acc', in').value, (acc + s)[..n], (acc + s)[n..]);
        assert (acc + s)[..n] + (acc + s)[n..] == acc + s;
      case Found(statement, rest) =>
        ScanFindsSubstrings(rest, [], false);
        assert [] + rest == rest;
        InOrderFirst(statement, rest, Scan(rest, [], false).value);
      case Over(_) =>
        OverFindsNothing(s, acc, inStatement);
        NothingInOrder(acc + s);
    }
  }

  lemma {:induction false} SplitFindsSubstrings(script: string)
    requires Split(script).Ok?
    ensures InOrder(Split(script).value, script)
  {
    ScanFindsSubstrings(script, [], false);
    assert [] + script == script;
  }

  /**
    Behind any complete statements, an unterminated statement is reported, unless an unterminated
    comment follows it: then it is dropped, and the result is as if it were not there.
   */
  lemma {:induction false} UnterminatedStatements(items: seq<Item>, gap: seq<Piece>, ps: seq<Piece>, text: string)
    requires IsScript(items, gap) && ps != [] && Starts(ps[0]) && '\n' !in text
    ensures Fit(ps, "") ==> Split(ScriptText(items, gap) + RenderedAll(ps)) == Err(UnterminatedStatement)
    ensures Fit(ps, "--" + text) ==>
              Split(ScriptText(items, gap) + (RenderedAll(ps) + ("--" + text))) == Ok(StatementTexts(items))
  {
    hide Fit, IsStatement, Starts, NextStep;
    if Fit(ps, "") {
      ScanFirstPieces(ps, "");
      assert RenderedAll(ps) + "" == RenderedAll(ps);
      ScanScript(items, gap, RenderedAll(ps));
      FirstRendered(ps);
      ErrorBehind(items, UnterminatedStatement);
    }
    if Fit(ps, "--" + text) {
      ScanFirstPieces(ps, "--" + text);
      ScanScript(items, gap, RenderedAll(ps) + ("--" + text));
      OpenComment("--" + text, RenderedAll(ps), true);
      NothingBehind(items);
    }
  }

  lemma {:induction false} FirstRendered(ps: seq<Piece>)
    requires ps != []
    ensures RenderedAll(ps) != []
  {
  }

  /** What is found when the statements of `items` come first. */
  function Behind(items: seq<Item>, rest: Statements): Statements {
    if rest.Err? then rest else Ok(StatementTexts(items) + rest.value)
  }

  lemma {:induction false} ErrorBehind(items: seq<Item>, e: Error)
    ensures Behind(items, Err(e)) == Err(e)
  {
  }

  lemma {:induction false} NothingBehind(items: seq<Item>)
    ensures Behind(items, Ok([])) == Ok(StatementTexts(items))
  {
    assert StatementTexts(items) + [] == StatementTexts(items);
  }

  /** A script is scanned like its statements, and then like what follows it. */
  lemma {:induction false} ScanScript(items: seq<Item>, gap: seq<Piece>, next: string)
    requires IsScript(items, gap)
    ensures Scan(ScriptText(items, gap) + next, [], false) == Behind(items, Scan(next, [], false))
    decreases |items|
  {
    hide Scan, StatementText, RenderedAll, IsGap, IsStatement;
    var tail := Scan(next, [], false);
    if items == [] {
      ScanGap(gap, next);
      if tail.Ok? { assert [] + tail.value == tail.value; }
    } else {
      var rest := ScriptText(items[1..], gap) + next;
      assert ScriptText(items, gap) + next
          == RenderedAll(items[0].gap) + (StatementText(items[0].statement) + rest);
      ScanGap(items[0].gap, StatementText(items[0].statement) + rest);
      ScanStatement(items[0].statement, rest);
      ScanScript(items[1..], gap, next);
      var first := StatementText(items[0].statement);
      if tail.Ok? {
        assert [first] + (StatementTexts(items[1..]) + tail.value) == [first] + StatementTexts(items[1..]) + tail.value;
      }
    }
  }

  /** An unterminated comment ends the scan, whatever has been read. */
  lemma {:induction false} OpenComment(s: string, acc: string, inStatement: bool)
    requires |s| >= 2 && s[0] == '-' && s[1] == '-' && '\n' !in s[2..]
    ensures Scan(s, acc, inStatement) == Ok([])
  {
    NoLine(s[2..]);
  }

  lemma {:induction false} NoLine(text: string)
    requires '\n' !in text
    ensures AfterLine(text) == None
  {
    if text != [] {
      assert text[0] in text;
      NoLine(text[1..]);
    }
  }

  // ---- the loop over slices ----------------------------------------------------------

  function Onto(result: seq<string>, rest: Statements): Statements {
    if rest.Err? then rest else Ok(result + rest.value)
  }

  /** A slice that reaches to the end of the script. */
  predicate Ahead(sql: Slice, script: string) {
    sql.buffer == script && sql.Valid() && sql.start + sql.size == |script|
  }

  /** Moves behind the closing quote, or to the end. */
  method SkipString(sql: Slice, ghost script: string) returns (r: Slice)
    requires Ahead(sql, script)
    ensures Ahead(r, script) && r.start >= sql.start && r.Str() == AfterQuote(sql.Str())
  {
    r := sql;
    while r.size > 0
      invariant Ahead(r, script) && r.start >= sql.start && AfterQuote(r.Str()) == AfterQuote(sql.Str())
      decreases r.size
    {
      if r.At(0) == Some('\'') {
        var closed := r.Drop(1).value;
        if closed.size == 0 || closed.At(0) != Some('\'') { return closed; }
        assert closed.Str()[1..] == r.Str()[2..];
        r := closed;
      }
      r := r.Drop(1).value;
    }
  }

  /** Moves behind the closing `$$`, or to the end. */
  method SkipDollars(sql: Slice, ghost script: string) returns (r: Slice)
    requires Ahead(sql, script)
    ensures Ahead(r, script) && r.start >= sql.start && r.Str() == AfterDollar(sql.Str())
  {
    r := sql;
    while r.size > 0
      invariant Ahead(r, script) && r.start >= sql.start && AfterDollar(r.Str()) == AfterDollar(sql.Str())
      decreases r.size
    {
      if r.At(0) == Some('$') {
        var next := r.Drop(1).value;
        if next.size > 0 && next.At(0) == Some('$') { return next.Drop(1).value; }
        r := next;
      } else {
        r := r.Drop(1).value;
      }
    }
  }

  lemma {:induction false} AfterLineIsChr(s: string)
    ensures var i := IndexOf(s, '\n');
            AfterLine(s) == if i == |s| then None else Some(s[i + 1..])
  {
    if s != [] && s[0] != '\n' { AfterLineIsChr(s[1..]); }
  }

  /** What one round of the loop comes to. */
  datatype Round = Continue(sql: Slice, last: Slice, inStatement: bool) | Emit(statement: string, sql: Slice) | Stop(result: Statements)

  /** The round that was made is the step of the scanner. */
  ghost predicate Matches(round: Round, sql: Slice, last: Slice, inStatement: bool, script: string)
    requires Ahead(sql, script) && Ahead(last, script) && last.start <= sql.start && sql.size > 0
  {
    match NextStep(sql.Str(), script[last.start..sql.start], inStatement)
    case More(rest, acc, in') =>
      && round.Continue? && Ahead(round.sql, script) && Ahead(round.last, script) && round.last.start <= round.sql.start
      && round.sql.Str() == rest && script[round.last.start..round.sql.start] == acc && round.inStatement == in'
    case Found(statement, rest) => round.Emit? && Ahead(round.sql, script) && round.sql.Str() == rest && round.statement == statement
    case Over(result) => round == Stop(result)
  }

  /** The text since `last` when the scanner has moved on to `later`. */
  lemma {:induction false} SinceLast(script: string, last: Slice, sql: Slice, later: Slice)
    requires Ahead(last, script) && Ahead(sql, script) && Ahead(later, script) && last.start <= sql.start <= later.start
    ensures script[last.start..later.start] == script[last.start..sql.start] + Before(sql.Str(), later.Str())
  {
    assert Before(sql.Str(), later.Str()) == script[sql.start..later.start];
  }

  lemma {:induction false} CommentStep(s: string, acc: string, inStatement: bool)
    requires s != [] && s[0] == '-'
    ensures NextStep(s, acc, inStatement) ==
            if |s| == 1 || s[1] != '-' then More(s[1..], acc + Before(s, s[1..]), inStatement)
            else
              var i := IndexOf(s[2..], '\n');
              if i == |s[2..]| then Over(Ok([]))
              else More(s[2..][i + 1..], if inStatement then acc + Before(s, s[2..][i + 1..]) else [], inStatement)
  {
    assert Before(s, s[1..]) == [s[0]];
    if |s| > 1 { AfterLineIsChr(s[2..]); }
    hide AfterLine, AfterQuote, AfterDollar, IndexOf;
  }

  lemma {:induction false} MatchesMore(sql: Slice, last: Slice, inStatement: bool, script: string, sql': Slice, last': Slice, in': bool)
    requires Ahead(sql, script) && Ahead(last, script) && last.start <= sql.start && sql.size > 0
    requires Ahead(sql', script) && Ahead(last', script) && last'.start <= sql'.start
    requires NextStep(sql.Str(), script[last.start..sql.start], inStatement)
          == More(sql'.Str(), script[last'.start..sql'.start], in')
    ensures Matches(Continue(sql', last', in'), sql, last, inStatement, script)
  {
    hide NextStep, Ahead, Slice.Str;
  }

  /** Behind the two minus signs. */
  method CommentBody(sql: Slice, ghost script: string) returns (line: Slice, next: Slice)
    requires Ahead(sql, script) && sql.size >= 2
    ensures var i := IndexOf(sql.Str()[2..], '\n');
            if i == |sql.Str()[2..]| then line.size == 0
            else line.size > 0 && Ahead(next, script) && sql.start < next.start && next.Str() == sql.Str()[2..][i + 1..]
  {
    hide IndexOf;
    var comment := sql.Drop(2).value;
    assert comment.Str() == sql.Str()[2..];
    line := comment.Chr('\n');
    next := line;
    if line.size > 0 { next := line.Drop(1).value; }
  }

  /** `case '-'`. */
  method CommentRound(sql: Slice, last: Slice, inStatement: bool, ghost script: string) returns (r: Round)
    requires Ahead(sql, script) && Ahead(last, script) && last.start <= sql.start && sql.size > 0 && sql.Str()[0] == '-'
    ensures Matches(r, sql, last, inStatement, script)
  {
    hide NextStep, AfterLine, IndexOf, Before;
    CommentStep(sql.Str(), script[last.start..sql.start], inStatement);
    var next := sql.Drop(1).value;
    if next.size > 0 && next.At(0) == Some('-') {
      var line;
      line, next := CommentBody(sql, script);
      if line.size == 0 { return Stop(Ok([])); }
      assert script[next.start..next.start] == [];
      SinceLast(script, last, sql, next);
      MatchesMore(sql, last, inStatement, script, next, if inStatement then last else next, inStatement);
      return Continue(next, if inStatement then last else next, inStatement);
    }
    SinceLast(script, last, sql, next);
    MatchesMore(sql, last, inStatement, script, next, last, inStatement);
    return Continue(next, last, inStatement);
  }

  /** `case '\''` and `case '$'`. */
  method QuoteRound(sql: Slice, last: Slice, inStatement: bool, ghost script: string) returns (r: Round)
    requires Ahead(sql, script) && Ahead(last, script) && last.start <= sql.start && sql.size > 0
    requires sql.Str()[0] == '\'' || sql.Str()[0] == '$'
    ensures Matches(r, sql, last, inStatement, script)
  {
    hide AfterLine, AfterQuote, AfterDollar;
    var next := sql.Drop(1).value;
    SinceLast(script, last, sql, next);
    assert Before(sql.Str(), next.Str()) == [sql.Str()[0]];
    if sql.At(0) == Some('\'') {
      if !inStatement { return Stop(Err(StringAtStart)); }
      next := SkipString(next, script);
      if next.size == 0 { return Stop(Err(UnterminatedString)); }
    } else {
      if !inStatement { return Stop(Err(DollarAtStart)); }
      if next.size > 0 && next.At(0) == Some('$') {
        assert next.Str()[1..] == sql.Str()[2..];
        next := SkipDollars(next.Drop(1).value, script);
        if next.size == 0 { return Stop(Err(UnterminatedDollar)); }
      }
    }
    SinceLast(script, last, sql, next);
    return Continue(next, last, true);
  }

  /** `case ';'` and the default case. */
  method CharacterRound(sql: Slice, last: Slice, inStatement: bool, ghost script: string) returns (r: Round)
    requires Ahead(sql, script) && Ahead(last, script) && last.start <= sql.start && sql.size > 0
    requires sql.Str()[0] != '-' && sql.Str()[0] != '\'' && sql.Str()[0] != '$'
    ensures Matches(r, sql, last, inStatement, script)
  {
    hide AfterLine, AfterQuote, AfterDollar;
    var next := sql.Drop(1).value;
    SinceLast(script, last, sql, next);
    assert Before(sql.Str(), next.Str()) == [sql.Str()[0]];
    var ch := sql.At(0).value;
    if ch == ';' {
      if !inStatement { return Stop(Err(EmptyStatement)); }
      var statement := last.UpTo(next).value.Str();
      assert statement == script[last.start..next.start];
      return Emit(statement, next);
    }
    var in' := inStatement || Ordinary(ch);
    return Continue(next, if in' then last else next, in');
  }

  /** What a round contributes to the result. */
  lemma {:induction false} RoundOnto(result: seq<string>, round: Round, sql: Slice, last: Slice, inStatement: bool, script: string)
    requires Ahead(sql, script) && Ahead(last, script) && last.start <= sql.start && sql.size > 0
    requires Matches(round, sql, last, inStatement, script)
    ensures var all := Onto(result, Scan(sql.Str(), script[last.start..sql.start], inStatement));
            match round
            case Continue(sql', last', in') =>
              && Ahead(sql', script) && Ahead(last', script) && last'.start <= sql'.start && sql'.size < sql.size
              && all == Onto(result, Scan(sql'.Str(), script[last'.start..sql'.start], in'))
            case Emit(statement, sql') =>
              && Ahead(sql', script) && sql'.size < sql.size
              && all == Onto(result + [statement], Scan(sql'.Str(), [], false))
            case Stop(end) => all == Onto(result, end)
  {
    hide NextStep;
    if round.Emit? {
      var rest := Scan(round.sql.Str(), [], false);
      if rest.Ok? {
        assert result + ([round.statement] + rest.value) == (result + [round.statement]) + rest.value;
      }
    }
  }

  method PgSplitStatement(script: string) returns (r: Statements)
    ensures r == Split(script)
  {
    hide NextStep, Matches;
    var sql := Slice(script, 0, |script|);
    var last := sql;
    var inStatement := false;
    var result: seq<string> := [];
    assert sql.Str() == script && script[0..0] == [];
    assert Split(script).Ok? ==> result + Split(script).value == Split(script).value;
    while sql.size > 0
      invariant Ahead(sql, script) && Ahead(last, script) && last.start <= sql.start
      invariant Split(script) == Onto(result, Scan(sql.Str(), script[last.start..sql.start], inStatement))
      decreases sql.size
    {
      hide Scan, Onto;
      var round;
      var ch := sql.At(0).value;
      if ch == '-' { round := CommentRound(sql, last, inStatement, script); }
      else if ch == '\'' || ch == '$' { round := QuoteRound(sql, last, inStatement, script); }
      else { round := CharacterRound(sql, last, inStatement, script); }
      RoundOnto(result, round, sql, last, inStatement, script);
      match round {
        case Stop(end) => return Onto(result, end);
        case Continue(sql', last', in') => sql, last, inStatement := sql', last', in';
        case Emit(statement, sql') =>
          result := result + [statement];
          assert script[sql'.start..sql'.start] == [];
          sql, last, inStatement := sql', sql', false;
      }
    }
    assert |script[last.start..sql.start]| == last.size && result + [] == result;
    if last.size > 0 { return Err(UnterminatedStatement); }
    return Ok(result);
  }
}
