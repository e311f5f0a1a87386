/**
  A parser for what the printers write. It accepts exactly the texts of valid
  definitions, so that distinct definitions are printed differently.
 */
module AsdlParser {
  import opened Wrappers
  import opened Asdl

  // ---- identifiers -------------------------------------------------------------------

  /** How many letters the text starts with. */
  function Span(s: string): (n: nat)
    ensures n <= |s|
  {
    if s != "" && Letter(s[0]) then 1 + Span(s[1..]) else 0
  }

  predicate NoLetter(rest: string) { rest == "" || !Letter(rest[0]) }

  lemma {:induction false} SpanOf(id: string, rest: string)
    requires AllLetters(id) && NoLetter(rest)
    ensures Span(id + rest) == |id|
  {
    if id == "" {
      assert id + rest == rest;
    } else {
      assert (id + rest)[1..] == id[1..] + rest;
      SpanOf(id[1..], rest);
    }
  }

  lemma {:induction false} SpanIsLetters(s: string)
    ensures AllLetters(s[..Span(s)]) && NoLetter(s[Span(s)..])
  {
    if s != "" && Letter(s[0]) {
      SpanIsLetters(s[1..]);
      var n := Span(s[1..]);
      assert s[..n + 1] == [s[0]] + s[1..][..n] && s[n + 1..] == s[1..][n..];
    }
  }

  function ParseIdentifier(s: string): (r: Option<(string, string)>)
    ensures r.Some? ==> |r.value.1| < |s|
  {
    var n := Span(s);
    if n == 0 || !Alpha(s[0]) then None else Some((s[..n], s[n..]))
  }

  lemma {:induction false} IdentifierRead(id: string, rest: string)
    requires IsIdentifier(id) && NoLetter(rest)
    ensures ParseIdentifier(id + rest) == Some((id, rest))
  {
    SpanOf(id, rest);
    assert (id + rest)[..|id|] == id && (id + rest)[|id|..] == rest;
  }

  lemma {:induction false} IdentifierParsed(s: string)
    requires ParseIdentifier(s).Some?
    ensures var (id, rest) := ParseIdentifier(s).value; s == id + rest && IsIdentifier(id) && NoLetter(rest)
  {
    SpanIsLetters(s);
  }

  // ---- fields ---------------------------------------------------------------------------

  function ParseCardinality(s: string): (r: (Cardinality, string))
    ensures |r.1| <= |s| && s == CardinalityText(r.0) + r.1
  {
    if s != "" && s[0] == '?' then (Optional, s[1..])
    else if s != "" && s[0] == '*' then (Multiple, s[1..])
    else (Single, s)
  }

  function ParseField(s: string): (r: Option<(Field, string)>)
    ensures r.Some? ==> |r.value.1| < |s|
  {
    var typ := ParseIdentifier(s);
    if typ.None? || !IsType(typ.value.0) then None
    else
      var (card, rest) := ParseCardinality(typ.value.1);
      if rest == "" || rest[0] != ' ' then Some((Field(typ.value.0, "", card), rest))
      else
        var name := ParseIdentifier(rest[1..]);
        if name.None? then None else Some((Field(typ.value.0, name.value.0, card), name.value.1))
  }

  /** What stands behind a field. */
  predicate EndsField(rest: string) { rest != "" && (rest[0] == ',' || rest[0] == ')') }

  lemma {:induction false} CardinalityRead(card: Cardinality, name: string, rest: string)
    requires EndsField(rest)
    ensures NoLetter(CardinalityText(card) + (NameText(name) + rest))
    ensures ParseCardinality(CardinalityText(card) + (NameText(name) + rest)) == (card, NameText(name) + rest)
  {
    var s := CardinalityText(card) + (NameText(name) + rest);
    assert card != Single ==> s[1..] == NameText(name) + rest;
    assert card == Single ==> s == NameText(name) + rest;
  }

  lemma {:induction false} NameRead(name: string, rest: string)
    requires EndsField(rest) && (name == "" || IsIdentifier(name))
    ensures var s := NameText(name) + rest;
            && (name == "" ==> s == rest)
            && (name != "" ==> s[0] == ' ' && ParseIdentifier(s[1..]) == Some((name, rest)))
  {
    hide ParseIdentifier, IsIdentifier;
    var s := NameText(name) + rest;
    if name != "" {
      assert s[1..] == name + rest;
      IdentifierRead(name, rest);
    }
  }

  lemma {:induction false} FieldTextSplit(f: Field, rest: string)
    ensures FieldText(f) + rest == f.typ + (CardinalityText(f.cardinality) + (NameText(f.name) + rest))
  {
    hide CardinalityText, NameText;
  }

  lemma {:induction false} FieldRead(f: Field, rest: string)
    requires ValidField(f) && EndsField(rest)
    ensures ParseField(FieldText(f) + rest) == Some((f, rest))
  {
    hide ParseIdentifier, ParseCardinality, CardinalityText, NameText, FieldText, AllLetters;
    FieldTextSplit(f, rest);
    CardinalityRead(f.cardinality, f.name, rest);
    IdentifierRead(f.typ, CardinalityText(f.cardinality) + (NameText(f.name) + rest));
    NameRead(f.name, rest);
  }

  lemma {:induction false} FieldParsed(s: string)
    requires ParseField(s).Some?
    ensures var (f, rest) := ParseField(s).value; s == FieldText(f) + rest && ValidField(f)
  {
    hide ParseIdentifier, ParseCardinality, CardinalityText, IsIdentifier;
    var typ := ParseIdentifier(s).value;
    IdentifierParsed(s);
    var (card, behind) := ParseCardinality(typ.1);
    if behind != "" && behind[0] == ' ' {
      IdentifierParsed(behind[1..]);
      var name := ParseIdentifier(behind[1..]).value;
      NamedFieldText(typ.0, card, name.0, name.1);
      assert behind == [' '] + (name.0 + name.1);
    } else {
      assert typ.0 + (CardinalityText(card) + behind) == typ.0 + (CardinalityText(card) + "") + behind;
    }
  }

  lemma {:induction false} NamedFieldText(typ: string, card: Cardinality, name: string, rest: string)
    requires IsIdentifier(name)
    ensures typ + (CardinalityText(card) + ([' '] + (name + rest))) == FieldText(Field(typ, name, card)) + rest
  {
    hide CardinalityText;
  }

  /** One or more fields, and the closing parenthesis. */
  function ParseFields(s: string): (r: Option<(seq<Field>, string)>)
    ensures r.Some? ==> |r.value.1| < |s| && r.value.0 != []
    decreases |s|
  {
    var f := ParseField(s);
    if f.None? || f.value.1 == "" then None
    else if f.value.1[0] == ')' then Some(([f.value.0], f.value.1[1..]))
    else if f.value.1[0] != ',' then None
    else
      var more := ParseFields(f.value.1[1..]);
      if more.None? then None else Some(([f.value.0] + more.value.0, more.value.1))
  }

  lemma {:induction false} FieldsRead(fs: seq<Field>, rest: string)
    requires fs != [] && ValidFields(fs)
    ensures ParseFields(FieldsText(fs) + ([')'] + rest)) == Some((fs, rest))
    decreases |fs|
  {
    hide ParseField, FieldText, ValidField;
    var s := FieldsText(fs) + ([')'] + rest);
    if |fs| == 1 {
      FieldRead(fs[0], [')'] + rest);
      assert ([')'] + rest)[1..] == rest && fs == [fs[0]];
    } else {
      var tail := FieldsText(fs[1..]) + ([')'] + rest);
      assert s == FieldText(fs[0]) + ([','] + tail);
      FieldRead(fs[0], [','] + tail);
      FieldsRead(fs[1..], rest);
      assert ([','] + tail)[1..] == tail && fs == [fs[0]] + fs[1..];
    }
  }

  lemma {:induction false} FieldsParsed(s: string)
    requires ParseFields(s).Some?
    ensures var (fs, rest) := ParseFields(s).value; s == FieldsText(fs) + ([')'] + rest) && ValidFields(fs)
    decreases |s|
  {
    hide ParseField, FieldText, ValidField;
    FieldParsed(s);
    var (f, behind) := ParseField(s).value;
    if behind[0] == ')' {
      assert behind == [')'] + behind[1..];
    } else {
      FieldsParsed(behind[1..]);
      var (more, rest) := ParseFields(behind[1..]).value;
      assert ([f] + more)[1..] == more && behind == [','] + behind[1..];
      assert FieldText(f) + ([','] + (FieldsText(more) + ([')'] + rest)))
          == FieldText(f) + ([','] + FieldsText(more)) + ([')'] + rest);
    }
  }

  /** Fields in parentheses, at least one. */
  function ParseParenthesised(s: string): (r: Option<(seq<Field>, string)>)
    ensures r.Some? ==> |r.value.1| < |s| && r.value.0 != []
  {
    if s == "" || s[0] != '(' then None else ParseFields(s[1..])
  }

  lemma {:induction false} ParenthesisedRead(fs: seq<Field>, rest: string)
    requires fs != [] && ValidFields(fs)
    ensures ParseParenthesised(Parenthesised(fs) + rest) == Some((fs, rest))
  {
    hide FieldsText, ParseFields;
    assert (Parenthesised(fs) + rest)[1..] == FieldsText(fs) + ([')'] + rest);
    FieldsRead(fs, rest);
  }

  lemma {:induction false} ParenthesisedParsed(s: string)
    requires ParseParenthesised(s).Some?
    ensures var (fs, rest) := ParseParenthesised(s).value; s == Parenthesised(fs) + rest && ValidFields(fs)
  {
    hide FieldsText, ParseFields;
    FieldsParsed(s[1..]);
    assert s == ['('] + s[1..];
  }

  // ---- constructors ------------------------------------------------------------------------

  function ParseConstructor(s: string): (r: Option<(Constructor, string)>)
    ensures r.Some? ==> |r.value.1| < |s|
  {
    var name := ParseIdentifier(s);
    if name.None? || !IsConstructor(name.value.0) then None
    else if name.value.1 == "" || name.value.1[0] != '(' then Some((Constructor(name.value.0, []), name.value.1))
    else
      var fields := ParseParenthesised(name.value.1);
      if fields.None? then None else Some((Constructor(name.value.0, fields.value.0), fields.value.1))
  }

  /** What stands behind a constructor. */
  predicate EndsConstructor(rest: string) { rest == "" || rest[0] == ' ' }

  lemma {:induction false} ConstructorRead(c: Constructor, rest: string)
    requires ValidConstructor(c) && EndsConstructor(rest)
    ensures ParseConstructor(ConstructorText(c) + rest) == Some((c, rest))
  {
    hide ParseIdentifier, ParseParenthesised, FieldsText, ValidFields, AllLetters;
    if c.fields == [] {
      IdentifierRead(c.name, rest);
    } else {
      var behind := Parenthesised(c.fields) + rest;
      assert ConstructorText(c) + rest == c.name + behind;
      IdentifierRead(c.name, behind);
      ParenthesisedRead(c.fields, rest);
    }
  }

  lemma {:induction false} ConstructorParsed(s: string)
    requires ParseConstructor(s).Some?
    ensures var (c, rest) := ParseConstructor(s).value; s == ConstructorText(c) + rest && ValidConstructor(c)
  {
    hide ParseIdentifier, ParseParenthesised, Parenthesised, AllLetters;
    IdentifierParsed(s);
    var (name, behind) := ParseIdentifier(s).value;
    if behind != "" && behind[0] == '(' {
      ParenthesisedParsed(behind);
      var (fs, rest) := ParseParenthesised(behind).value;
      assert name + (Parenthesised(fs) + rest) == name + Parenthesised(fs) + rest;
    }
  }

  predicate StartsWith(s: string, prefix: string) { |prefix| <= |s| && s[..|prefix|] == prefix }

  function ParseConstructors(s: string): (r: Option<(seq<Constructor>, string)>)
    ensures r.Some? ==> |r.value.1| < |s| && r.value.0 != []
    decreases |s|
  {
    var c := ParseConstructor(s);
    if c.None? then None
    else if !StartsWith(c.value.1, BAR) then Some(([c.value.0], c.value.1))
    else
      var more := ParseConstructors(c.value.1[|BAR|..]);
      if more.None? then None else Some(([c.value.0] + more.value.0, more.value.1))
  }

  lemma {:induction false} ConstructorsRead(cs: seq<Constructor>, rest: string)
    requires cs != [] && ValidConstructors(cs) && EndsConstructor(rest) && !StartsWith(rest, BAR)
    ensures ParseConstructors(ConstructorsText(cs) + rest) == Some((cs, rest))
    decreases |cs|
  {
    hide ParseConstructor, ConstructorText, ValidConstructor;
    if |cs| == 1 {
      ConstructorRead(cs[0], rest);
      assert cs == [cs[0]];
    } else {
      var tail := ConstructorsText(cs[1..]) + rest;
      assert ConstructorsText(cs) + rest == ConstructorText(cs[0]) + (BAR + tail);
      ConstructorRead(cs[0], BAR + tail);
      ConstructorsRead(cs[1..], rest);
      assert (BAR + tail)[|BAR|..] == tail && (BAR + tail)[..|BAR|] == BAR && cs == [cs[0]] + cs[1..];
    }
  }

  lemma {:induction false} ConstructorsParsed(s: string)
    requires ParseConstructors(s).Some?
    ensures var (cs, rest) := ParseConstructors(s).value; s == ConstructorsText(cs) + rest && ValidConstructors(cs)
    decreases |s|
  {
    hide ParseConstructor, ConstructorText, ValidConstructor;
    ConstructorParsed(s);
    var (c, behind) := ParseConstructor(s).value;
    if StartsWith(behind, BAR) {
      ConstructorsParsed(behind[|BAR|..]);
      var (more, rest) := ParseConstructors(behind[|BAR|..]).value;
      assert ([c] + more)[1..] == more && behind == BAR + behind[|BAR|..];
      assert ConstructorText(c) + (BAR + (ConstructorsText(more) + rest))
          == ConstructorText(c) + (BAR + ConstructorsText(more)) + rest;
    }
  }

  // ---- definitions ---------------------------------------------------------------------------

  function ParseSum(s: string): Option<Declarator> {
    var cs := ParseConstructors(s);
    if cs.None? then None
    else if cs.value.1 == "" then Some(Declarator(cs.value.0, []))
    else if !StartsWith(cs.value.1, ATTRIBUTES) then None
    else
      var fields := ParseParenthesised(cs.value.1[|ATTRIBUTES|..]);
      if fields.None? || fields.value.1 != "" then None else Some(Declarator(cs.value.0, fields.value.0))
  }

  function ParseProduct(s: string): Option<Declarator> {
    if s == "()" then Some(Declarator([], []))
    else
      var fields := ParseParenthesised(s);
      if fields.None? || fields.value.1 != "" then None else Some(Declarator([], fields.value.0))
  }

  function ParseDeclarator(s: string): Option<Declarator> {
    if s != "" && s[0] == '(' then ParseProduct(s) else ParseSum(s)
  }

  function ParseDefinition(s: string): Option<Definition> {
    var name := ParseIdentifier(s);
    if name.None? || !IsType(name.value.0) || !StartsWith(name.value.1, EQUALS) then None
    else
      var declarator := ParseDeclarator(name.value.1[|EQUALS|..]);
      if declarator.None? then None else Some(Definition(name.value.0, declarator.value))
  }

  lemma {:induction false} SumRead(d: Declarator)
    requires ValidDeclarator(d) && d.constructors != []
    ensures ParseSum(DeclaratorText(d)) == Some(d)
  {
    hide ParseConstructors, ParseParenthesised, ConstructorsText, FieldsText, ValidFields, ValidConstructors;
    if d.fields == [] {
      ConstructorsRead(d.constructors, "");
      assert ConstructorsText(d.constructors) + "" == ConstructorsText(d.constructors);
    } else {
      var behind := ATTRIBUTES + Parenthesised(d.fields);
      assert behind[..|ATTRIBUTES|] == ATTRIBUTES && behind[|ATTRIBUTES|..] == Parenthesised(d.fields);
      assert behind[..|BAR|][1] == 'a';
      ConstructorsRead(d.constructors, behind);
      ParenthesisedRead(d.fields, "");
      assert Parenthesised(d.fields) + "" == Parenthesised(d.fields);
    }
  }

  lemma {:induction false} SumParsed(s: string)
    requires ParseSum(s).Some?
    ensures var d := ParseSum(s).value; s == DeclaratorText(d) && ValidDeclarator(d) && d.constructors != []
  {
    hide ParseConstructors, ParseParenthesised, ConstructorsText, Parenthesised, ValidConstructors;
    ConstructorsParsed(s);
    var (cs, behind) := ParseConstructors(s).value;
    if behind == "" {
      assert s == ConstructorsText(cs);
    } else {
      ParenthesisedParsed(behind[|ATTRIBUTES|..]);
      var fs := ParseParenthesised(behind[|ATTRIBUTES|..]).value.0;
      assert behind[|ATTRIBUTES|..] == Parenthesised(fs);
      assert behind == ATTRIBUTES + Parenthesised(fs);
    }
  }

  lemma {:induction false} ProductRead(fs: seq<Field>)
    requires ValidFields(fs)
    ensures ParseProduct(Parenthesised(fs)) == Some(Declarator([], fs))
  {
    hide ParseParenthesised, ValidFields, FieldText;
    if fs != [] {
      ParenthesisedRead(fs, "");
      assert Parenthesised(fs) + "" == Parenthesised(fs);
      NotEmptyParentheses(fs);
    }
  }

  lemma {:induction false} NotEmptyParentheses(fs: seq<Field>)
    requires fs != [] && ValidFields(fs)
    ensures Parenthesised(fs) != "()"
  {
    assert ValidField(fs[0]) && |FieldText(fs[0])| > 0;
    hide FieldText;
    assert |Parenthesised(fs)| > 2;
  }

  lemma {:induction false} ProductParsed(s: string)
    requires ParseProduct(s).Some?
    ensures var d := ParseProduct(s).value; s == Parenthesised(d.fields) && ValidFields(d.fields) && d.constructors == []
  {
    hide ParseParenthesised;
    if s != "()" {
      ParenthesisedParsed(s);
      var fs := ParseParenthesised(s).value.0;
      assert s == Parenthesised(fs);
    }
  }

  /** A sum starts with a constructor, a product with a parenthesis. */
  lemma {:induction false} SumStart(cs: seq<Constructor>)
    requires cs != [] && ValidConstructors(cs)
    ensures ConstructorsText(cs) != "" && ConstructorsText(cs)[0] != '('
  {
    hide Parenthesised, ValidFields;
    assert ConstructorText(cs[0])[0] == cs[0].name[0];
  }

  lemma {:induction false} DeclaratorRead(d: Declarator)
    requires ValidDeclarator(d)
    ensures ParseDeclarator(DeclaratorText(d)) == Some(d)
  {
    hide ParseSum, ParseProduct, ConstructorsText, ValidFields, ValidConstructors;
    if d.constructors == [] {
      ProductRead(d.fields);
    } else {
      SumRead(d);
      SumStart(d.constructors);
    }
  }

  lemma {:induction false} DeclaratorParsed(s: string)
    requires ParseDeclarator(s).Some?
    ensures s == DeclaratorText(ParseDeclarator(s).value) && ValidDeclarator(ParseDeclarator(s).value)
  {
    hide ParseSum, ParseProduct, ConstructorsText, Parenthesised, ValidFields;
    if s != "" && s[0] == '(' { ProductParsed(s); } else { SumParsed(s); }
  }

  /** The parser reads back what was printed, and accepts nothing else. */
  lemma {:induction false} DefinitionRoundTrip(s: string, d: Definition)
    ensures ParseDefinition(s) == Some(d) <==> ValidDefinition(d) && s == DefinitionText(d)
  {
    hide ParseDeclarator, DeclaratorText, ValidDeclarator, IsIdentifier, ParseIdentifier;
    if ValidDefinition(d) && s == DefinitionText(d) {
      var behind := EQUALS + DeclaratorText(d.declarator);
      IdentifierRead(d.name, behind);
      DeclaratorRead(d.declarator);
      assert behind[..|EQUALS|] == EQUALS && behind[|EQUALS|..] == DeclaratorText(d.declarator);
    }
    if ParseDefinition(s) == Some(d) {
      IdentifierParsed(s);
      var (name, behind) := ParseIdentifier(s).value;
      DeclaratorParsed(behind[|EQUALS|..]);
      assert behind == EQUALS + behind[|EQUALS|..];
    }
  }

  /** Different valid definitions have different texts. */
  lemma {:induction false} PrintingIsInjective(d: Definition, e: Definition)
    requires ValidDefinition(d) && ValidDefinition(e) && DefinitionText(d) == DefinitionText(e)
    ensures d == e
  {
    hide ParseDefinition, DefinitionText, ValidDefinition;
    DefinitionRoundTrip(DefinitionText(d), d);
    DefinitionRoundTrip(DefinitionText(d), e);
  }

  /** Without valid identifiers, a name can pass for another field. */
  lemma {:induction false} InvalidNamesCollide()
    ensures exists d, e :: d != e && ValidDefinition(e) && DefinitionText(d) == DefinitionText(e)
  {
    var typ := "int";
    var d := Definition("t", Declarator([], [Field(typ, "x,int", Single)]));
    var e := Definition("t", Declarator([], [Field(typ, "x", Single), Field(typ, "", Single)]));
    assert d.declarator.fields != e.declarator.fields;
    assert e.declarator.fields[1..] == [Field(typ, "", Single)];
    assert FieldsText(d.declarator.fields) == "int x,int";
    assert FieldsText(e.declarator.fields) == "int x,int";
    assert ValidDefinition(e);
    assert DefinitionText(d) == DefinitionText(e);
  }
}
