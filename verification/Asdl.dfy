/** The Zephyr abstract syntax description language: its entities and their printers. */
module Asdl {
  // ---- identifiers -------------------------------------------------------------------

  predicate Upper(c: char) { 'A' <= c <= 'Z' }

  predicate Lower(c: char) { 'a' <= c <= 'z' }

  predicate Digit(c: char) { '0' <= c <= '9' }

  predicate Alpha(c: char) { Upper(c) || Lower(c) }

  predicate Letter(c: char) { Alpha(c) || Digit(c) || c == '_' }

  predicate AllLetters(s: string) { forall i | 0 <= i < |s| :: Letter(s[i]) }

  predicate IsIdentifier(s: string) { s != "" && Alpha(s[0]) && AllLetters(s) }

  predicate IsType(s: string) { IsIdentifier(s) && Lower(s[0]) }

  predicate IsConstructor(s: string) { IsIdentifier(s) && Upper(s[0]) }

  method ValidIdentifier(str: string) returns (valid: bool)
    ensures valid <==> IsIdentifier(str)
    ensures valid <==>
              && str != "" && ('A' <= str[0] <= 'Z' || 'a' <= str[0] <= 'z')
              && forall i | 0 <= i < |str| :: 'A' <= str[i] <= 'Z' || 'a' <= str[i] <= 'z' || '0' <= str[i] <= '9' || str[i] == '_'
  {
    if str == "" || !Alpha(str[0]) { return false; }
    var len := |str|;
    for i := 1 to len
      invariant AllLetters(str[..i])
    {
      if !Letter(str[i]) { return false; }
      assert str[..i + 1] == str[..i] + [str[i]];
    }
    assert str[..len] == str;
    return true;
  }

  /** Types begin with a lower-case letter, constructors with an upper-case one. */
  method ValidType(str: string) returns (valid: bool)
    ensures valid <==> IsType(str)
    ensures valid <==> IsIdentifier(str) && 'a' <= str[0] <= 'z'
  {
    valid := ValidIdentifier(str);
    return valid && Lower(str[0]);
  }

  method ValidConstructorName(str: string) returns (valid: bool)
    ensures valid <==> IsConstructor(str)
    ensures valid <==> IsIdentifier(str) && 'A' <= str[0] <= 'Z'
  {
    valid := ValidIdentifier(str);
    return valid && Upper(str[0]);
  }

  // ---- entities -----------------------------------------------------------------------

  datatype Cardinality = Single | Optional | Multiple

  /** The name may be empty. */
  datatype Field = Field(typ: string, name: string, cardinality: Cardinality)

  datatype Constructor = Constructor(name: string, fields: seq<Field>)

  /** A product has no constructors; in a sum, the fields are attributes. */
  datatype Declarator = Declarator(constructors: seq<Constructor>, fields: seq<Field>)

  datatype Definition = Definition(name: string, declarator: Declarator)

  predicate ValidField(f: Field) { IsType(f.typ) && (f.name == "" || IsIdentifier(f.name)) }

  predicate ValidFields(fs: seq<Field>) { forall i | 0 <= i < |fs| :: ValidField(fs[i]) }

  predicate ValidConstructor(c: Constructor) { IsConstructor(c.name) && ValidFields(c.fields) }

  predicate ValidConstructors(cs: seq<Constructor>) { forall i | 0 <= i < |cs| :: ValidConstructor(cs[i]) }

  predicate ValidDeclarator(d: Declarator) { ValidConstructors(d.constructors) && ValidFields(d.fields) }

  predicate ValidDefinition(d: Definition) { IsType(d.name) && ValidDeclarator(d.declarator) }

  // ---- texts ----------------------------------------------------------------------------

  const BAR := " | "
  const ATTRIBUTES := " attributes "
  const EQUALS := " = "

  function CardinalityText(c: Cardinality): string {
    match c
    case Single => ""
    case Optional => "?"
    case Multiple => "*"
  }

  function NameText(name: string): string { if name == "" then "" else [' '] + name }

  function FieldText(f: Field): string { f.typ + (CardinalityText(f.cardinality) + NameText(f.name)) }

  function FieldsText(fs: seq<Field>): string {
    if fs == [] then ""
    else if |fs| == 1 then FieldText(fs[0])
    else FieldText(fs[0]) + ([','] + FieldsText(fs[1..]))
  }

  function Parenthesised(fs: seq<Field>): string { ['('] + (FieldsText(fs) + [')']) }

  function ConstructorText(c: Constructor): string {
    if c.fields == [] then c.name else c.name + Parenthesised(c.fields)
  }

  function ConstructorsText(cs: seq<Constructor>): string {
    if cs == [] then ""
    else if |cs| == 1 then ConstructorText(cs[0])
    else ConstructorText(cs[0]) + (BAR + ConstructorsText(cs[1..]))
  }

  function DeclaratorText(d: Declarator): string {
    if d.constructors == [] then Parenthesised(d.fields)
    else if d.fields == [] then ConstructorsText(d.constructors)
    else ConstructorsText(d.constructors) + (ATTRIBUTES + Parenthesised(d.fields))
  }

  function DefinitionText(d: Definition): string { d.name + (EQUALS + DeclaratorText(d.declarator)) }

  /** How each entity looks on the page. */
  lemma {:induction false} PrintedField(t: string, name: string)
    requires name != ""
    ensures FieldText(Field(t, "", Single)) == t && FieldText(Field(t, name, Single)) == t + " " + name
    ensures FieldText(Field(t, "", Optional)) == t + "?" && FieldText(Field(t, name, Optional)) == t + "? " + name
    ensures FieldText(Field(t, "", Multiple)) == t + "*" && FieldText(Field(t, name, Multiple)) == t + "* " + name
  {
  }

  lemma {:induction false} TwoFields(f: Field, g: Field)
    ensures FieldsText([f]) == FieldText(f) && FieldsText([f, g]) == FieldText(f) + "," + FieldText(g)
  {
    hide FieldText;
    assert [f, g][1..] == [g] && FieldsText([g]) == FieldText(g);
    assert FieldsText([f, g]) == FieldText(f) + ([','] + FieldsText([f, g][1..]));
  }

  lemma {:induction false} PrintedConstructor(name: string, f: Field, g: Field)
    ensures ConstructorText(Constructor(name, [])) == name
    ensures ConstructorText(Constructor(name, [f])) == name + "(" + FieldText(f) + ")"
    ensures ConstructorText(Constructor(name, [f, g])) == name + "(" + FieldText(f) + "," + FieldText(g) + ")"
  {
    hide FieldText, FieldsText;
    TwoFields(f, g);
  }

  lemma {:induction false} PrintedSum(name: string, x: Constructor, y: Constructor, f: Field)
    ensures DefinitionText(Definition(name, Declarator([x], []))) == name + " = " + ConstructorText(x)
    ensures DefinitionText(Definition(name, Declarator([x, y], [])))
         == name + " = " + ConstructorText(x) + " | " + ConstructorText(y)
    ensures DefinitionText(Definition(name, Declarator([x, y], [f])))
         == name + " = " + ConstructorText(x) + " | " + ConstructorText(y) + " attributes (" + FieldText(f) + ")"
  {
    hide ConstructorText, FieldText;
    assert [x, y][1..] == [y] && ConstructorsText([y]) == ConstructorText(y);
    assert ConstructorsText([x, y]) == ConstructorText(x) + (BAR + ConstructorsText([x, y][1..]));
  }

  lemma {:induction false} PrintedProduct(name: string, f: Field, g: Field)
    ensures DefinitionText(Definition(name, Declarator([], []))) == name + " = ()"
    ensures DefinitionText(Definition(name, Declarator([], [f, g]))) == name + " = (" + FieldText(f) + "," + FieldText(g) + ")"
  {
    hide FieldText;
    TwoFields(f, g);
    assert FieldsText([]) == "" && Parenthesised([]) == "()";
  }

  // ---- printers -------------------------------------------------------------------------

  lemma {:induction false} Regroup(a: string, b: string, c: string, d: string, e: string)
    ensures a + (b + (c + d + e)) == a + (b + c) + d + e
  {
  }

  lemma {:induction false} FieldsTextAppend(fs: seq<Field>, f: Field)
    ensures FieldsText(fs + [f]) == if fs == [] then FieldText(f) else FieldsText(fs) + [','] + FieldText(f)
  {
    hide FieldText;
    var all := fs + [f];
    if |fs| == 1 {
      assert all[1..] == [f] && all[0] == fs[0];
    } else if fs != [] {
      assert all[1..] == fs[1..] + [f] && all[0] == fs[0];
      FieldsTextAppend(fs[1..], f);
      Regroup(FieldText(fs[0]), [','], FieldsText(fs[1..]), [','], FieldText(f));
    }
  }

  lemma {:induction false} NoConstructors()
    ensures ConstructorsText([]) == ""
  {
  }

  lemma {:induction false} ConstructorsTextAppend(cs: seq<Constructor>, c: Constructor)
    ensures ConstructorsText(cs + [c])
         == if cs == [] then ConstructorText(c) else ConstructorsText(cs) + BAR + ConstructorText(c)
  {
    hide ConstructorText;
    var all := cs + [c];
    if |cs| == 1 {
      assert all[1..] == [c] && all[0] == cs[0];
    } else if cs != [] {
      assert all[1..] == cs[1..] + [c] && all[0] == cs[0];
      ConstructorsTextAppend(cs[1..], c);
      Regroup(ConstructorText(cs[0]), BAR, ConstructorsText(cs[1..]), BAR, ConstructorText(c));
    }
  }

  class Stream {
    var text: string

    constructor ()
      ensures text == ""
    {
      text := "";
    }

    method PrintCardinality(c: Cardinality)
      modifies this
      ensures text == old(text) + CardinalityText(c)
    {
      match c
      case Single =>
      case Optional => text := text + "?";
      case Multiple => text := text + "*";
    }

    method PrintField(f: Field)
      modifies this
      ensures text == old(text) + FieldText(f)
    {
      text := text + f.typ;
      PrintCardinality(f.cardinality);
      if f.name != "" {
        text := text + " ";
        text := text + f.name;
      }
    }

    method PrintFields(fs: seq<Field>)
      modifies this
      ensures text == old(text) + FieldsText(fs)
    {
      hide FieldText;
      var first := true;
      for i := 0 to |fs|
        invariant first <==> i == 0
        invariant text == old(text) + FieldsText(fs[..i])
      {
        assert fs[..i + 1] == fs[..i] + [fs[i]];
        FieldsTextAppend(fs[..i], fs[i]);
        if first {
          first := false;
        } else {
          text := text + ",";
        }
        PrintField(fs[i]);
      }
      assert fs[..|fs|] == fs;
    }

    method PrintConstructor(c: Constructor)
      modifies this
      ensures text == old(text) + ConstructorText(c)
    {
      hide FieldsText;
      text := text + c.name;
      if c.fields != [] {
        text := text + "(";
        PrintFields(c.fields);
        text := text + ")";
      }
    }

    method PrintConstructors(cs: seq<Constructor>)
      modifies this
      ensures text == old(text) + ConstructorsText(cs)
    {
      hide ConstructorText, ConstructorsText;
      NoConstructors();
      var first := true;
      for i := 0 to |cs|
        invariant first <==> i == 0
        invariant text == old(text) + ConstructorsText(cs[..i])
      {
        assert cs[..i + 1] == cs[..i] + [cs[i]];
        ConstructorsTextAppend(cs[..i], cs[i]);
        if first {
          first := false;
        } else {
          text := text + BAR;
        }
        PrintConstructor(cs[i]);
      }
      assert cs[..|cs|] == cs;
    }

    method PrintDeclarator(d: Declarator)
      modifies this
      ensures text == old(text) + DeclaratorText(d)
    {
      hide FieldsText, ConstructorsText;
      if d.constructors == [] {
        text := text + "(";
        PrintFields(d.fields);
        text := text + ")";
      } else {
        PrintConstructors(d.constructors);
        if d.fields != [] {
          text := text + ATTRIBUTES + "(";
          PrintFields(d.fields);
          text := text + ")";
        }
      }
    }

    method PrintDefinition(d: Definition)
      modifies this
      ensures text == old(text) + DefinitionText(d)
    {
      hide DeclaratorText;
      text := text + d.name + EQUALS;
      PrintDeclarator(d.declarator);
    }
  }
}
