/**
  The events that Expat reports, and the private byte encoding in which the
  callbacks buffer them: a type byte, a raw position (not for attributes and the
  end of the stream), and NUL-terminated strings. A byte is a character here.
 */
module XmlEvents {
  import opened Wrappers
  import opened Bytes
  import opened Sequences

  const ENC_START: char := 1 as char
  const ENC_ATTRIBUTE: char := 2 as char
  const ENC_END: char := 3 as char
  const ENC_TEXT: char := 4 as char
  const ENC_EOD: char := 5 as char

  type Unsigned = x: int | 0 <= x < 0x1_0000_0000

  datatype Position = Position(line: Unsigned, column: Unsigned)

  datatype Attribute = Attribute(key: string, value: string)

  datatype Event =
    | Start(pos: Position, name: string, attributes: seq<Attribute>)
    | End(pos: Position)
    | Text(pos: Position, text: string)

  // ---- what Expat guarantees -------------------------------------------------

  predicate NulFree(s: string) { forall c | c in s :: c != NUL }

  predicate ValidAttributes(attributes: seq<Attribute>) {
    forall i | 0 <= i < |attributes| :: NulFree(attributes[i].key) && NulFree(attributes[i].value)
  }

  /** Expat cannot report embedded NULs. */
  predicate ValidEvent(e: Event) {
    match e
    case Start(_, name, attributes) => NulFree(name) && ValidAttributes(attributes)
    case End(_) => true
    case Text(_, text) => NulFree(text)
  }

  predicate ValidEvents(es: seq<Event>) { forall i | 0 <= i < |es| :: ValidEvent(es[i]) }

  // ---- the encoding ----------------------------------------------------------

  const POSITION_SIZE := 8

  function Bytes4(n: Unsigned): (b: string)
    ensures |b| == 4
  {
    [(n % 256) as char, (n / 256 % 256) as char, (n / 0x10000 % 256) as char, (n / 0x100_0000) as char]
  }

  function Int4(b: string): (n: int)
    requires |b| == 4
  {
    b[0] as int + 256 * (b[1] as int) + 0x10000 * (b[2] as int) + 0x100_0000 * (b[3] as int)
  }

  lemma {:induction false} Bytes4Inverse(n: Unsigned)
    ensures Int4(Bytes4(n)) == n
  {
    assert n / 256 / 256 == n / 0x10000 && n / 0x10000 / 256 == n / 0x100_0000;
    assert n == n % 256 + 256 * (n / 256);
    assert n / 256 == n / 256 % 256 + 256 * (n / 0x10000);
    assert n / 0x10000 == n / 0x10000 % 256 + 256 * (n / 0x100_0000);
  }

  function EncodePosition(p: Position): (b: string)
    ensures |b| == POSITION_SIZE
  {
    Bytes4(p.line) + Bytes4(p.column)
  }

  /** The struct as it is copied back; a struct of bytes that did not come from one is out of scope. */
  function DecodePosition(b: string): (p: Position)
    requires |b| == POSITION_SIZE && Int4(b[..4]) < 0x1_0000_0000 && Int4(b[4..]) < 0x1_0000_0000
  {
    Position(Int4(b[..4]), Int4(b[4..]))
  }

  lemma {:induction false} PositionRoundTrip(p: Position)
    ensures Int4(EncodePosition(p)[..4]) < 0x1_0000_0000 && Int4(EncodePosition(p)[4..]) < 0x1_0000_0000
    ensures DecodePosition(EncodePosition(p)) == p
  {
    Bytes4Inverse(p.line);
    Bytes4Inverse(p.column);
    assert EncodePosition(p)[..4] == Bytes4(p.line) && EncodePosition(p)[4..] == Bytes4(p.column);
  }

  function CString(s: string): string { s + [NUL] }

  function EncodeAttributes(attributes: seq<Attribute>): string {
    if attributes == [] then []
    else [ENC_ATTRIBUTE] + CString(attributes[0].key) + CString(attributes[0].value) + EncodeAttributes(attributes[1..])
  }

  /** What the callback for the event appends to the buffer. */
  function Encode(e: Event): (b: string)
    ensures b != [] && b[0] != ENC_ATTRIBUTE
  {
    match e
    case Start(pos, name, attributes) => [ENC_START] + EncodePosition(pos) + CString(name) + EncodeAttributes(attributes)
    case End(pos) => [ENC_END] + EncodePosition(pos)
    case Text(pos, text) => [ENC_TEXT] + EncodePosition(pos) + CString(text)
  }

  function TypeByte(e: Event): char {
    match e
    case Start(_, _, _) => ENC_START
    case End(_) => ENC_END
    case Text(_, _) => ENC_TEXT
  }

  /** What follows the position, up to and including `rest`. */
  function Body(e: Event, rest: string): string {
    match e
    case Start(_, name, attributes) => CString(name) + (EncodeAttributes(attributes) + rest)
    case End(_) => rest
    case Text(_, text) => CString(text) + rest
  }

  lemma {:induction false} EncodeParts(e: Event, rest: string)
    ensures Encode(e) + rest == [TypeByte(e)] + (EncodePosition(e.pos) + Body(e, rest))
  {
    hide EncodePosition, EncodeAttributes, CString;
  }

  function EncodeAll(es: seq<Event>): (b: string)
    ensures es == [] <==> b == []
    ensures b != [] ==> b[0] != ENC_ATTRIBUTE
  {
    if es == [] then [] else Encode(es[0]) + EncodeAll(es[1..])
  }

  lemma {:induction false} EncodeAllAppend(a: seq<Event>, b: seq<Event>)
    ensures EncodeAll(a + b) == EncodeAll(a) + EncodeAll(b)
  {
    hide Encode;
    if a == [] {
      assert a + b == b;
    } else {
      assert (a + b)[1..] == a[1..] + b;
      EncodeAllAppend(a[1..], b);
      Associative(Encode(a[0]), EncodeAll(a[1..]), EncodeAll(b));
    }
  }

  // ---- C strings -------------------------------------------------------------

  /** `strlen`, or the length of the rest when no NUL follows. */
  function StrLen(b: string): (n: nat)
    ensures n <= |b| && NulFree(b[..n]) && (n < |b| ==> b[n] == NUL)
  {
    if b == [] || b[0] == NUL then 0
    else
      var n := StrLen(b[1..]);
      assert b[..n + 1] == [b[0]] + b[1..][..n];
      n + 1
  }

  lemma {:induction false} StrLenOfCString(s: string, rest: string)
    requires NulFree(s)
    ensures StrLen(CString(s) + rest) == |s|
    ensures (CString(s) + rest)[..|s|] == s && (CString(s) + rest)[|s| + 1..] == rest
  {
    if s != [] {
      var b := CString(s) + rest;
      assert b[0] == s[0] && s[0] in s;
      assert b[1..] == CString(s[1..]) + rest;
      assert forall c | c in s[1..] :: c in s;
      StrLenOfCString(s[1..], rest);
    }
  }

  // ---- event sequences -------------------------------------------------------

  function Flat(batches: seq<seq<Event>>): seq<Event> {
    if batches == [] then [] else batches[0] + Flat(batches[1..])
  }

  /** What is left after `nested` open elements have been closed, if they are. */
  function Strip(view: seq<Event>, nested: nat): (r: Option<seq<Event>>)
    ensures r.Some? ==> |r.value| <= |view| && (nested > 0 ==> |r.value| < |view|)
  {
    if nested == 0 then Some(view)
    else if view == [] then None
    else match view[0]
      case Start(_, _, _) => Strip(view[1..], nested + 1)
      case End(_) => Strip(view[1..], nested - 1)
      case Text(_, _) => Strip(view[1..], nested)
  }

  /** The view behind a run of text events. */
  function DropTexts(view: seq<Event>): (r: seq<Event>)
    ensures |r| <= |view|
    ensures view != [] && view[0].Text? ==> |r| < |view|
    ensures r != [] ==> !r[0].Text?
  {
    if view != [] && view[0].Text? then DropTexts(view[1..]) else view
  }

  /** The concatenation of a leading run of text events. */
  function Texts(view: seq<Event>): string {
    if view != [] && view[0].Text? then view[0].text + Texts(view[1..]) else []
  }

  /** `skip`: one element, one run of text, or one end tag. */
  function Skipped(view: seq<Event>): (r: Option<seq<Event>>)
    ensures r.Some? && view != [] ==> |r.value| < |view|
  {
    if view == [] then Some(view)
    else match view[0]
      case Start(_, _, _) => Strip(view[1..], 1)
      case Text(_, _) => Some(DropTexts(view))
      case End(_) => Some(view[1..])
  }

  /** `unnest`: skip until an end tag is reached, and step past it. */
  function Unnested(view: seq<Event>): (r: Option<seq<Event>>)
    ensures r.Some? ==> |r.value| < |view|
    decreases |view|
  {
    if view == [] then None
    else if view[0].End? then Some(view[1..])
    else
      var s := Skipped(view);
      if s.None? then None else Unnested(s.value)
  }

  /** Skipping siblings one by one closes exactly the enclosing element. */
  lemma {:induction false} UnnestedIsStrip(view: seq<Event>)
    ensures Unnested(view) == Strip(view, 1)
    decreases |view|
  {
    if view != [] {
      match view[0]
      case End(_) =>
      case Text(_, _) =>
        StripDropsTexts(view, 1);
        UnnestedIsStrip(DropTexts(view));
      case Start(_, _, _) =>
        StripTwice(view[1..], 1, 1);
        if Strip(view[1..], 1).Some? { UnnestedIsStrip(Strip(view[1..], 1).value); }
    }
  }

  lemma {:induction false} StripDropsTexts(view: seq<Event>, n: nat)
    requires n > 0
    ensures Strip(DropTexts(view), n) == Strip(view, n)
  {
    if view != [] && view[0].Text? { StripDropsTexts(view[1..], n); }
  }

  lemma {:induction false} StripTwice(view: seq<Event>, m: nat, n: nat)
    ensures Strip(view, m + n) == if Strip(view, m).None? then None else Strip(Strip(view, m).value, n)
  {
    if m > 0 && view != [] {
      match view[0]
      case Start(_, _, _) => StripTwice(view[1..], m + 1, n);
      case End(_) => StripTwice(view[1..], m - 1, n);
      case Text(_, _) => StripTwice(view[1..], m, n);
    }
  }
}
