/**
  Documents as trees, and their event streams. A text child is one or more
  chunks, because the parser may report a run of text piecemeal.
 */
module XmlTree {
  import opened Wrappers
  import opened XmlEvents

  datatype Chunk = Chunk(pos: Position, text: string)

  datatype Tree =
    | Element(start: Position, name: string, attributes: seq<Attribute>, children: seq<Tree>, end: Position)
    | Characters(chunks: seq<Chunk>)

  function ChunkEvents(chunks: seq<Chunk>): seq<Event> {
    if chunks == [] then [] else [Text(chunks[0].pos, chunks[0].text)] + ChunkEvents(chunks[1..])
  }

  function ChunkText(chunks: seq<Chunk>): string {
    if chunks == [] then [] else chunks[0].text + ChunkText(chunks[1..])
  }

  lemma {:induction false} ChunkTextAppend(a: seq<Chunk>, b: seq<Chunk>)
    ensures ChunkText(a + b) == ChunkText(a) + ChunkText(b)
  {
    if a == [] {
      assert a + b == b;
    } else {
      assert (a + b)[1..] == a[1..] + b;
      ChunkTextAppend(a[1..], b);
    }
  }

  function Events(t: Tree): seq<Event>
    decreases t, 0
  {
    match t
    case Element(start, name, attributes, children, end) => [Start(start, name, attributes)] + AllEvents(children) + [End(end)]
    case Characters(chunks) => ChunkEvents(chunks)
  }

  function AllEvents(ts: seq<Tree>): seq<Event>
    decreases ts, 1
  {
    if ts == [] then [] else Events(ts[0]) + AllEvents(ts[1..])
  }

  /** Text children are not empty and not adjacent, at every level. */
  predicate Normal(ts: seq<Tree>)
    decreases ts
  {
    ts != [] ==>
      && Normal(ts[1..])
      && match ts[0]
         case Element(_, _, _, children, _) => Normal(children)
         case Characters(chunks) => chunks != [] && (|ts| > 1 ==> !ts[1].Characters?)
  }

  predicate NoTextAhead(view: seq<Event>) { view == [] || !view[0].Text? }

  /** The view that begins with an element, taken apart. */
  lemma {:induction false} ElementAhead(t: Tree, rest: seq<Event>)
    requires t.Element?
    ensures var view := Events(t) + rest;
            view[0] == Start(t.start, t.name, t.attributes) && view[1..] == AllEvents(t.children) + ([End(t.end)] + rest)
  {
    assert Events(t) + rest == [Start(t.start, t.name, t.attributes)] + (AllEvents(t.children) + ([End(t.end)] + rest));
  }

  lemma {:induction false} SiblingsAhead(ts: seq<Tree>, rest: seq<Event>)
    requires ts != []
    ensures AllEvents(ts) + rest == Events(ts[0]) + (AllEvents(ts[1..]) + rest)
  {
  }

  lemma {:induction false} ChunksAhead(chunks: seq<Chunk>, rest: seq<Event>)
    ensures NoTextAhead(rest) ==> Texts(ChunkEvents(chunks) + rest) == ChunkText(chunks)
    ensures NoTextAhead(rest) ==> DropTexts(ChunkEvents(chunks) + rest) == rest
    ensures forall n: nat | n > 0 :: Strip(ChunkEvents(chunks) + rest, n) == Strip(rest, n)
  {
    var view := ChunkEvents(chunks) + rest;
    if chunks == [] {
      assert view == rest;
    } else {
      assert view[1..] == ChunkEvents(chunks[1..]) + rest;
      ChunksAhead(chunks[1..], rest);
    }
  }

  /** Siblings are balanced: stripping passes over them. */
  lemma {:induction false} StripSiblings(ts: seq<Tree>, rest: seq<Event>, n: nat)
    requires n > 0
    ensures Strip(AllEvents(ts) + rest, n) == Strip(rest, n)
    decreases ts
  {
    if ts == [] {
      assert AllEvents(ts) + rest == rest;
    } else {
      var after := AllEvents(ts[1..]) + rest;
      SiblingsAhead(ts, rest);
      StripSiblings(ts[1..], rest, n);
      match ts[0]
      case Characters(chunks) => ChunksAhead(chunks, after);
      case Element(start, name, attributes, children, end) =>
        ElementAhead(ts[0], after);
        StripSiblings(children, [End(end)] + after, n + 1);
        assert ([End(end)] + after)[1..] == after;
    }
  }

  /** Behind the start tag, the element's content and end tag close exactly one level. */
  lemma {:induction false} StripElement(t: Tree, rest: seq<Event>)
    requires t.Element?
    ensures Strip((Events(t) + rest)[1..], 1) == Some(rest)
    ensures Skipped(Events(t) + rest) == Some(rest)
  {
    ElementAhead(t, rest);
    StripSiblings(t.children, [End(t.end)] + rest, 1);
    assert ([End(t.end)] + rest)[1..] == rest;
  }

  /** From inside an element, its remaining content and end tag close exactly one level. */
  lemma {:induction false} StripContent(ts: seq<Tree>, end: Position, rest: seq<Event>)
    ensures Strip(AllEvents(ts) + ([End(end)] + rest), 1) == Some(rest)
  {
    StripSiblings(ts, [End(end)] + rest, 1);
    assert ([End(end)] + rest)[1..] == rest;
  }

  /** A chunk of text joins the text it stands in front of. */
  lemma {:induction false} TextInFront(pos: Position, text: string, siblings: seq<Tree>) returns (ts: seq<Tree>)
    requires Normal(siblings)
    ensures Normal(ts) && AllEvents(ts) == [Text(pos, text)] + AllEvents(siblings)
  {
    var chunk := Chunk(pos, text);
    if siblings != [] && siblings[0].Characters? {
      var chunks := [chunk] + siblings[0].chunks;
      ts := [Characters(chunks)] + siblings[1..];
      assert chunks[1..] == siblings[0].chunks && ts[1..] == siblings[1..];
    } else {
      ts := [Characters([chunk])] + siblings;
      assert ChunkEvents([chunk]) == [Text(pos, text)] + ChunkEvents([]);
      assert ts[1..] == siblings;
    }
  }

  lemma {:induction false} ElementInFront(t: Tree, siblings: seq<Tree>, view: seq<Event>, rest: seq<Event>)
    requires t.Element? && view != [] && view[0] == Start(t.start, t.name, t.attributes)
    requires view[1..] == AllEvents(t.children) + ([End(t.end)] + (AllEvents(siblings) + rest))
    ensures view == AllEvents([t] + siblings) + rest
  {
    var ts := [t] + siblings;
    assert ts[1..] == siblings;
    SiblingsAhead(ts, rest);
    ElementAhead(t, AllEvents(siblings) + rest);
    hide AllEvents, Events;
    assert view == [view[0]] + view[1..];
    assert Events(t) + (AllEvents(siblings) + rest) == [view[0]] + (Events(t) + (AllEvents(siblings) + rest))[1..];
  }

  /** Every balanced stream is the stream of some normal trees: nothing is lost by speaking of trees. */
  lemma {:induction false} BalancedIsTrees(view: seq<Event>) returns (ts: seq<Tree>, end: Position)
    requires Strip(view, 1).Some?
    ensures Normal(ts) && view == AllEvents(ts) + ([End(end)] + Strip(view, 1).value)
    decreases |view|
  {
    assert view == [view[0]] + view[1..];
    match view[0]
    case End(pos) =>
      ts, end := [], pos;
      assert AllEvents([]) + view == view;
    case Text(pos, text) =>
      var siblings;
      siblings, end := BalancedIsTrees(view[1..]);
      ts := TextInFront(pos, text, siblings);
    case Start(pos, name, attributes) =>
      StripTwice(view[1..], 1, 1);
      var inner, innerEnd := BalancedIsTrees(view[1..]);
      var siblings;
      siblings, end := BalancedIsTrees(Strip(view[1..], 1).value);
      ts := [Element(pos, name, attributes, inner, innerEnd)] + siblings;
      ElementInFront(ts[0], siblings, view, [End(end)] + Strip(view, 1).value);
  }

  // ---- moving over siblings ---------------------------------------------------

  /** What stands in front when the remaining siblings are `ts`. */
  lemma {:induction false} SiblingInFront(ts: seq<Tree>, closing: seq<Event>)
    requires Normal(ts) && closing != [] && closing[0].End?
    ensures var view := AllEvents(ts) + closing;
            && view != []
            && (ts == [] ==> view == closing)
            && (ts != [] && ts[0].Element? ==>
                  view[0] == Start(ts[0].start, ts[0].name, ts[0].attributes)
                  && view[1..] == AllEvents(ts[0].children) + ([End(ts[0].end)] + (AllEvents(ts[1..]) + closing)))
            && (ts != [] && ts[0].Characters? ==>
                  view[0].Text? && Texts(view) == ChunkText(ts[0].chunks) && DropTexts(view) == AllEvents(ts[1..]) + closing)
            && (ts != [] ==> Skipped(view) == Some(AllEvents(ts[1..]) + closing))
  {
    if ts == [] {
      assert AllEvents(ts) + closing == closing;
    } else {
      var after := AllEvents(ts[1..]) + closing;
      SiblingsAhead(ts, closing);
      match ts[0]
      case Element(_, _, _, _, _) =>
        ElementAhead(ts[0], after);
        StripElement(ts[0], after);
      case Characters(chunks) =>
        if |ts| > 1 {
          SiblingsAhead(ts[1..], closing);
          assert ts[1].Element?;
          ElementAhead(ts[1], AllEvents(ts[2..]) + closing);
          assert ts[1..][1..] == ts[2..];
        } else {
          assert after == closing;
        }
        ChunksAhead(chunks, after);
        assert (Events(ts[0]) + after)[0].Text?;
    }
  }
}
