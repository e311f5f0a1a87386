/** The tree builder: a stack of open elements over the pull parser. */
module Minidom {
  import opened Wrappers
  import opened XmlEvents
  import opened XmlTree
  import opened ExpatSource

  datatype Node =
    | Branch(name: string, attributes: map<string, string>, children: seq<Node>)
    | Leaf(data: string)

  /** The document that a tree stands for: positions and chunk boundaries are gone. */
  function Document(t: Tree): Node
    decreases t, 0
  {
    match t
    case Element(_, name, attributes, children, _) => Branch(name, MapOf(attributes, map[]), Documents(children))
    case Characters(chunks) => Leaf(ChunkText(chunks))
  }

  function Documents(ts: seq<Tree>): (r: seq<Node>)
    ensures |r| == |ts| && forall i | 0 <= i < |ts| :: r[i] == Document(ts[i])
    decreases ts, 1
  {
    if ts == [] then [] else [Document(ts[0])] + Documents(ts[1..])
  }

  // ---- the builder as a function of the view ---------------------------------

  /** `stack.back()->children.push_back(n)`. */
  function Grow(stack: seq<Node>, n: Node): (r: seq<Node>)
    requires stack != [] && forall i | 0 <= i < |stack| :: stack[i].Branch?
    ensures |r| == |stack| && forall i | 0 <= i < |r| :: r[i].Branch?
  {
    var top := stack[|stack| - 1];
    stack[..|stack| - 1] + [Branch(top.name, top.attributes, top.children + [n])]
  }

  /** From the stack of open elements and what is ahead: the root, and what follows it. */
  function Build(stack: seq<Node>, view: seq<Event>): (r: Option<(Node, seq<Event>)>)
    requires stack != [] && forall i | 0 <= i < |stack| :: stack[i].Branch?
    decreases |view|
  {
    if view == [] then None
    else match view[0]
      case Start(_, name, attributes) => Build(stack + [Branch(name, MapOf(attributes, map[]), [])], view[1..])
      case End(_) =>
        if |stack| == 1 then Some((stack[0], view[1..]))
        else Build(Grow(stack[..|stack| - 1], stack[|stack| - 1]), view[1..])
      case Text(_, _) => Build(Grow(stack, Leaf(Texts(view))), DropTexts(view))
  }

  /** A balanced view is enough for the builder to finish, where `Strip` does. */
  lemma {:induction false} BuildFinishes(stack: seq<Node>, view: seq<Event>)
    requires stack != [] && forall i | 0 <= i < |stack| :: stack[i].Branch?
    requires Strip(view, |stack|).Some?
    ensures Build(stack, view).Some? && Build(stack, view).value.1 == Strip(view, |stack|).value
    decreases |view|
  {
    match view[0]
    case Start(_, name, attributes) => BuildFinishes(stack + [Branch(name, MapOf(attributes, map[]), [])], view[1..]);
    case End(_) =>
      if |stack| > 1 { BuildFinishes(Grow(stack[..|stack| - 1], stack[|stack| - 1]), view[1..]); }
    case Text(_, _) =>
      StripDropsTexts(view, |stack|);
      BuildFinishes(Grow(stack, Leaf(Texts(view))), DropTexts(view));
  }

  function GrowAll(stack: seq<Node>, ns: seq<Node>): (r: seq<Node>)
    requires stack != [] && forall i | 0 <= i < |stack| :: stack[i].Branch?
    ensures |r| == |stack| && forall i | 0 <= i < |r| :: r[i].Branch?
    decreases |ns|
  {
    if ns == [] then stack else GrowAll(Grow(stack, ns[0]), ns[1..])
  }

  lemma {:induction false} GrowAllChildren(stack: seq<Node>, ns: seq<Node>)
    requires stack != [] && forall i | 0 <= i < |stack| :: stack[i].Branch?
    ensures var top := stack[|stack| - 1];
            GrowAll(stack, ns) == stack[..|stack| - 1] + [Branch(top.name, top.attributes, top.children + ns)]
    decreases |ns|
  {
    var top := stack[|stack| - 1];
    if ns == [] {
      assert top.children + ns == top.children;
      assert stack == stack[..|stack| - 1] + [top];
    } else {
      var grown := Grow(stack, ns[0]);
      GrowAllChildren(grown, ns[1..]);
      assert (top.children + [ns[0]]) + ns[1..] == top.children + ns;
      assert grown[..|grown| - 1] == stack[..|stack| - 1];
    }
  }

  /** The events of normal siblings add exactly their documents to the innermost open element. */
  lemma {:induction false} BuildSiblings(stack: seq<Node>, ts: seq<Tree>, rest: seq<Event>)
    requires stack != [] && forall i | 0 <= i < |stack| :: stack[i].Branch?
    requires Normal(ts) && NoTextAhead(rest)
    ensures Build(stack, AllEvents(ts) + rest) == Build(GrowAll(stack, Documents(ts)), rest)
    decreases ts
  {
    if ts == [] {
      assert AllEvents(ts) + rest == rest;
    } else {
      var after := AllEvents(ts[1..]) + rest;
      SiblingsAhead(ts, rest);
      BuildSiblings(Grow(stack, Document(ts[0])), ts[1..], rest);
      assert Documents(ts)[1..] == Documents(ts[1..]);
      BuildOne(stack, ts[0], ts[1..], rest);
    }
  }

  lemma {:induction false} BuildOne(stack: seq<Node>, t: Tree, ts: seq<Tree>, rest: seq<Event>)
    requires stack != [] && forall i | 0 <= i < |stack| :: stack[i].Branch?
    requires Normal([t] + ts) && NoTextAhead(rest)
    ensures Build(stack, Events(t) + (AllEvents(ts) + rest)) == Build(Grow(stack, Document(t)), AllEvents(ts) + rest)
    decreases t
  {
    hide Build;
    assert ([t] + ts)[1..] == ts;
    if t.Characters? {
      BuildText(stack, t, ts, rest);
    } else {
      BuildElement(stack, t, AllEvents(ts) + rest);
    }
  }

  lemma {:induction false} BuildText(stack: seq<Node>, t: Tree, ts: seq<Tree>, rest: seq<Event>)
    requires stack != [] && forall i | 0 <= i < |stack| :: stack[i].Branch?
    requires t.Characters? && Normal([t] + ts) && NoTextAhead(rest)
    ensures Build(stack, Events(t) + (AllEvents(ts) + rest)) == Build(Grow(stack, Document(t)), AllEvents(ts) + rest)
  {
    var after := AllEvents(ts) + rest;
    assert ([t] + ts)[1..] == ts;
    assert NoTextAhead(after) by {
      if ts != [] { SiblingsAhead(ts, rest); ElementAhead(ts[0], AllEvents(ts[1..]) + rest); }
      else { assert after == rest; }
    }
    ChunksAhead(t.chunks, after);
    assert (Events(t) + after)[0].Text?;
    hide AllEvents;
  }

  lemma {:induction false} BuildElement(stack: seq<Node>, t: Tree, after: seq<Event>)
    requires stack != [] && forall i | 0 <= i < |stack| :: stack[i].Branch?
    requires t.Element? && Normal(t.children)
    ensures Build(stack, Events(t) + after) == Build(Grow(stack, Document(t)), after)
    decreases t, 0
  {
    ElementAhead(t, after);
    var open := Branch(t.name, MapOf(t.attributes, map[]), []);
    var closing := [End(t.end)] + after;
    BuildSiblings(stack + [open], t.children, closing);
    GrowAllChildren(stack + [open], Documents(t.children));
    var full := GrowAll(stack + [open], Documents(t.children));
    hide GrowAll, AllEvents;
    assert open.children + Documents(t.children) == Documents(t.children);
    assert full == stack + [Document(t)];
    assert closing[1..] == after && full[..|full| - 1] == stack;
  }

  /** Building from the events of an element gives back its document, and stops just behind it. */
  lemma {:induction false} BuildRoundTrip(t: Tree, rest: seq<Event>)
    requires t.Element? && Normal(t.children)
    ensures Build([Branch(t.name, MapOf(t.attributes, map[]), [])], (Events(t) + rest)[1..]) == Some((Document(t), rest))
  {
    ElementAhead(t, rest);
    var open := Branch(t.name, MapOf(t.attributes, map[]), []);
    var closing := [End(t.end)] + rest;
    BuildSiblings([open], t.children, closing);
    GrowAllChildren([open], Documents(t.children));
    assert open.children + Documents(t.children) == Documents(t.children);
    assert GrowAll([open], Documents(t.children)) == [Document(t)];
    assert closing[1..] == rest;
  }

  // ---- the loop --------------------------------------------------------------

  /** The element that a start event opens. */
  function Opened(e: Event): Node
    requires e.Start?
  {
    Branch(e.name, MapOf(e.attributes, map[]), [])
  }

  /** What one event does, with the stack of open elements. */
  lemma {:induction false} BuildRound(stack: seq<Node>, view: seq<Event>)
    requires stack != [] && forall i | 0 <= i < |stack| :: stack[i].Branch?
    requires Build(stack, view).Some?
    ensures view != []
    ensures view[0].Start? ==> Build(stack, view) == Build(stack + [Opened(view[0])], view[1..])
    ensures view[0].End? ==> Build(stack, view) == if |stack| == 1 then Some((stack[0], view[1..]))
                                                   else Build(Grow(stack[..|stack| - 1], stack[|stack| - 1]), view[1..])
    ensures view[0].Text? ==> Build(stack, view) == Build(Grow(stack, Leaf(Texts(view))), DropTexts(view))
  {
    hide Grow, MapOf;
  }

  method BuildLoop(source: Source) returns (root: Node)
    requires source.Valid() && source.state == START && Strip(source.View()[1..], 1).Some?
    modifies source
    ensures source.Valid() && source.state != INIT
    ensures Some((root, source.View())) == Build([Opened(old(source.View())[0])], old(source.View())[1..])
  {
    hide Source.Valid, Source.View;
    source.HeadHolds();
    ghost var view := source.View();
    ghost var result := Build([Opened(view[0])], view[1..]);
    BuildFinishes([Opened(view[0])], view[1..]);
    hide Strip, MapOf, Build, Grow;
    var stack: seq<Node> := [];
    while true
      invariant source.Valid() && source.Head() && source.state != INIT
      invariant forall i | 0 <= i < |stack| :: stack[i].Branch?
      invariant if stack == [] then source.View() == view else Build(stack, source.View()) == result
      invariant result.Some?
      decreases |source.View()|
    {
      if stack != [] { BuildRound(stack, source.View()); }
      if source.state == START {
        var name := source.Name();
        var attributes := source.Attributes(map[]);
        assert stack == [] ==> stack + [Opened(view[0])] == [Opened(view[0])];
        stack := stack + [Branch(name.value, attributes.value, [])];
        var _ := source.Next();
      } else if source.state == END {
        var _ := source.Next();
        if |stack| == 1 { return stack[0]; }
        stack := Grow(stack[..|stack| - 1], stack[|stack| - 1]);
      } else {
        var data := source.TextAndNext();
        stack := Grow(stack, Leaf(data.value));
      }
      source.HeadHolds();
    }
  }

  /** `None` is the exception raised when the source does not stand on a start tag. */
  method Parse(source: Source) returns (root: Option<Node>)
    requires source.Valid()
    requires source.View() != [] && source.View()[0].Start? ==> Strip(source.View()[1..], 1).Some?
    modifies source
    ensures source.Valid() && source.state != INIT
    ensures root.None? <==> old(source.View()) == [] || !old(source.View())[0].Start?
    ensures root.None? ==> source.View() == old(source.View())
    ensures root.Some? ==> Some((root.value, source.View())) == Build([Opened(old(source.View())[0])], old(source.View())[1..])
  {
    hide Source.Valid, Source.View;
    if source.state == INIT { var _ := source.Next(); }
    source.HeadHolds();
    var name := source.Name();
    if name.None? { return None; }
    var r := BuildLoop(source);
    return Some(r);
  }

  /** Parsing what stands on an element yields its document and leaves the source just behind it. */
  method ParseElement(source: Source, ghost t: Tree, ghost rest: seq<Event>) returns (root: Option<Node>)
    requires source.Valid() && t.Element? && Normal(t.children) && source.View() == Events(t) + rest
    modifies source
    ensures source.Valid() && source.state != INIT
    ensures root == Some(Document(t)) && source.View() == rest
  {
    hide Source.Valid, Source.View;
    ElementAhead(t, rest);
    StripElement(t, rest);
    BuildRoundTrip(t, rest);
    root := Parse(source);
  }
}
