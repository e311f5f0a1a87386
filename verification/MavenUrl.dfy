/** Extraction of URLs from Maven project files, with a stack of the open tags. */
module MavenUrl {
  import opened Wrappers
  import opened XmlEvents
  import opened XmlTree
  import opened ExpatSource
  import opened StringSupport

  datatype Kind =
    | Other | Repository | PluginRepository | SnapshotRepository | DistributionManagement
    | Scm | DownloadUrl | Site | Connection | DeveloperConnection

  datatype Url = Url(url: string, kind: Kind)

  function Classify(tag: string): Kind {
    if tag == "repository" then Repository
    else if tag == "pluginRepository" then PluginRepository
    else if tag == "snapshotRepository" then SnapshotRepository
    else if tag == "distributionManagement" then DistributionManagement
    else if tag == "scm" then Scm
    else Other
  }

  /** The outermost open tag that says what kind of URL this is. */
  function FromContext(tags: seq<string>): Kind {
    if tags == [] then Other
    else if Classify(tags[0]) != Other then Classify(tags[0])
    else FromContext(tags[1..])
  }

  /** Whether an element's text is a URL, and of which kind, inside the open tags. */
  function KindOf(tag: string, tags: seq<string>): Option<Kind> {
    if tag == "downloadUrl" then Some(DownloadUrl)
    else if tag == "connection" then Some(Connection)
    else if tag == "developerConnection" then Some(DeveloperConnection)
    else if tag == "url" then
      if tags != [] && tags[|tags| - 1] == "site" then Some(Site) else Some(FromContext(tags))
    else None
  }

  // ---- meaning on trees --------------------------------------------------------

  /** The URLs of siblings inside the open tags, in document order. */
  function Urls(ts: seq<Tree>, tags: seq<string>): seq<Url>
    decreases ts, 1
  {
    if ts == [] then [] else TreeUrls(ts[0], tags) + Urls(ts[1..], tags)
  }

  function TreeUrls(t: Tree, tags: seq<string>): seq<Url>
    decreases t, 0
  {
    match t
    case Characters(_) => []
    case Element(_, name, _, children, _) =>
      var kind := KindOf(name, tags);
      if kind.None? then Urls(children, tags + [name])
      else if children != [] && children[0].Characters? then [Url(Trim(ChunkText(children[0].chunks)), kind.value)]
      else []
  }

  // ---- a URL by itself ------------------------------------------------------------

  const CONTEXTS := {"repository", "pluginRepository", "snapshotRepository", "distributionManagement", "scm"}

  /** Elements whose text is a URL; nothing is looked for inside them. */
  const URL_TAGS := {"downloadUrl", "connection", "developerConnection", "url"}

  /** What a URL is for: its own tag says so, or the innermost tag if that is a site, or the outermost that is a context. */
  ghost predicate Means(tag: string, tags: seq<string>, kind: Kind) {
    && (tag == "downloadUrl" ==> kind == DownloadUrl)
    && (tag == "connection" ==> kind == Connection)
    && (tag == "developerConnection" ==> kind == DeveloperConnection)
    && (tag == "url" && tags != [] && tags[|tags| - 1] == "site" ==> kind == Site)
    && (tag == "url" && (tags == [] || tags[|tags| - 1] != "site") ==>
          && ((forall i | 0 <= i < |tags| :: tags[i] !in CONTEXTS) ==> kind == Other)
          && (forall i | 0 <= i < |tags| && tags[i] in CONTEXTS && (forall j | 0 <= j < i :: tags[j] !in CONTEXTS) ::
                && (tags[i] == "repository" ==> kind == Repository)
                && (tags[i] == "pluginRepository" ==> kind == PluginRepository)
                && (tags[i] == "snapshotRepository" ==> kind == SnapshotRepository)
                && (tags[i] == "distributionManagement" ==> kind == DistributionManagement)
                && (tags[i] == "scm" ==> kind == Scm)))
  }

  lemma {:induction false} ContextIsOutermost(tags: seq<string>, i: nat)
    requires i <= |tags| && forall j | 0 <= j < i :: tags[j] !in CONTEXTS
    ensures FromContext(tags) == if i == |tags| then Other else if tags[i] in CONTEXTS then Classify(tags[i]) else FromContext(tags)
    decreases i
  {
    if i > 0 {
      assert tags[0] !in CONTEXTS;
      ContextIsOutermost(tags[1..], i - 1);
    }
  }

  lemma {:induction false} KindMeans(tag: string, tags: seq<string>)
    ensures KindOf(tag, tags).Some? <==> tag in URL_TAGS
    ensures KindOf(tag, tags).Some? ==> Means(tag, tags, KindOf(tag, tags).value)
  {
    var i := FirstContext(tags);
    ContextIsOutermost(tags, i);
    hide FromContext;
    assert forall k | 0 <= k < |tags| && tags[k] in CONTEXTS && (forall j | 0 <= j < k :: tags[j] !in CONTEXTS) :: k == i;
  }

  lemma {:induction false} FirstContext(tags: seq<string>) returns (i: nat)
    ensures i <= |tags| && (i < |tags| ==> tags[i] in CONTEXTS) && forall j | 0 <= j < i :: tags[j] !in CONTEXTS
  {
    i := 0;
    while i < |tags| && tags[i] !in CONTEXTS
      invariant i <= |tags| && forall j | 0 <= j < i :: tags[j] !in CONTEXTS
    {
      i := i + 1;
    }
  }

  /** A tree inside elements of these names. */
  function Nested(path: seq<string>, t: Tree): Tree
    decreases |path|
  {
    if path == [] then t else Element(Position(0, 0), path[0], [], [Nested(path[1..], t)], Position(0, 0))
  }

  lemma {:induction false} NestedUrls(path: seq<string>, t: Tree, tags: seq<string>)
    requires forall i | 0 <= i < |path| :: path[i] !in URL_TAGS
    ensures TreeUrls(Nested(path, t), tags) == TreeUrls(t, tags + path)
    decreases |path|
  {
    if path == [] {
      assert tags + path == tags;
    } else {
      KindMeans(path[0], tags);
      NestedUrls(path[1..], t, tags + [path[0]]);
      assert tags + [path[0]] + path[1..] == tags + path;
      SingleUrls(Nested(path[1..], t), tags + [path[0]]);
      hide KindOf;
    }
  }

  lemma {:induction false} SingleUrls(t: Tree, tags: seq<string>)
    ensures Urls([t], tags) == TreeUrls(t, tags)
  {
    assert Urls([t][1..], tags) == [];
    assert TreeUrls(t, tags) + [] == TreeUrls(t, tags);
  }

  /** An element with text, at any depth: a URL of the kind that its surroundings mean, or nothing. */
  lemma {:induction false} NestedUrl(path: seq<string>, t: Tree, tags: seq<string>, chunks: seq<Chunk>)
    requires forall i | 0 <= i < |path| :: path[i] !in URL_TAGS
    requires t.Element? && t.children != [] && t.children[0] == Characters(chunks) && t.name in URL_TAGS
    ensures exists kind :: Means(t.name, tags + path, kind) && TreeUrls(Nested(path, t), tags) == [Url(Trim(ChunkText(chunks)), kind)]
  {
    NestedUrls(path, t, tags);
    KindMeans(t.name, tags + path);
  }

  /** The URLs of siblings follow each other. */
  lemma {:induction false} UrlsAppend(a: seq<Tree>, b: seq<Tree>, tags: seq<string>)
    ensures Urls(a + b, tags) == Urls(a, tags) + Urls(b, tags)
    decreases |a|
  {
    hide TreeUrls;
    if a == [] {
      assert a + b == b;
    } else {
      assert (a + b)[1..] == a[1..] + b;
      UrlsAppend(a[1..], b, tags);
    }
  }

  // ---- the walk over the event stream ------------------------------------------

  /** `extract_text_contents`: the URL, if the element begins with text. */
  function Extracted(view: seq<Event>, kind: Kind): seq<Url> {
    if view != [] && view[0].Text? then [Url(Trim(Texts(view)), kind)] else []
  }

  /** The main loop; none if one of its assertions fails or the stream is unbalanced. */
  function Walk(tags: seq<string>, view: seq<Event>): Option<seq<Url>>
    decreases |view|
  {
    if view == [] then if tags == [] then Some([]) else None
    else match view[0]
      case Text(_, _) => Walk(tags, view[1..])
      case End(_) => if tags == [] then None else Walk(tags[..|tags| - 1], view[1..])
      case Start(_, name, _) =>
        var kind := KindOf(name, tags);
        if kind.None? then Walk(tags + [name], view[1..])
        else
          var after := Strip(view[1..], 1);
          if after.None? then None else Prepended(Extracted(view[1..], kind.value), Walk(tags, after.value))
  }

  function Prepended(urls: seq<Url>, rest: Option<seq<Url>>): Option<seq<Url>> {
    if rest.None? then None else Some(urls + rest.value)
  }

  lemma {:induction false} WalkOverChunks(tags: seq<string>, chunks: seq<Chunk>, rest: seq<Event>)
    ensures Walk(tags, ChunkEvents(chunks) + rest) == Walk(tags, rest)
  {
    if chunks == [] {
      assert ChunkEvents(chunks) + rest == rest;
    } else {
      assert (ChunkEvents(chunks) + rest)[1..] == ChunkEvents(chunks[1..]) + rest;
      WalkOverChunks(tags, chunks[1..], rest);
    }
  }

  /** Walking over siblings yields their URLs and leaves the stack as it was. */
  lemma {:induction false} WalkOverSiblings(tags: seq<string>, ts: seq<Tree>, rest: seq<Event>)
    requires Normal(ts)
    ensures Walk(tags, AllEvents(ts) + rest) == Prepended(Urls(ts, tags), Walk(tags, rest))
    decreases ts, 1
  {
    hide KindOf, Extracted, Events, TreeUrls;
    if ts == [] {
      assert AllEvents(ts) + rest == rest;
      if Walk(tags, rest).Some? { assert [] + Walk(tags, rest).value == Walk(tags, rest).value; }
    } else {
      var after := AllEvents(ts[1..]) + rest;
      SiblingsAhead(ts, rest);
      WalkOverTree(tags, ts[0], after);
      WalkOverSiblings(tags, ts[1..], rest);
      if Walk(tags, rest).Some? {
        var u := Walk(tags, rest).value;
        assert TreeUrls(ts[0], tags) + (Urls(ts[1..], tags) + u) == Urls(ts, tags) + u;
      }
    }
  }

  lemma {:induction false} WalkOverTree(tags: seq<string>, t: Tree, after: seq<Event>)
    requires t.Element? ==> Normal(t.children)
    ensures Walk(tags, Events(t) + after) == Prepended(TreeUrls(t, tags), Walk(tags, after))
    decreases t, 0
  {
    match t
    case Characters(chunks) =>
      WalkOverChunks(tags, chunks, after);
      if Walk(tags, after).Some? { assert [] + Walk(tags, after).value == Walk(tags, after).value; }
    case Element(_, name, _, children, end) =>
      ElementAhead(t, after);
      var closing := [End(end)] + after;
      if KindOf(name, tags).None? {
        WalkOverSiblings(tags + [name], children, closing);
        assert closing[1..] == after && (tags + [name])[..|tags|] == tags;
      } else {
        StripContent(children, end, after);
        SiblingInFront(children, closing);
      }
  }

  /** The stack holds one placeholder for the root, so the walk ends with it empty. */
  lemma {:induction false} WalkOverRoot(t: Tree, tag: string)
    requires t.Element? && Normal(t.children)
    ensures Walk([tag], (Events(t) + [])[1..]) == Some(Urls(t.children, [tag]))
  {
    ElementAhead(t, []);
    var closing := [End(t.end)] + [];
    WalkOverSiblings([tag], t.children, closing);
    assert closing[1..] == [] && [tag][..0] == [];
    assert Walk([], []) == Some([]);
    assert Urls(t.children, [tag]) + [] == Urls(t.children, [tag]);
  }

  // ---- the loop ----------------------------------------------------------------

  /** Stands on an element; adds its text, if it begins with text, and leaves the element. */
  method ExtractTextContents(source: Source, kind: Kind, result: seq<Url>) returns (r: seq<Url>)
    requires source.Valid() && source.state == START && Strip(source.View()[1..], 1).Some?
    modifies source
    ensures source.Valid() && source.state != INIT
    ensures r == result + Extracted(old(source.View())[1..], kind)
    ensures source.View() == Strip(old(source.View())[1..], 1).value
  {
    hide Source.Valid, Source.View;
    source.HeadHolds();
    r := result;
    var _ := source.Next();
    source.HeadHolds();
    StripDropsTexts(source.View(), 1);
    if source.state == TEXT {
      var text := source.TextAndNext();
      source.HeadHolds();
      r := r + [Url(Trim(text.value), kind)];
    }
    source.Unnest();
  }

  method ClassifyTag(tag: string, tags: seq<string>) returns (kind: Option<Kind>)
    ensures kind == KindOf(tag, tags)
  {
    if tag == "downloadUrl" { return Some(DownloadUrl); }
    if tag == "connection" { return Some(Connection); }
    if tag == "developerConnection" { return Some(DeveloperConnection); }
    if tag != "url" { return None; }
    if tags != [] && tags[|tags| - 1] == "site" { return Some(Site); }
    hide Classify;
    var p := 0;
    while p < |tags|
      invariant p <= |tags| && FromContext(tags[p..]) == FromContext(tags)
    {
      if Classify(tags[p]) != Other { return Some(Classify(tags[p])); }
      assert tags[p..][1..] == tags[p + 1..];
      p := p + 1;
    }
    return Some(Other);
  }

  /** One event of the walk, for the loop. */
  lemma {:induction false} WalkNext(tags: seq<string>, view: seq<Event>)
    requires Walk(tags, view).Some?
    ensures view == [] ==> tags == [] && Walk(tags, view) == Some([])
    ensures view != [] && view[0].Text? ==> Walk(tags, view[1..]) == Walk(tags, view)
    ensures view != [] && view[0].End? ==> tags != [] && Walk(tags[..|tags| - 1], view[1..]) == Walk(tags, view)
    ensures view != [] && view[0].Start? && KindOf(view[0].name, tags).None? ==>
              Walk(tags + [view[0].name], view[1..]) == Walk(tags, view)
    ensures view != [] && view[0].Start? && KindOf(view[0].name, tags).Some? ==>
              && Strip(view[1..], 1).Some?
              && Walk(tags, Strip(view[1..], 1).value).Some?
              && Walk(tags, view).value
                 == Extracted(view[1..], KindOf(view[0].name, tags).value) + Walk(tags, Strip(view[1..], 1).value).value
  {
    hide KindOf, Strip, Extracted;
  }

  /** The loop of `extract`, inside the root element. */
  method WalkLoop(source: Source, result: seq<Url>) returns (r: seq<Url>)
    requires source.Valid() && source.state != INIT && Walk([""], source.View()).Some? && source.View() != []
    modifies source
    ensures source.Valid() && source.state == EOD
    ensures r == result + Walk([""], old(source.View())).value
  {
    hide Source.Valid, Source.View, KindOf, Walk, Strip, Extracted;
    r := result;
    ghost var todo := Walk([""], source.View()).value;
    ghost var all := result + todo;
    var tags := [""];
    source.HeadHolds();
    while true
      invariant source.Valid() && source.Head() && source.state != INIT
      invariant Walk(tags, source.View()) == Some(todo) && r + todo == all
      decreases |source.View()|
    {
      WalkNext(tags, source.View());
      if source.state == START {
        var name := source.Name();
        var kind := ClassifyTag(name.value, tags);
        if kind.Some? {
          ghost var found := Extracted(source.View()[1..], kind.value);
          ghost var before := r;
          r := ExtractTextContents(source, kind.value, r);
          todo := Walk(tags, source.View()).value;
          assert before + (found + todo) == r + todo;
          source.HeadHolds();
          continue;
        }
        tags := tags + [name.value];
      } else if source.state == END {
        assert tags != [];
        tags := tags[..|tags| - 1];
      }
      var more := source.Next();
      source.HeadHolds();
      if !more { break; }
    }
    WalkNext(tags, source.View());
    assert tags == [];
    assert r + [] == r;
  }

  /** Adds the URLs of a project file; any other document adds nothing. */
  method Extract(source: Source, ghost t: Tree, result: seq<Url>) returns (r: seq<Url>)
    requires source.Valid() && source.state == INIT && t.Element? && Normal(t.children) && source.View() == Events(t)
    modifies source
    ensures source.Valid()
    ensures r == if t.name == "project" then result + Urls(t.children, [""]) else result
  {
    hide Source.Valid, Source.View;
    assert Events(t) + [] == Events(t);
    ElementAhead(t, []);
    WalkOverRoot(t, "");
    var more := source.Next();
    source.HeadHolds();
    if !more { return result; }
    var name := source.Name();
    if name != Some("project") { return result; }
    var _ := source.Next();
    r := WalkLoop(source, result);
  }
}
