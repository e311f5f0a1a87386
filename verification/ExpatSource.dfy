/**
  The pull parser: callbacks buffer encoded events, `next` decodes one at a time.
  Expat is represented by the batches of events that successive reads of the
  input will produce; the last batch comes from the final, empty read.
 */
module ExpatSource {
  import opened Wrappers
  import opened XmlEvents

  datatype StateType = INIT | START | END | TEXT | EOD

  /** `x` is what `u` holds from `p` on, followed by `y`. */
  lemma {:induction false} SliceAt(u: string, p: nat, x: string, y: string)
    requires p <= |u| && u[p..] == x + y
    ensures p + |x| <= |u| && u[p..p + |x|] == x && u[p + |x|..] == y
  {
    assert u[p..][..|x|] == u[p..p + |x|] && u[p..][|x|..] == u[p + |x|..];
  }

  lemma {:induction false} FlatFirst(batches: seq<seq<Event>>)
    ensures Flat(batches) == if batches == [] then [] else batches[0] + Flat(batches[1..])
  {
  }

  function MapOf(attributes: seq<Attribute>, m: map<string, string>): map<string, string> {
    if attributes == [] then m
    else
      var a := attributes[0];
      MapOf(attributes[1..], if a.key in m then m else m[a.key := a.value])
  }

  /** The value of the first attribute of that name, or the empty string. */
  function ValueOf(attributes: seq<Attribute>, name: string): string {
    if attributes == [] then ""
    else if attributes[0].key == name then attributes[0].value
    else ValueOf(attributes[1..], name)
  }

  predicate HasAttribute(attributes: seq<Attribute>, name: string) {
    exists i :: 0 <= i < |attributes| && attributes[i].key == name
  }

  /** The first attribute of a name counts, and what was in the map before it stays. */
  lemma {:induction false} FirstAttributeCounts(attributes: seq<Attribute>, i: nat, m: map<string, string>)
    requires i < |attributes| && forall j | 0 <= j < i :: attributes[j].key != attributes[i].key
    ensures var name, value := attributes[i].key, attributes[i].value;
            && ValueOf(attributes, name) == value
            && name in MapOf(attributes, m)
            && MapOf(attributes, m)[name] == if name in m then m[name] else value
    decreases i
  {
    var a, tail := attributes[0], attributes[1..];
    if i == 0 {
      KeptInMap(tail, if a.key in m then m else m[a.key := a.value], a.key);
    } else {
      assert forall j | 0 <= j < i - 1 :: tail[j] == attributes[j + 1];
      FirstAttributeCounts(tail, i - 1, if a.key in m then m else m[a.key := a.value]);
    }
  }

  lemma {:induction false} KeptInMap(attributes: seq<Attribute>, m: map<string, string>, name: string)
    requires name in m
    ensures name in MapOf(attributes, m) && MapOf(attributes, m)[name] == m[name]
  {
    if attributes != [] {
      var a := attributes[0];
      KeptInMap(attributes[1..], if a.key in m then m else m[a.key := a.value], name);
    }
  }

  lemma {:induction false} AbsentAttribute(attributes: seq<Attribute>, name: string, m: map<string, string>)
    requires !HasAttribute(attributes, name)
    ensures ValueOf(attributes, name) == ""
    ensures name !in m ==> name !in MapOf(attributes, m)
  {
    if attributes != [] {
      var a := attributes[0];
      assert a.key != name;
      AbsentAttribute(attributes[1..], name, if a.key in m then m else m[a.key := a.value]);
    }
  }

  class Source {
    var upcoming: string
    var upcomingPos: nat
    var position: Position
    var elemStart: nat
    var elemLen: nat
    var attrStart: nat
    var state: StateType

    // Expat and the byte source behind it.
    var batches: seq<seq<Event>>
    var last: seq<Event>

    // The event that `next` has decoded last, the events in the buffer that it
    // has not, and whether the buffer ends with the end-of-stream mark.
    ghost var current: Option<Event>
    ghost var buffered: seq<Event>
    ghost var marked: bool

    ghost function Mark(): string
      reads this
    {
      if marked then [ENC_EOD] else []
    }

    ghost predicate BufferValid()
      reads this
    {
      && upcomingPos <= |upcoming|
      && upcoming[upcomingPos..] == EncodeAll(buffered) + Mark()
      && ValidEvents(buffered) && ValidEvents(last)
      && (forall i | 0 <= i < |batches| :: ValidEvents(batches[i]))
      && (marked || state == EOD ==> batches == [] && last == [])
      && (state == EOD ==> buffered == [] && !marked)
    }

    ghost predicate CurrentValid()
      reads this
      requires upcomingPos <= |upcoming|
    {
      match state
      case INIT => current == None && upcomingPos == |upcoming|
      case EOD => current == None
      case END => current.Some? && current.value.End? && position == current.value.pos
      case TEXT =>
        && current.Some? && current.value.Text? && position == current.value.pos
        && elemStart + elemLen <= |upcoming| && upcoming[elemStart..elemStart + elemLen] == current.value.text
      case START =>
        && current.Some? && current.value.Start? && position == current.value.pos
        && elemStart + elemLen <= |upcoming| && upcoming[elemStart..elemStart + elemLen] == current.value.name
        && ValidAttributes(current.value.attributes)
        && attrStart <= upcomingPos && upcoming[attrStart..upcomingPos] == EncodeAttributes(current.value.attributes)
    }

    ghost predicate Valid()
      reads this
    {
      BufferValid() && CurrentValid()
    }

    /** The events that `next` will still decode. */
    ghost function Pending(): seq<Event>
      reads this
    {
      buffered + Flat(batches) + last
    }

    /** The events from the current one on. */
    ghost function View(): seq<Event>
      reads this
    {
      (if current.Some? then [current.value] else []) + Pending()
    }

    constructor (batches: seq<seq<Event>>, last: seq<Event>)
      requires ValidEvents(last) && forall i | 0 <= i < |batches| :: ValidEvents(batches[i])
      ensures Valid() && state == INIT && View() == Flat(batches) + last
    {
      upcoming, upcomingPos, position := [], 0, Position(0, 0);
      elemStart, elemLen, attrStart, state := 0, 0, 0, INIT;
      this.batches, this.last := batches, last;
      current, buffered, marked := None, [], false;
    }

    /** One read of the input and one call of the parser, whose callbacks fill the buffer. */
    method ReadAndParse()
      requires BufferValid() && state != EOD && upcoming == [] && upcomingPos == 0
      modifies this`upcoming, this`batches, this`last, this`buffered, this`marked
      ensures BufferValid() && Pending() == old(Pending())
      ensures marked || |batches| < old(|batches|)
      ensures marked ==> upcoming != []
    {
      FlatFirst(batches);
      hide Encode, EncodeAll, ValidEvent, Flat;
      assert buffered == [] && !marked;
      if batches == [] {
        upcoming := EncodeAll(last) + [ENC_EOD];
        buffered, last, marked := last, [], true;
        assert upcoming[0..] == EncodeAll(buffered) + Mark();
        assert buffered + [] + last == buffered == [] + [] + buffered;
      } else {
        upcoming := EncodeAll(batches[0]);
        buffered, batches := batches[0], batches[1..];
        assert forall i | 0 <= i < |batches| :: batches[i] == old(batches)[i + 1];
        assert upcoming[0..] == EncodeAll(buffered) + Mark();
        assert [] + old(Flat(batches)) == buffered + Flat(batches);
      }
    }

    /** Reads and parses until something has been reported. */
    method Feed()
      requires BufferValid() && state != EOD && upcomingPos == |upcoming|
      modifies this`upcoming, this`upcomingPos, this`batches, this`last, this`buffered, this`marked
      ensures BufferValid() && upcomingPos < |upcoming|
      ensures Pending() == old(Pending())
    {
      hide Encode, EncodeAll, ValidEvent, Flat;
      assert upcoming[upcomingPos..] == [] && buffered == [] && !marked;
      upcoming, upcomingPos := [], 0;
      while true
        invariant BufferValid() && upcomingPos == 0 && upcoming == []
        invariant Pending() == old(Pending())
        decreases |batches|
      {
        ReadAndParse();
        if upcoming != [] { break; }
      }
    }

    /** Copies the position out of the buffer. */
    method PopPosition(ghost pos: Position, ghost rest: string)
      requires upcomingPos <= |upcoming| && upcoming[upcomingPos..] == EncodePosition(pos) + rest
      modifies this`position, this`upcomingPos
      ensures position == pos && upcomingPos <= |upcoming| && upcoming[upcomingPos..] == rest
    {
      SliceAt(upcoming, upcomingPos, EncodePosition(pos), rest);
      PositionRoundTrip(pos);
      position := DecodePosition(upcoming[upcomingPos..upcomingPos + POSITION_SIZE]);
      upcomingPos := upcomingPos + POSITION_SIZE;
    }

    /** Reads a NUL-terminated string at the cursor and moves behind it. */
    method PopString(ghost text: string, ghost rest: string) returns (start: nat, len: nat)
      requires upcomingPos <= |upcoming| && upcoming[upcomingPos..] == CString(text) + rest && NulFree(text)
      modifies this`upcomingPos
      ensures start == old(upcomingPos) && len == |text| && upcoming[start..start + len] == text
      ensures upcomingPos == start + len + 1 <= |upcoming| && upcoming[upcomingPos..] == rest
    {
      StrLenOfCString(text, rest);
      SliceAt(upcoming, upcomingPos, CString(text), rest);
      start, len := upcomingPos, StrLen(upcoming[upcomingPos..]);
      assert upcoming[start..start + len] == upcoming[start..start + len + 1][..len];
      upcomingPos := upcomingPos + len + 1;
    }

    /** Skips the attributes: each string is measured including what precedes it. */
    method SkipAttributes(ghost attributes: seq<Attribute>, ghost rest: string)
      requires upcomingPos <= |upcoming| && upcoming[upcomingPos..] == EncodeAttributes(attributes) + rest
      requires ValidAttributes(attributes) && (rest != [] ==> rest[0] != ENC_ATTRIBUTE)
      modifies this`upcomingPos
      ensures upcomingPos == old(upcomingPos) + |EncodeAttributes(attributes)| <= |upcoming|
      ensures upcoming[upcomingPos..] == rest
    {
      ghost var todo := attributes;
      while upcomingPos < |upcoming| && upcoming[upcomingPos] == ENC_ATTRIBUTE
        invariant upcomingPos <= |upcoming| && upcoming[upcomingPos..] == EncodeAttributes(todo) + rest
        invariant upcomingPos + |EncodeAttributes(todo)| == old(upcomingPos) + |EncodeAttributes(attributes)|
        invariant ValidAttributes(todo)
        decreases |todo|
      {
        AttributeAt(upcomingPos, todo, rest);
        FirstAttribute(todo, rest);
        hide EncodeAttributes, NulFree;
        ghost var a := todo[0];
        ghost var tail := EncodeAttributes(todo[1..]) + rest;
        assert upcoming[upcomingPos..] == CString([ENC_ATTRIBUTE] + a.key) + (CString(a.value) + tail);
        var _, _ := PopString([ENC_ATTRIBUTE] + a.key, CString(a.value) + tail);
        var _, _ := PopString(a.value, tail);
        todo := todo[1..];
      }
    }

    /** Advances to the next event; false at the end of the document. */
    method Next() returns (more: bool)
      requires Valid()
      modifies this
      ensures Valid() && state != INIT && (more <==> state != EOD)
      ensures View() == if old(state) == INIT then old(View())
                        else if old(View()) == [] then []
                        else old(View())[1..]
    {
      if state == EOD { return false; }
      hide EncodeAll, BufferValid, CurrentValid, Flat;
      ghost var view, pending := View(), Pending();
      assert pending == if current.Some? then view[1..] else view;
      more := Decode();
    }

    /** Feeds the buffer if necessary and decodes the event at the cursor. */
    method Decode() returns (more: bool)
      requires Valid() && state != EOD
      modifies this
      ensures Valid() && state != INIT && (more <==> state != EOD)
      ensures more <==> old(Pending()) != []
      ensures more ==> current == Some(old(Pending())[0]) && Pending() == old(Pending())[1..]
      ensures !more ==> current == None && Pending() == []
    {
      hide Encode, EncodeAll, EncodeAttributes;
      if upcomingPos >= |upcoming| { Feed(); }
      var tag := upcoming[upcomingPos];
      more := tag != ENC_EOD;
      if more { DecodeNext(tag); } else { DecodeMark(); }
    }

    method DecodeMark()
      requires BufferValid() && upcomingPos < |upcoming| && upcoming[upcomingPos] == ENC_EOD
      modifies this`upcomingPos, this`state, this`current, this`marked
      ensures Valid() && state == EOD && current == None && old(Pending()) == Pending() == []
    {
      AtMark();
      hide Encode, EncodeAll;
      upcomingPos := upcomingPos + 1;
      state, current, marked := EOD, None, false;
    }

    method DecodeNext(tag: char)
      requires BufferValid() && upcomingPos < |upcoming| && upcoming[upcomingPos] == tag != ENC_EOD
      modifies this
      ensures Valid() && state != INIT && state != EOD && old(Pending()) != []
      ensures current == Some(old(Pending())[0]) && Pending() == old(Pending())[1..]
    {
      hide Encode, EncodeAll, ValidEvent;
      ghost var e := AtEvent();
      ghost var rest := EncodeAll(buffered[1..]) + Mark();
      PendingParts(e);
      current, buffered := Some(e), buffered[1..];
      DecodeEvent(tag, rest);
    }

    lemma {:induction false} PendingParts(e: Event)
      requires buffered != [] && e == buffered[0]
      ensures Pending() == [e] + (buffered[1..] + Flat(batches) + last)
    {
      assert buffered == [e] + buffered[1..];
    }

    lemma {:induction false} AtMark()
      requires BufferValid() && upcomingPos < |upcoming| && upcoming[upcomingPos] == ENC_EOD
      ensures buffered == [] && marked && upcoming[upcomingPos + 1..] == [] && Pending() == []
    {
      assert upcoming[upcomingPos..][0] == ENC_EOD;
      if buffered != [] { EncodeParts(buffered[0], EncodeAll(buffered[1..])); }
      assert upcoming[upcomingPos..] == [ENC_EOD];
      assert upcoming[upcomingPos + 1..] == upcoming[upcomingPos..][1..];
    }

    lemma {:induction false} AtEvent() returns (e: Event)
      requires BufferValid() && upcomingPos < |upcoming| && upcoming[upcomingPos] != ENC_EOD
      ensures buffered != [] && e == buffered[0] && ValidEvent(e) && state != EOD
      ensures upcoming[upcomingPos..] == Encode(e) + (EncodeAll(buffered[1..]) + Mark())
      ensures ValidEvents(buffered[1..])
    {
      hide Encode, ValidEvent;
      assert upcoming[upcomingPos..][0] != ENC_EOD;
      assert buffered != [];
      e := buffered[0];
    }

    /** The decoder proper, on an event that is known to be in the buffer. */
    method DecodeEvent(tag: char, ghost rest: string)
      requires current.Some? && ValidEvent(current.value) && state != EOD
      requires upcomingPos < |upcoming| && upcoming[upcomingPos..] == Encode(current.value) + rest
      requires tag == upcoming[upcomingPos] && rest == EncodeAll(buffered) + Mark() && ValidEvents(buffered) && ValidEvents(last)
      requires (forall i | 0 <= i < |batches| :: ValidEvents(batches[i])) && (marked ==> batches == [] && last == [])
      modifies this`upcomingPos, this`position, this`elemStart, this`elemLen, this`attrStart, this`state
      ensures Valid() && state != INIT && state != EOD
    {
      hide Encode, EncodePosition, EncodeAttributes, EncodeAll, NulFree, ValidAttributes, CString;
      ghost var e := current.value;
      EncodeParts(e, rest);
      SliceAt(upcoming, upcomingPos, [TypeByte(e)], EncodePosition(e.pos) + Body(e, rest));
      assert tag == upcoming[upcomingPos..][0] == TypeByte(e);
      upcomingPos := upcomingPos + 1;
      PopPosition(e.pos, Body(e, rest));
      RestIsNoAttribute(rest);
      if tag == ENC_START { DecodeStart(rest); }
      else if tag == ENC_TEXT { DecodeText(rest); }
      else { state := END; }
    }

    method DecodeStart(ghost rest: string)
      requires current.Some? && current.value.Start? && ValidEvent(current.value) && position == current.value.pos
      requires upcomingPos <= |upcoming| && upcoming[upcomingPos..] == Body(current.value, rest)
      requires rest != [] ==> rest[0] != ENC_ATTRIBUTE
      modifies this`upcomingPos, this`elemStart, this`elemLen, this`attrStart, this`state
      ensures upcomingPos <= |upcoming| && upcoming[upcomingPos..] == rest
      ensures state == START && CurrentValid()
    {
      hide EncodeAttributes, NulFree;
      ghost var e := current.value;
      elemStart, elemLen := PopString(e.name, EncodeAttributes(e.attributes) + rest);
      attrStart := upcomingPos;
      SkipAttributes(e.attributes, rest);
      SliceAt(upcoming, attrStart, EncodeAttributes(e.attributes), rest);
      state := START;
    }

    method DecodeText(ghost rest: string)
      requires current.Some? && current.value.Text? && ValidEvent(current.value) && position == current.value.pos
      requires upcomingPos <= |upcoming| && upcoming[upcomingPos..] == Body(current.value, rest)
      modifies this`upcomingPos, this`elemStart, this`elemLen, this`state
      ensures upcomingPos <= |upcoming| && upcoming[upcomingPos..] == rest
      ensures state == TEXT && CurrentValid()
    {
      elemStart, elemLen := PopString(current.value.text, rest);
      state := TEXT;
    }

    lemma {:induction false} RestIsNoAttribute(rest: string)
      requires rest == EncodeAll(buffered) + Mark()
      ensures rest != [] ==> rest[0] != ENC_ATTRIBUTE
    {
      hide Encode;
    }

    // ---- accessors: wrong-state exceptions are None ----------------------------

    method Name() returns (r: Option<string>)
      requires Valid()
      ensures r == if state == START then Some(View()[0].name) else None
    {
      r := if state == START then Some(upcoming[elemStart..elemStart + elemLen]) else None;
    }

    method TextContents() returns (r: Option<string>)
      requires Valid()
      ensures r == if state == TEXT then Some(View()[0].text) else None
    {
      r := if state == TEXT then Some(upcoming[elemStart..elemStart + elemLen]) else None;
    }

    method StringAt(p: nat, ghost text: string, ghost rest: string) returns (s: string, next: nat)
      requires p <= |upcoming| && upcoming[p..] == CString(text) + rest && NulFree(text)
      ensures s == text && p < next <= |upcoming| && upcoming[next..] == rest
    {
      StrLenOfCString(text, rest);
      SliceAt(upcoming, p, CString(text), rest);
      var len := StrLen(upcoming[p..]);
      assert upcoming[p..p + len] == upcoming[p..p + len + 1][..len];
      s, next := upcoming[p..p + len], p + len + 1;
    }

    lemma {:induction false} FirstAttribute(todo: seq<Attribute>, rest: string)
      requires todo != []
      ensures EncodeAttributes(todo) + rest ==
                [ENC_ATTRIBUTE] + (CString(todo[0].key) + (CString(todo[0].value) + (EncodeAttributes(todo[1..]) + rest)))
    {
    }

    /** Decodes the attribute at `p`; the next one, if any, follows at `next`. */
    method ReadAttribute(p: nat, ghost todo: seq<Attribute>, ghost rest: string) returns (a: Attribute, next: nat)
      requires p <= |upcoming| && upcoming[p..] == EncodeAttributes(todo) + rest
      requires todo != [] && ValidAttributes(todo)
      ensures a == todo[0] && p < next <= |upcoming| && upcoming[next..] == EncodeAttributes(todo[1..]) + rest
    {
      hide EncodeAttributes, CString, NulFree;
      ghost var tail := EncodeAttributes(todo[1..]) + rest;
      ghost var afterKey := CString(todo[0].value) + tail;
      FirstAttribute(todo, rest);
      SliceAt(upcoming, p, [ENC_ATTRIBUTE], CString(todo[0].key) + afterKey);
      var key, valueStart := StringAt(p + 1, todo[0].key, afterKey);
      var value, end := StringAt(valueStart, todo[0].value, tail);
      a, next := Attribute(key, value), end;
    }

    lemma {:induction false} AttributesAhead() returns (rest: string)
      requires Valid() && state == START
      ensures upcoming[attrStart..] == EncodeAttributes(current.value.attributes) + rest
      ensures rest != [] ==> rest[0] != ENC_ATTRIBUTE
    {
      hide EncodeAll, EncodeAttributes, Encode, ValidEvents;
      rest := EncodeAll(buffered) + Mark();
      assert upcoming[attrStart..] == upcoming[attrStart..upcomingPos] + upcoming[upcomingPos..];
      RestIsNoAttribute(rest);
    }

    /** Whether an attribute stands at `p` is visible in the buffer. */
    lemma {:induction false} AttributeAt(p: nat, todo: seq<Attribute>, rest: string)
      requires p <= |upcoming| && upcoming[p..] == EncodeAttributes(todo) + rest
      requires rest != [] ==> rest[0] != ENC_ATTRIBUTE
      ensures p < |upcoming| && upcoming[p] == ENC_ATTRIBUTE <==> todo != []
    {
      if p < |upcoming| { assert upcoming[p] == upcoming[p..][0]; }
    }

    method AttributeValue(name: string) returns (r: Option<string>)
      requires Valid()
      ensures r == if state == START then Some(ValueOf(View()[0].attributes, name)) else None
    {
      if state != START { return None; }
      ghost var rest := AttributesAhead();
      ghost var todo := current.value.attributes;
      var p: nat := attrStart;
      AttributeAt(p, todo, rest);
      while p < |upcoming| && upcoming[p] == ENC_ATTRIBUTE
        invariant p <= |upcoming| && upcoming[p..] == EncodeAttributes(todo) + rest && ValidAttributes(todo)
        invariant ValueOf(todo, name) == ValueOf(current.value.attributes, name)
        invariant p < |upcoming| && upcoming[p] == ENC_ATTRIBUTE <==> todo != []
        decreases |todo|
      {
        var a, next := ReadAttribute(p, todo, rest);
        if a.key == name { return Some(a.value); }
        p, todo := next, todo[1..];
        AttributeAt(p, todo, rest);
      }
      return Some("");
    }

    /** Adds the attributes to the map; keys already there keep their values. */
    method Attributes(m: map<string, string>) returns (r: Option<map<string, string>>)
      requires Valid()
      ensures r == if state == START then Some(MapOf(View()[0].attributes, m)) else None
    {
      if state != START { return None; }
      ghost var rest := AttributesAhead();
      ghost var todo := current.value.attributes;
      var p: nat, result := attrStart, m;
      AttributeAt(p, todo, rest);
      while p < |upcoming| && upcoming[p] == ENC_ATTRIBUTE
        invariant p <= |upcoming| && upcoming[p..] == EncodeAttributes(todo) + rest && ValidAttributes(todo)
        invariant MapOf(todo, result) == MapOf(current.value.attributes, m)
        invariant p < |upcoming| && upcoming[p] == ENC_ATTRIBUTE <==> todo != []
        decreases |todo|
      {
        var a, next := ReadAttribute(p, todo, rest);
        if a.key !in result { result := result[a.key := a.value]; }
        p, todo := next, todo[1..];
        AttributeAt(p, todo, rest);
      }
      return Some(result);
    }

    // ---- moving over several events --------------------------------------------

    /** The state is the kind of the first event in view. */
    ghost predicate Head()
      reads this
    {
      && (state == START <==> state != INIT && View() != [] && View()[0].Start?)
      && (state == TEXT <==> state != INIT && View() != [] && View()[0].Text?)
      && (state == END <==> state != INIT && View() != [] && View()[0].End?)
      && (state == EOD ==> View() == [])
    }

    lemma {:induction false} HeadHolds()
      requires Valid()
      ensures Head()
    {
    }

    /** Consumes the run of text at the current position and returns its concatenation. */
    method TextAndNext() returns (r: Option<string>)
      requires Valid()
      modifies this
      ensures Valid() && (old(state) != INIT ==> state != INIT)
      ensures old(state) != TEXT ==> r == None && View() == old(View()) && state == old(state)
      ensures old(state) == TEXT ==> r == Some(Texts(old(View()))) && View() == DropTexts(old(View()))
    {
      hide Valid, View;
      HeadHolds();
      var text := TextContents();
      if text.None? { return None; }
      var result := text.value;
      var _ := Next();
      HeadHolds();
      while state == TEXT
        invariant Valid() && Head() && state != INIT
        invariant result + Texts(View()) == Texts(old(View())) && DropTexts(View()) == DropTexts(old(View()))
        decreases |View()|
      {
        text := TextContents();
        assert result + Texts(View()) == (result + View()[0].text) + Texts(View()[1..]);
        result := result + text.value;
        var _ := Next();
        HeadHolds();
      }
      assert result + Texts(View()) == result;
      return Some(result);
    }

    method SkipElement()
      requires Valid() && state == START && Strip(View()[1..], 1).Some?
      modifies this
      ensures Valid() && state != INIT && View() == Strip(old(View())[1..], 1).value
    {
      hide Valid, View;
      HeadHolds();
      var nested: nat := 1;
      var _ := Next();
      while nested > 0
        invariant Valid() && state != INIT
        invariant Strip(View(), nested) == Strip(old(View())[1..], 1)
        decreases |View()|
      {
        HeadHolds();
        match state {
          case START => nested := nested + 1;
          case END => nested := nested - 1;
          case TEXT =>
          case EOD => assert false;
        }
        var _ := Next();
      }
    }

    /** The source's assertions hold when the elements that are open in the view get closed. */
    method Skip()
      requires Valid() && (state != INIT ==> Skipped(View()).Some?)
      modifies this
      ensures Valid() && state != INIT
      ensures View() == if old(state) == INIT then old(View()) else Skipped(old(View())).value
    {
      hide Valid, View;
      HeadHolds();
      match state
      case INIT => var _ := Next();
      case START => SkipElement();
      case TEXT =>
        var _ := Next();
        while state == TEXT
          invariant Valid() && state != INIT && DropTexts(View()) == DropTexts(old(View()))
          decreases |View()|
        {
          HeadHolds();
          var _ := Next();
        }
        HeadHolds();
      case END => var _ := Next();
      case EOD =>
    }

    /** Past the end tag of the element that encloses the current position. */
    method Unnest()
      requires Valid() && state != INIT && (state != EOD ==> Strip(View(), 1).Some?)
      modifies this
      ensures Valid() && state != INIT
      ensures View() == if old(state) == EOD then [] else Strip(old(View()), 1).value
    {
      hide Valid, View;
      HeadHolds();
      if state == EOD { return; }
      UnnestedIsStrip(View());
      while state != END
        invariant Valid() && Head() && state != INIT
        invariant Unnested(View()) == Strip(old(View()), 1) && Unnested(View()).Some?
        decreases |View()|
      {
        Skip();
        HeadHolds();
      }
      var _ := Next();
    }
  }
}
