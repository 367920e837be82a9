/** The normalised XML tree: its event writer, its stack-driven reader, and what survives the trip. */
module Xml {
  import opened Json

  datatype Element = Element(tag: string, id: Option<string>, attributes: map<string, string>, children: seq<Content>)

  datatype Content = Child(element: Element) | Text(text: string) | Cdata(cdata: string) | Comment(comment: string)

  // What stands in the document: text, attribute values and comments as written, escapes included.
  datatype Event =
    | Start(tag: string, attributes: seq<(string, string)>)
    | Empty(tag: string, attributes: seq<(string, string)>)
    | End(tag: string)
    | Run(raw: string)
    | Section(cdata: string)
    | Remark(raw: string)
    | Prolog

  datatype Fault =
    | BadEscape
    | DuplicateAttribute(key: string)
    | MismatchedEnd(tag: string)
    | TextOutsideRoot
    | SecondRoot
    | Unclosed
    | NoRoot
    | Invalid

  // ---------------------------------------------------------------- escaping

  function EscapeChar(c: char): string {
    match c
    case '<' => "&lt;"
    case '>' => "&gt;"
    case '&' => "&amp;"
    case '\'' => "&apos;"
    case '"' => "&quot;"
    case _ => [c]
  }

  function Escape(s: string): string {
    if s == "" then "" else EscapeChar(s[0]) + Escape(s[1..])
  }

  // Named references only; None for anything else after an ampersand.
  function Unescape(s: string): Option<string>
    decreases |s|
  {
    if s == "" then Some("")
    else if s[0] != '&' then Prefix(s[0], Unescape(s[1..]))
    else if "&lt;" <= s then Prefix('<', Unescape(s[4..]))
    else if "&gt;" <= s then Prefix('>', Unescape(s[4..]))
    else if "&amp;" <= s then Prefix('&', Unescape(s[5..]))
    else if "&apos;" <= s then Prefix('\'', Unescape(s[6..]))
    else if "&quot;" <= s then Prefix('"', Unescape(s[6..]))
    else None
  }

  function Prefix(c: char, rest: Option<string>): Option<string> {
    match rest
    case None => None
    case Some(s) => Some([c] + s)
  }

  lemma UnescapeChar(c: char, rest: string)
    ensures Unescape(EscapeChar(c) + rest) == Prefix(c, Unescape(rest))
  {
    var s := EscapeChar(c) + rest;
    assert s[|EscapeChar(c)|..] == rest;
    assert s[..|EscapeChar(c)|] == EscapeChar(c);
    if c in {'<', '>', '&', '\'', '"'} {
      assert s[1] == EscapeChar(c)[1] && s[2] == EscapeChar(c)[2];
    }
  }

  lemma {:induction false} EscapeRoundTrip(s: string)
    ensures Unescape(Escape(s)) == Some(s)
  {
    if s != "" {
      EscapeRoundTrip(s[1..]);
      UnescapeChar(s[0], Escape(s[1..]));
      assert s == [s[0]] + s[1..];
    }
  }

  lemma {:induction false} EscapeAppend(s: string, t: string)
    ensures Escape(s + t) == Escape(s) + Escape(t)
  {
    if s == "" {
      assert s + t == t;
    } else {
      assert (s + t)[1..] == s[1..] + t;
      EscapeAppend(s[1..], t);
    }
  }

  predicate Plain(s: string) {
    forall c :: c in s ==> c !in {'<', '>', '&', '\'', '"'}
  }

  lemma {:induction false} EscapeGrows(s: string)
    ensures |Escape(s)| >= |s|
    ensures Escape(s) == s <==> Plain(s)
    ensures |Escape(s)| == |s| ==> Plain(s)
  {
    if s != "" {
      EscapeGrows(s[1..]);
      assert s == [s[0]] + s[1..];
      assert s[0] in s && forall c :: c in s <==> c == s[0] || c in s[1..];
      assert Plain(s) <==> s[0] !in {'<', '>', '&', '\'', '"'} && Plain(s[1..]);
      assert |Escape(s)| == |EscapeChar(s[0])| + |Escape(s[1..])|;
    }
  }

  // --------------------------------------------------------------- attributes

  predicate IsIdName(key: string) {
    key in {"ID", "Id", "iD", "id"}
  }

  /** The merge identity: the first attribute, in key order, spelled "id" in any case. */
  function Identity(attributes: map<string, string>): Option<string> {
    if "ID" in attributes then Some(attributes["ID"])
    else if "Id" in attributes then Some(attributes["Id"])
    else if "iD" in attributes then Some(attributes["iD"])
    else if "id" in attributes then Some(attributes["id"])
    else None
  }

  lemma IdentityIsFirst(attributes: map<string, string>)
    ensures Identity(attributes).None? <==> forall key :: key in attributes ==> !IsIdName(key)
    ensures Identity(attributes).Some? ==>
      exists key :: key in attributes && IsIdName(key) && Identity(attributes) == Some(attributes[key]) &&
        forall other :: other in attributes && IsIdName(other) && other != key ==> Before(key, other)
  {
    assert Before("ID", "Id") && Before("ID", "iD") && Before("ID", "id");
    assert Before("Id", "iD") && Before("Id", "id") && Before("iD", "id");
    if Identity(attributes).Some? {
      var key := if "ID" in attributes then "ID" else if "Id" in attributes then "Id"
                 else if "iD" in attributes then "iD" else "id";
      assert key in attributes && IsIdName(key) && Identity(attributes) == Some(attributes[key]);
    }
  }

  ghost function WrittenPairs(attributes: map<string, string>, keys: seq<string>): seq<(string, string)>
    requires forall key :: key in keys ==> key in attributes
  {
    seq(|keys|, i requires 0 <= i < |keys| => (keys[i], Escape(attributes[keys[i]])))
  }

  ghost function Written(attributes: map<string, string>): seq<(string, string)> {
    SortedKeys(attributes);
    WrittenPairs(attributes, Sorted(attributes.Keys))
  }

  lemma SortedKeys(attributes: map<string, string>)
    ensures forall key :: key in Sorted(attributes.Keys) <==> key in attributes
    ensures forall i, j :: 0 <= i < j < |Sorted(attributes.Keys)| ==>
      Sorted(attributes.Keys)[i] != Sorted(attributes.Keys)[j]
  {
    var keys := Sorted(attributes.Keys);
    assert forall key :: key in keys <==> key in Elements(keys);
    forall i, j | 0 <= i < j < |keys| ensures keys[i] != keys[j] {
      BeforeTotal(keys[i], keys[j]);
    }
  }

  /** The attribute loop of an opening tag. */
  function ReadPairs(pairs: seq<(string, string)>, before: map<string, string>): Result<map<string, string>, Fault> {
    if pairs == [] then Ok(before)
    else
      var (key, raw) := pairs[0];
      match Unescape(raw)
      case None => Err(BadEscape)
      case Some(value) =>
        if key in before then Err(DuplicateAttribute(key)) else ReadPairs(pairs[1..], before[key := value])
  }

  lemma {:induction false} PairsRoundTrip(
    attributes: map<string, string>, keys: seq<string>, before: map<string, string>)
    requires forall key :: key in keys ==> key in attributes && key !in before
    requires forall i, j :: 0 <= i < j < |keys| ==> keys[i] != keys[j]
    requires forall key :: key in before ==> key in attributes && before[key] == attributes[key]
    requires before.Keys + Elements(keys) == attributes.Keys
    ensures ReadPairs(WrittenPairs(attributes, keys), before) == Ok(attributes)
    decreases |keys|
  {
    var pairs := WrittenPairs(attributes, keys);
    if keys == [] {
      assert before == attributes;
    } else {
      var value := attributes[keys[0]];
      EscapeRoundTrip(value);
      assert pairs == [(keys[0], Escape(value))] + WrittenPairs(attributes, keys[1..]);
      assert pairs[1..] == WrittenPairs(attributes, keys[1..]);
      assert Elements(keys) == {keys[0]} + Elements(keys[1..]) by {
        assert keys == [keys[0]] + keys[1..];
      }
      var next := before[keys[0] := value];
      assert next.Keys == before.Keys + {keys[0]};
      PairsRoundTrip(attributes, keys[1..], next);
    }
  }

  lemma AttributesRoundTrip(attributes: map<string, string>)
    ensures ReadPairs(Written(attributes), map[]) == Ok(attributes)
  {
    SortedKeys(attributes);
    PairsRoundTrip(attributes, Sorted(attributes.Keys), map[]);
  }

  // ----------------------------------------------------------------- writing

  predicate SplitAt(s: string, i: nat) {
    2 <= i < |s| && s[i] == '>' && s[i - 1] == ']' && s[i - 2] == ']'
  }

  function FirstSplit(s: string, i: nat): Option<nat>
    requires i <= |s|
    ensures FirstSplit(s, i).Some? ==> i <= FirstSplit(s, i).value && SplitAt(s, FirstSplit(s, i).value)
    ensures FirstSplit(s, i).None? <==> forall j: nat :: i <= j ==> !SplitAt(s, j)
    decreases |s| - i
  {
    if i == |s| then None else if SplitAt(s, i) then Some(i) else FirstSplit(s, i + 1)
  }

  /** Sections for character data: a new one starts before every '>' that would end the last. */
  function Sections(s: string): seq<string>
    decreases |s|
  {
    match FirstSplit(s, 0)
    case None => [s]
    case Some(i) => [s[..i]] + Sections(s[i..])
  }

  /** `XmlElement::write`, as the events it writes. */
  ghost function Write(e: Element): seq<Event>
    decreases e, 1
  {
    if e.children == [] then [Empty(e.tag, Written(e.attributes))]
    else [Start(e.tag, Written(e.attributes))] + WriteAll(e, e.children) + [End(e.tag)]
  }

  ghost function WriteAll(e: Element, children: seq<Content>): seq<Event>
    requires forall child :: child in children ==> child in e.children
    decreases e, 0, |children|
  {
    if children == [] then []
    else
      assert children[0] in e.children;
      WriteContent(children[0]) + WriteAll(e, children[1..])
  }

  ghost function WriteContent(content: Content): seq<Event>
    decreases content
  {
    match content
    case Child(element) => Write(element)
    case Text(text) => [Run(Escape(text))]
    case Cdata(cdata) => SectionEvents(Sections(cdata))
    case Comment(comment) => [Remark(Escape(comment))]
  }

  function SectionEvents(sections: seq<string>): seq<Event> {
    if sections == [] then [] else [Section(sections[0])] + SectionEvents(sections[1..])
  }

  // ----------------------------------------------------------------- reading

  /** What a reader sees: neighbouring runs of text are one, and empty runs are nothing. */
  function Tokens(events: seq<Event>, pending: string): seq<Event> {
    if events == [] then Flushed(pending)
    else if events[0].Run? then Tokens(events[1..], pending + events[0].raw)
    else Flushed(pending) + [events[0]] + Tokens(events[1..], "")
  }

  function Flushed(pending: string): seq<Event> {
    if pending == "" then [] else [Run(pending)]
  }

  // `str::trim` leaves nothing; `space` decides which characters are white space.
  predicate Blank(s: string, space: char -> bool) {
    forall c :: c in s ==> space(c)
  }

  datatype Reader = Reader(stack: seq<Element>, root: Option<Element>)

  function Opened(tag: string, pairs: seq<(string, string)>): Result<Element, Fault> {
    match ReadPairs(pairs, map[])
    case Err(fault) => Err(fault)
    case Ok(attributes) => Ok(Element(tag, Identity(attributes), attributes, []))
  }

  function AppendElement(reader: Reader, element: Element): Result<Reader, Fault> {
    if reader.stack != [] then AppendContent(reader, Child(element))
    else if reader.root.Some? then Err(SecondRoot)
    else Ok(reader.(root := Some(element)))
  }

  function AppendContent(reader: Reader, content: Content): Result<Reader, Fault> {
    if reader.stack == [] then Err(TextOutsideRoot)
    else
      var top := |reader.stack| - 1;
      var parent := reader.stack[top];
      Ok(reader.(stack := reader.stack[top := parent.(children := parent.children + [content])]))
  }

  /** One event of the loop; the reader itself refuses an end tag that does not match. */
  function Step(reader: Reader, event: Event, space: char -> bool): Result<Reader, Fault> {
    match event
    case Start(tag, pairs) =>
      (match Opened(tag, pairs)
       case Err(fault) => Err(fault)
       case Ok(element) => Ok(reader.(stack := reader.stack + [element])))
    case Empty(tag, pairs) =>
      (match Opened(tag, pairs)
       case Err(fault) => Err(fault)
       case Ok(element) => AppendElement(reader, element))
    case End(tag) =>
      if reader.stack == [] || reader.stack[|reader.stack| - 1].tag != tag then Err(MismatchedEnd(tag))
      else
        var top := |reader.stack| - 1;
        AppendElement(reader.(stack := reader.stack[..top]), reader.stack[top])
    case Run(raw) =>
      (match Unescape(raw)
       case None => Err(BadEscape)
       case Some(text) => if Blank(text, space) then Ok(reader) else AppendContent(reader, Text(text)))
    case Section(cdata) => AppendContent(reader, Cdata(cdata))
    case Remark(raw) => if reader.stack == [] then Ok(reader) else AppendContent(reader, Comment(raw))
    case Prolog => Ok(reader)
  }

  function Steps(reader: Reader, events: seq<Event>, space: char -> bool): Result<Reader, Fault>
    decreases |events|
  {
    if events == [] then Ok(reader)
    else
      match Step(reader, events[0], space)
      case Err(fault) => Err(fault)
      case Ok(next) => Steps(next, events[1..], space)
  }

  function Close(reader: Reader): Result<Element, Fault> {
    if reader.stack != [] then Err(Unclosed)
    else
      match reader.root
      case None => Err(NoRoot)
      case Some(root) => Ok(root)
  }

  /** `XmlElement::validate`; `named` decides which names are XML names. */
  predicate Valid(e: Element, named: string -> bool)
    decreases e
  {
    && named(e.tag) && (forall key :: key in e.attributes ==> named(key))
    && (e.id.Some? ==> e.id == Identity(e.attributes))
    && forall child :: child in e.children && child.Child? ==> Valid(child.element, named)
  }

  /** Parsing a document: every event in turn, then the checks at its end. */
  function Parsed(events: seq<Event>, space: char -> bool, named: string -> bool): Result<Element, Fault> {
    match Steps(Reader([], None), events, space)
    case Err(fault) => Err(fault)
    case Ok(reader) =>
      match Close(reader)
      case Err(fault) => Err(fault)
      case Ok(root) => if Valid(root, named) then Ok(root) else Err(Invalid)
  }

  method Parse(events: seq<Event>, space: char -> bool, named: string -> bool) returns (result: Result<Element, Fault>)
    ensures result == Parsed(events, space, named)
  {
    var stack: seq<Element> := [];
    var root: Option<Element> := None;
    var i := 0;
    assert events[0..] == events;
    while i < |events|
      invariant 0 <= i <= |events|
      invariant Steps(Reader(stack, root), events[i..], space) == Steps(Reader([], None), events, space)
    {
      assert events[i..][0] == events[i] && events[i..][1..] == events[i + 1..];
      var next := Step(Reader(stack, root), events[i], space);
      if next.Err? {
        return Err(next.error);
      }
      stack, root := next.value.stack, next.value.root;
      i := i + 1;
    }
    result := Close(Reader(stack, root));
    if result.Ok? && !Valid(result.value, named) {
      return Err(Invalid);
    }
  }

  // ---------------------------------------------------- what the trip yields

  /** The tree a reader builds from what `Write` wrote. */
  function Rebuilt(e: Element, space: char -> bool): Element
    decreases e, 1
  {
    Element(e.tag, Identity(e.attributes), e.attributes, RebuiltAll(e, e.children, "", space))
  }

  function TextOf(text: string, space: char -> bool): seq<Content> {
    if Blank(text, space) then [] else [Text(text)]
  }

  function CdataOf(sections: seq<string>): seq<Content> {
    seq(|sections|, i requires 0 <= i < |sections| => Cdata(sections[i]))
  }

  function RebuiltAll(e: Element, children: seq<Content>, pending: string, space: char -> bool): seq<Content>
    requires forall child :: child in children ==> child in e.children
    decreases e, 0, |children|
  {
    if children == [] then TextOf(pending, space)
    else if children[0].Text? then RebuiltAll(e, children[1..], pending + children[0].text, space)
    else
      assert children[0] in e.children;
      TextOf(pending, space) + RebuiltOne(children[0], space) + RebuiltAll(e, children[1..], "", space)
  }

  function RebuiltOne(content: Content, space: char -> bool): seq<Content>
    requires !content.Text?
    decreases content
  {
    match content
    case Child(element) => [Child(Rebuilt(element, space))]
    case Cdata(cdata) => CdataOf(Sections(cdata))
    case Comment(comment) => [Comment(Escape(comment))]
  }

  lemma {:induction false} StepsAppend(reader: Reader, p: seq<Event>, q: seq<Event>, space: char -> bool)
    ensures Steps(reader, p + q, space) ==
            match Steps(reader, p, space)
            case Err(fault) => Err(fault)
            case Ok(next) => Steps(next, q, space)
    decreases |p|
  {
    if p == [] {
      assert p + q == q;
    } else {
      assert (p + q)[1..] == p[1..] + q;
      match Step(reader, p[0], space)
      case Err(_) =>
      case Ok(next) => StepsAppend(next, p[1..], q, space);
    }
  }

  /** The reader with `content` added to the innermost open element. */
  function Filled(reader: Reader, content: seq<Content>): Reader
    requires reader.stack != []
  {
    var top := |reader.stack| - 1;
    var parent := reader.stack[top];
    reader.(stack := reader.stack[top := parent.(children := parent.children + content)])
  }

  lemma FilledTwice(reader: Reader, p: seq<Content>, q: seq<Content>)
    requires reader.stack != []
    ensures Filled(Filled(reader, p), q) == Filled(reader, p + q)
    ensures Filled(reader, []) == reader
  {
    var top := |reader.stack| - 1;
    var parent := reader.stack[top];
    assert parent.children + p + q == parent.children + (p + q) && parent.children + [] == parent.children;
    assert reader.stack[top := parent] == reader.stack;
  }

  // The pending text becomes one text child, unless it is blank.
  lemma FlushedText(reader: Reader, pending: string, space: char -> bool)
    requires reader.stack != []
    ensures Steps(reader, Flushed(Escape(pending)), space) == Ok(Filled(reader, TextOf(pending, space)))
  {
    FilledTwice(reader, [], []);
    if Escape(pending) == "" {
      assert pending == "";
    } else {
      EscapeRoundTrip(pending);
      var event := Run(Escape(pending));
      assert Steps(reader, [event], space) == Step(reader, event, space) by {
        OneStep(reader, event, space);
      }
    }
  }

  lemma OneStep(reader: Reader, event: Event, space: char -> bool)
    ensures Steps(reader, [event], space) == Step(reader, event, space)
  {
    assert [event][1..] == [];
  }

  lemma {:induction false} SectionSteps(reader: Reader, sections: seq<string>, space: char -> bool)
    requires reader.stack != []
    ensures Steps(reader, SectionEvents(sections), space) == Ok(Filled(reader, CdataOf(sections)))
    decreases |sections|
  {
    if sections == [] {
      FilledTwice(reader, [], []);
    } else {
      var first := [Cdata(sections[0])];
      FilledTwice(reader, first, CdataOf(sections[1..]));
      assert CdataOf(sections) == first + CdataOf(sections[1..]);
      assert SectionEvents(sections)[1..] == SectionEvents(sections[1..]);
      SectionSteps(Filled(reader, first), sections[1..], space);
    }
  }

  // Text never runs across an event that is not text.
  lemma {:induction false} TokensAfter(p: seq<Event>, q: seq<Event>, pending: string)
    requires p != [] && !p[|p| - 1].Run?
    ensures Tokens(p + q, pending) == Tokens(p, pending) + Tokens(q, "")
    decreases |p|
  {
    assert (p + q)[1..] == p[1..] + q;
    if |p| == 1 {
      assert p[1..] + q == q && Tokens(p[1..], "") == [];
    } else {
      TokensAfter(p[1..], q, if p[0].Run? then pending + p[0].raw else "");
    }
  }

  lemma TokensBefore(event: Event, q: seq<Event>, pending: string)
    requires !event.Run?
    ensures Tokens([event] + q, pending) == Flushed(pending) + [event] + Tokens(q, "")
  {
    assert ([event] + q)[1..] == q;
  }

  lemma {:induction false} TokensEnd(p: seq<Event>, event: Event, pending: string)
    requires !event.Run?
    ensures Tokens(p + [event], pending) == Tokens(p, pending) + [event]
    decreases |p|
  {
    if p == [] {
      assert p + [event] == [event] + [];
      TokensBefore(event, [], pending);
    } else {
      assert (p + [event])[1..] == p[1..] + [event];
      TokensEnd(p[1..], event, if p[0].Run? then pending + p[0].raw else "");
    }
  }

  ghost predicate Framed(events: seq<Event>) {
    events != [] && !events[0].Run? && !events[|events| - 1].Run?
  }

  lemma TokensFramed(p: seq<Event>, q: seq<Event>, pending: string)
    requires Framed(p)
    ensures Tokens(p + q, pending) == Flushed(pending) + Tokens(p, "") + Tokens(q, "")
  {
    TokensAfter(p, q, pending);
    TokensPending(p, pending);
  }

  lemma TokensPending(p: seq<Event>, pending: string)
    requires p != [] && !p[0].Run?
    ensures Tokens(p, pending) == Flushed(pending) + Tokens(p, "")
  {
    assert p == [p[0]] + p[1..];
    TokensBefore(p[0], p[1..], pending);
    TokensBefore(p[0], p[1..], "");
  }

  lemma {:induction false} SectionsFramed(sections: seq<string>)
    requires sections != []
    ensures Framed(SectionEvents(sections)) && Tokens(SectionEvents(sections), "") == SectionEvents(sections)
    decreases |sections|
  {
    var events := SectionEvents(sections);
    TokensBefore(events[0], SectionEvents(sections[1..]), "");
    assert events == [events[0]] + SectionEvents(sections[1..]);
    if |sections| == 1 {
      assert SectionEvents(sections[1..]) == [];
    } else {
      SectionsFramed(sections[1..]);
    }
  }

  // --------------------------------------------------- reading back a writing

  /** Reading what was written for an element appends its rebuilt form. */
  lemma {:induction false} ReadElement(e: Element, reader: Reader, space: char -> bool)
    ensures Framed(Write(e))
    ensures Steps(reader, Tokens(Write(e), ""), space) == AppendElement(reader, Rebuilt(e, space))
    decreases e, 2
  {
    var newborn := Element(e.tag, Identity(e.attributes), e.attributes, []);
    AttributesRoundTrip(e.attributes);
    if e.children == [] {
      var event := Empty(e.tag, Written(e.attributes));
      TokensBefore(event, [], "");
      assert [event] + [] == [event];
      OneStep(reader, event, space);
      assert Rebuilt(e, space) == newborn;
    } else {
      var start, end := Start(e.tag, Written(e.attributes)), End(e.tag);
      var inner := WriteAll(e, e.children);
      var open := Reader(reader.stack + [newborn], reader.root);
      var filled := Filled(open, Rebuilt(e, space).children);
      assert Write(e) == [start] + (inner + [end]);
      TokensBefore(start, inner + [end], "");
      TokensEnd(inner, end, "");
      OneStep(reader, start, space);
      StepsAppend(reader, [start], Tokens(inner, "") + [end], space);
      ReadContents(e, e.children, "", open, space);
      StepsAppend(open, Tokens(inner, ""), [end], space);
      OneStep(filled, end, space);
      CloseFilled(reader, newborn, Rebuilt(e, space).children);
      assert Tokens(Write(e), "") == [start] + (Tokens(inner, "") + [end]);
    }
  }

  lemma CloseFilled(reader: Reader, newborn: Element, content: seq<Content>)
    requires newborn.children == []
    ensures var filled := Filled(Reader(reader.stack + [newborn], reader.root), content);
            && |filled.stack| == |reader.stack| + 1
            && filled.stack[|reader.stack|] == newborn.(children := content)
            && filled.(stack := filled.stack[..|reader.stack|]) == reader
  {
    assert [] + content == content;
    assert (reader.stack + [newborn])[..|reader.stack|] == reader.stack;
  }

  /** Reading what was written for a list of children fills the open element with their rebuilt forms. */
  lemma {:induction false} ReadContents(
    e: Element, children: seq<Content>, pending: string, reader: Reader, space: char -> bool)
    requires reader.stack != [] && forall child :: child in children ==> child in e.children
    ensures Steps(reader, Tokens(WriteAll(e, children), Escape(pending)), space) ==
            Ok(Filled(reader, RebuiltAll(e, children, pending, space)))
    decreases e, 1, |children|
  {
    if children == [] {
      FlushedText(reader, pending, space);
    } else {
      assert children[0] in e.children;
      var first, rest := WriteContent(children[0]), WriteAll(e, children[1..]);
      if children[0].Text? {
        EscapeAppend(pending, children[0].text);
        assert ([Run(Escape(children[0].text))] + rest)[1..] == rest;
        ReadContents(e, children[1..], pending + children[0].text, reader, space);
      } else {
        var text, one := TextOf(pending, space), RebuiltOne(children[0], space);
        var filled := Filled(Filled(reader, text), one);
        ReadOne(children[0], Filled(reader, text), space);
        ReadContents(e, children[1..], "", filled, space);
        ReadThen(reader, pending, first, rest, one, RebuiltAll(e, children[1..], "", space), space);
      }
    }
  }

  lemma ReadThen(
    reader: Reader, pending: string, first: seq<Event>, rest: seq<Event>, one: seq<Content>, later: seq<Content>,
    space: char -> bool)
    requires reader.stack != [] && Framed(first)
    requires var filled := Filled(reader, TextOf(pending, space));
             && Steps(filled, Tokens(first, ""), space) == Ok(Filled(filled, one))
             && Steps(Filled(filled, one), Tokens(rest, ""), space) == Ok(Filled(Filled(filled, one), later))
    ensures Steps(reader, Tokens(first + rest, Escape(pending)), space) ==
            Ok(Filled(reader, TextOf(pending, space) + one + later))
  {
    var text := TextOf(pending, space);
    var filled := Filled(reader, text);
    FlushedText(reader, pending, space);
    TokensFramed(first, rest, Escape(pending));
    StepsThree(reader, Flushed(Escape(pending)), filled, Tokens(first, ""), Filled(filled, one), Tokens(rest, ""),
        space);
    FilledTwice(reader, text, one);
    FilledTwice(reader, text + one, later);
  }

  lemma StepsThree(
    reader: Reader, p: seq<Event>, second: Reader, q: seq<Event>, third: Reader, s: seq<Event>, space: char -> bool)
    requires Steps(reader, p, space) == Ok(second) && Steps(second, q, space) == Ok(third)
    ensures Steps(reader, p + q + s, space) == Steps(third, s, space)
  {
    StepsAppend(reader, p, q, space);
    StepsAppend(reader, p + q, s, space);
  }

  lemma ReadOne(content: Content, reader: Reader, space: char -> bool)
    requires reader.stack != [] && !content.Text?
    ensures Framed(WriteContent(content))
    ensures Steps(reader, Tokens(WriteContent(content), ""), space) == Ok(Filled(reader, RebuiltOne(content, space)))
    decreases content
  {
    match content
    case Child(element) =>
      ReadElement(element, reader, space);
    case Cdata(cdata) =>
      SectionsFramed(Sections(cdata));
      SectionSteps(reader, Sections(cdata), space);
    case Comment(comment) =>
      var event := Remark(Escape(comment));
      TokensBefore(event, [], "");
      assert [event] + [] == [event];
      OneStep(reader, event, space);
  }

  /** The document `to_xml` writes: a declaration and the root. */
  ghost function Document(e: Element): seq<Event> {
    [Prolog] + Write(e)
  }

  lemma {:induction false} RebuiltValid(e: Element, space: char -> bool, named: string -> bool)
    requires Valid(e, named)
    ensures Valid(Rebuilt(e, space), named)
    decreases e, 1
  {
    RebuiltAllValid(e, e.children, "", space, named);
  }

  lemma {:induction false} RebuiltAllValid(
    e: Element, children: seq<Content>, pending: string, space: char -> bool, named: string -> bool)
    requires Valid(e, named) && forall child :: child in children ==> child in e.children
    ensures forall child :: child in RebuiltAll(e, children, pending, space) && child.Child? ==>
      Valid(child.element, named)
    decreases e, 0, |children|
  {
    if children != [] {
      assert children[0] in e.children;
      RebuiltAllValid(e, children[1..], if children[0].Text? then pending + children[0].text else "", space, named);
      if children[0].Child? {
        RebuiltValid(children[0].element, space, named);
      }
    }
  }

  /** Every valid tree can be written and read; what comes back is its rebuilt form. */
  lemma WrittenReadsBack(e: Element, space: char -> bool, named: string -> bool)
    requires Valid(e, named)
    ensures Parsed(Tokens(Document(e), ""), space, named) == Ok(Rebuilt(e, space))
  {
    var start := Reader([], None);
    TokensBefore(Prolog, Write(e), "");
    StepsAppend(start, [Prolog], Tokens(Write(e), ""), space);
    OneStep(start, Prolog, space);
    ReadElement(e, start, space);
    RebuiltValid(e, space, named);
  }
}
