/** Which trees come back from XML unchanged, and the document-order traversal of a tree. */
module XmlFidelity {
  import opened Json
  import opened Xml

  // ------------------------------------------------------------- fidelity

  predicate Faithful(e: Element, space: char -> bool)
    decreases e, 1
  {
    e.id == Identity(e.attributes) && FaithfulAll(e, e.children, space)
  }

  predicate FaithfulAll(e: Element, children: seq<Content>, space: char -> bool)
    requires forall child :: child in children ==> child in e.children
    decreases e, 0, |children|
  {
    children == [] ||
    (assert children[0] in e.children;
     && FaithfulOne(children[0], space)
     && (children[0].Text? && |children| > 1 ==> !children[1].Text?)
     && FaithfulAll(e, children[1..], space))
  }

  predicate FaithfulOne(content: Content, space: char -> bool)
    decreases content
  {
    match content
    case Child(element) => Faithful(element, space)
    case Text(text) => !Blank(text, space)
    case Cdata(cdata) => FirstSplit(cdata, 0).None?
    case Comment(comment) => Plain(comment)
  }

  /** The texts a list of children starts with, run together. */
  function LeadingText(children: seq<Content>): string {
    if children == [] || !children[0].Text? then "" else children[0].text + LeadingText(children[1..])
  }

  // Rebuilding starts with at most one text, made of everything pending and leading.
  lemma {:induction false} RebuiltShape(e: Element, children: seq<Content>, pending: string, space: char -> bool)
    returns (tail: seq<Content>)
    requires forall child :: child in children ==> child in e.children
    ensures RebuiltAll(e, children, pending, space) == TextOf(pending + LeadingText(children), space) + tail
    ensures tail != [] ==> !tail[0].Text?
    decreases |children|
  {
    if children == [] {
      assert pending + "" == pending;
      tail := [];
    } else if children[0].Text? {
      tail := RebuiltShape(e, children[1..], pending + children[0].text, space);
      assert pending + children[0].text + LeadingText(children[1..]) == pending + LeadingText(children);
    } else {
      assert children[0] in e.children && pending + "" == pending;
      tail := RebuiltOne(children[0], space) + RebuiltAll(e, children[1..], "", space);
      OneIsNotText(children[0], space);
    }
  }

  lemma OneIsNotText(content: Content, space: char -> bool)
    requires !content.Text?
    ensures RebuiltOne(content, space) != [] && !RebuiltOne(content, space)[0].Text?
  {
  }

  lemma {:induction false} FirstSection(s: string)
    ensures Sections(s) != [] && (Sections(s)[0] == s <==> FirstSplit(s, 0).None?)
    ensures Sections(s)[0] == s ==> Sections(s) == [s]
  {
  }

  lemma SameParts(p: seq<Content>, q: seq<Content>, head: Content, tail: seq<Content>)
    requires p != [] && (p[0] == head ==> |p| == 1)
    ensures p + q == [head] + tail <==> p == [head] && q == tail
  {
    if p + q == [head] + tail {
      assert (p + q)[0] == p[0] == head;
      assert (p + q)[1..] == q && ([head] + tail)[1..] == tail;
    }
  }

  /** A tree comes back unchanged exactly when it is faithful. */
  lemma {:induction false} RebuiltIsSame(e: Element, space: char -> bool)
    ensures Rebuilt(e, space) == e <==> Faithful(e, space)
    decreases e, 2
  {
    ContentsAreSame(e, e.children, space);
  }

  lemma {:induction false} ContentsAreSame(e: Element, children: seq<Content>, space: char -> bool)
    requires forall child :: child in children ==> child in e.children
    ensures RebuiltAll(e, children, "", space) == children <==> FaithfulAll(e, children, space)
    decreases e, 1, |children|
  {
    if children != [] {
      assert children[0] in e.children;
      assert children == [children[0]] + children[1..];
      ContentsAreSame(e, children[1..], space);
      if children[0].Text? {
        TextIsSame(e, children, space);
      } else {
        OneIsSame(children[0], space);
        var one, rest := RebuiltOne(children[0], space), RebuiltAll(e, children[1..], "", space);
        assert RebuiltAll(e, children, "", space) == one + rest;
        SameParts(one, rest, children[0], children[1..]);
      }
    }
  }

  lemma TextIsSame(e: Element, children: seq<Content>, space: char -> bool)
    requires children != [] && children[0].Text? && forall child :: child in children ==> child in e.children
    ensures RebuiltAll(e, children, "", space) == children <==>
            && !Blank(children[0].text, space)
            && (|children| > 1 ==> !children[1].Text?)
            && RebuiltAll(e, children[1..], "", space) == children[1..]
  {
    var text, rest := children[0].text, children[1..];
    var tail := RebuiltShape(e, rest, text, space);
    var later := RebuiltShape(e, rest, "", space);
    assert "" + text == text && "" + LeadingText(rest) == LeadingText(rest);
    assert children == [Text(text)] + rest;
    if rest == [] || !rest[0].Text? {
      assert text + "" == text;
      PendingFirst(e, rest, text, space);
    } else {
      assert children[1] == rest[0];
    }
  }

  lemma PendingFirst(e: Element, rest: seq<Content>, text: string, space: char -> bool)
    requires forall child :: child in rest ==> child in e.children
    requires rest == [] || !rest[0].Text?
    ensures RebuiltAll(e, rest, text, space) == TextOf(text, space) + RebuiltAll(e, rest, "", space)
  {
    if rest != [] {
      PendingFlushed(e, rest, text, space);
      PendingFlushed(e, rest, "", space);
    }
  }

  lemma PendingFlushed(e: Element, rest: seq<Content>, pending: string, space: char -> bool)
    requires rest != [] && !rest[0].Text? && forall child :: child in rest ==> child in e.children
    ensures rest[0] in e.children
    ensures RebuiltAll(e, rest, pending, space) ==
            TextOf(pending, space) + (RebuiltOne(rest[0], space) + RebuiltAll(e, rest[1..], "", space))
    ensures TextOf("", space) == []
  {
    Rejoin(TextOf(pending, space), RebuiltOne(rest[0], space), RebuiltAll(e, rest[1..], "", space));
  }

  lemma OneIsSame(content: Content, space: char -> bool)
    requires !content.Text?
    ensures RebuiltOne(content, space) == [content] <==> FaithfulOne(content, space)
    ensures RebuiltOne(content, space) != []
    ensures RebuiltOne(content, space)[0] == content ==> |RebuiltOne(content, space)| == 1
    decreases content
  {
    match content
    case Child(element) => RebuiltIsSame(element, space);
    case Cdata(cdata) => FirstSection(cdata);
    case Comment(comment) => EscapeGrows(comment);
  }

  predicate NoEmptySections(e: Element) {
    forall child :: child in e.children ==>
      (child.Cdata? ==> child.cdata != "") && (child.Child? ==> NoEmptySections(child.element))
  }

  /**
   * Writing a valid tree and reading it back gives the same tree exactly when
   * its ids follow its attributes, no text is blank or next to another text, no
   * character data contains "]]>", and no comment contains a character that
   * writing escapes. What the library writes for empty character data is left open.
   */
  lemma XmlRoundTrip(e: Element, space: char -> bool, named: string -> bool)
    requires Valid(e, named) && NoEmptySections(e)
    ensures Parsed(Tokens(Document(e), ""), space, named) == Ok(e) <==> Faithful(e, space)
  {
    WrittenReadsBack(e, space, named);
    RebuiltIsSame(e, space);
  }

  /** An ampersand in a comment comes back as its escape. */
  lemma CommentIsEscaped(space: char -> bool)
    ensures var e := Element("A", None, map[], [Comment("&")]);
            Rebuilt(e, space).children == [Comment("&amp;")]
  {
    var e := Element("A", None, map[], [Comment("&")]);
    assert "&"[1..] == "" && Escape("&") == EscapeChar('&') + "" == "&amp;";
    assert RebuiltOne(e.children[0], space) == [Comment("&amp;")];
    assert e.children[1..] == [];
    assert RebuiltAll(e, e.children[1..], "", space) == [];
    assert RebuiltAll(e, e.children, "", space) ==
      TextOf("", space) + RebuiltOne(e.children[0], space) + RebuiltAll(e, e.children[1..], "", space);
  }

  // ----------------------------------------------------- document-order walk

  function ElementsOf(children: seq<Content>): seq<Element> {
    if children == [] then []
    else (if children[0].Child? then [children[0].element] else []) + ElementsOf(children[1..])
  }

  lemma {:induction false} ElementsSmaller(children: seq<Content>, element: Element)
    requires element in ElementsOf(children)
    ensures Child(element) in children
  {
    if !(children[0].Child? && children[0].element == element) {
      ElementsSmaller(children[1..], element);
    }
  }

  /** `e` and everything below it in document order. */
  function Preorder(e: Element): seq<Element>
    decreases e, 1
  {
    [e] + PreorderAll(e, e.children)
  }

  function PreorderAll(e: Element, children: seq<Content>): seq<Element>
    requires forall child :: child in children ==> child in e.children
    decreases e, 0, |children|
  {
    if children == [] then []
    else
      assert children[0] in e.children;
      (if children[0].Child? then Preorder(children[0].element) else []) + PreorderAll(e, children[1..])
  }

  // What a stack still has to yield: its top first.
  ghost function Pending(stack: seq<Element>): seq<Element> {
    if stack == [] then [] else Preorder(stack[|stack| - 1]) + Pending(stack[..|stack| - 1])
  }

  function Reversed(elements: seq<Element>): seq<Element> {
    if elements == [] then [] else Reversed(elements[1..]) + [elements[0]]
  }

  lemma PendingTop(stack: seq<Element>, top: Element)
    ensures Pending(stack + [top]) == Preorder(top) + Pending(stack)
  {
    assert (stack + [top])[..|stack|] == stack;
  }

  lemma {:induction false} PendingPushed(e: Element, stack: seq<Element>, children: seq<Content>)
    requires forall child :: child in children ==> child in e.children
    ensures Pending(stack + Reversed(ElementsOf(children))) == PreorderAll(e, children) + Pending(stack)
    decreases |children|
  {
    if children == [] {
      assert stack + [] == stack;
    } else {
      assert children[0] in e.children;
      var later := Reversed(ElementsOf(children[1..]));
      PendingPushed(e, stack, children[1..]);
      if children[0].Child? {
        var first := children[0].element;
        assert ElementsOf(children)[1..] == ElementsOf(children[1..]);
        assert stack + Reversed(ElementsOf(children)) == (stack + later) + [first];
        PendingTop(stack + later, first);
        Rejoin(Preorder(first), PreorderAll(e, children[1..]), Pending(stack));
      } else {
        assert ElementsOf(children) == ElementsOf(children[1..]);
        assert PreorderAll(e, children) == PreorderAll(e, children[1..]);
      }
    }
  }

  lemma Rejoin<X>(p: seq<X>, q: seq<X>, r: seq<X>)
    ensures p + (q + r) == p + q + r
  {
  }

  // The top of the stack comes next, and its children take its place.
  lemma PendingNext(stack: seq<Element>)
    requires stack != []
    ensures var (top, rest) := (stack[|stack| - 1], stack[..|stack| - 1]);
            Pending(stack) == [top] + Pending(rest + Reversed(ElementsOf(top.children)))
  {
    var (top, rest) := (stack[|stack| - 1], stack[..|stack| - 1]);
    PendingPushed(top, rest, top.children);
    Rejoin([top], PreorderAll(top, top.children), Pending(rest));
    assert Preorder(top) == [top] + PreorderAll(top, top.children);
  }

  /** The iterator: its stack is all its state. */
  class Descendants {
    var stack: seq<Element>

    constructor (root: Element)
      ensures Pending(stack) == Preorder(root)
    {
      stack := [root];
      new;
      assert stack[..0] == [];
    }

    method Next() returns (next: Option<Element>)
      modifies this
      ensures next.None? <==> Pending(old(stack)) == []
      ensures next.Some? ==> Pending(old(stack)) == [next.value] + Pending(stack)
      ensures next.None? ==> stack == old(stack)
    {
      if stack == [] {
        return None;
      }
      var element := stack[|stack| - 1];
      var rest := stack[..|stack| - 1];
      PendingNext(stack);
      stack := rest + Reversed(ElementsOf(element.children));
      next := Some(element);
    }
  }

  /** Running the iterator to its end yields the document order, and it does end. */
  method Walk(root: Element) returns (visited: seq<Element>)
    ensures visited == Preorder(root)
  {
    var walk := new Descendants(root);
    visited := [];
    var next := walk.Next();
    while next.Some?
      invariant visited + (if next.Some? then [next.value] + Pending(walk.stack) else []) == Preorder(root)
      decreases if next.Some? then 1 + |Pending(walk.stack)| else 0
    {
      visited := visited + [next.value];
      next := walk.Next();
    }
  }

  // --------------------------------------------------- document order in a document

  // The opening tags of a document, in the order they stand in it.
  function OpeningTags(events: seq<Event>): seq<(string, seq<(string, string)>)> {
    if events == [] then []
    else
      (if events[0].Start? || events[0].Empty? then [(events[0].tag, events[0].attributes)] else [])
      + OpeningTags(events[1..])
  }

  ghost function TagsOf(elements: seq<Element>): seq<(string, seq<(string, string)>)> {
    seq(|elements|, i requires 0 <= i < |elements| => (elements[i].tag, Written(elements[i].attributes)))
  }

  lemma {:induction false} TagsAppend(p: seq<Event>, q: seq<Event>)
    ensures OpeningTags(p + q) == OpeningTags(p) + OpeningTags(q)
  {
    if p == [] {
      assert p + q == q;
    } else {
      assert (p + q)[1..] == p[1..] + q && (p + q)[0] == p[0];
      TagsAppend(p[1..], q);
      var first := if p[0].Start? || p[0].Empty? then [(p[0].tag, p[0].attributes)] else [];
      Rejoin(first, OpeningTags(p[1..]), OpeningTags(q));
    }
  }

  lemma TagsOfAppend(p: seq<Element>, q: seq<Element>)
    ensures TagsOf(p + q) == TagsOf(p) + TagsOf(q)
  {
  }

  lemma {:induction false} NoTags(events: seq<Event>)
    requires forall event :: event in events ==> !event.Start? && !event.Empty?
    ensures OpeningTags(events) == []
  {
    if events != [] {
      assert events[0] in events && forall event :: event in events[1..] ==> event in events;
      NoTags(events[1..]);
    }
  }

  lemma {:induction false} SectionsOnly(sections: seq<string>)
    ensures forall event :: event in SectionEvents(sections) ==> event.Section?
  {
    if sections != [] {
      SectionsOnly(sections[1..]);
    }
  }

  /** The traversal visits elements in the order their opening tags stand in the document written of them. */
  lemma {:induction false} PreorderIsWritten(e: Element)
    ensures OpeningTags(Write(e)) == TagsOf(Preorder(e))
    decreases e, 2
  {
    var tag := (e.tag, Written(e.attributes));
    PreorderAllIsWritten(e, e.children);
    TagsOfAppend([e], PreorderAll(e, e.children));
    assert TagsOf([e]) == [tag];
    if e.children == [] {
      assert Write(e) == [Empty(e.tag, Written(e.attributes))];
      assert Write(e)[1..] == [];
    } else {
      var start, end := [Start(e.tag, Written(e.attributes))], [End(e.tag)];
      var inner := WriteAll(e, e.children);
      TagsAppend(start, inner);
      TagsAppend(start + inner, end);
      assert start[1..] == [] && OpeningTags(start) == [tag];
      NoTags(end);
    }
  }

  lemma {:induction false} PreorderAllIsWritten(e: Element, children: seq<Content>)
    requires forall child :: child in children ==> child in e.children
    ensures OpeningTags(WriteAll(e, children)) == TagsOf(PreorderAll(e, children))
    decreases e, 1, |children|
  {
    if children != [] {
      assert children[0] in e.children;
      var first, rest := WriteContent(children[0]), WriteAll(e, children[1..]);
      var visited := if children[0].Child? then Preorder(children[0].element) else [];
      PreorderAllIsWritten(e, children[1..]);
      TagsAppend(first, rest);
      TagsOfAppend(visited, PreorderAll(e, children[1..]));
      match children[0]
      case Child(element) => PreorderIsWritten(element);
      case Cdata(cdata) =>
        SectionsOnly(Sections(cdata));
        NoTags(first);
      case _ => NoTags(first);
    }
  }

  // ------------------------------------------------------------- character data

  function Joined(sections: seq<string>): string {
    if sections == [] then "" else sections[0] + Joined(sections[1..])
  }

  // "]]>" stands in the text.
  predicate EndsIn(s: string, i: nat) {
    i + 3 <= |s| && s[i] == ']' && s[i + 1] == ']' && s[i + 2] == '>'
  }

  /** Sections hold the text between them, and none holds what would end it. */
  lemma {:induction false} SectionsWhole(s: string)
    ensures Joined(Sections(s)) == s
    ensures forall section, i: nat :: section in Sections(s) ==> !EndsIn(section, i)
    decreases |s|
  {
    match FirstSplit(s, 0)
    case None =>
      assert Sections(s) == [s] && Joined([s]) == s + Joined([s][1..]);
      forall i: nat ensures !EndsIn(s, i) {
        assert !SplitAt(s, i + 2);
      }
    case Some(n) =>
      SectionsWhole(s[n..]);
      assert Sections(s)[1..] == Sections(s[n..]);
      FirstIsFirst(s, 0);
      forall i: nat ensures !EndsIn(s[..n], i) {
        assert i + 2 < n ==> !SplitAt(s, i + 2);
      }
  }

  lemma {:induction false} FirstIsFirst(s: string, from: nat)
    requires from <= |s| && FirstSplit(s, from).Some?
    ensures FirstSplit(s, from).value < |s|
    ensures forall j: nat :: from <= j < FirstSplit(s, from).value ==> !SplitAt(s, j)
    decreases |s| - from
  {
    if !SplitAt(s, from) {
      FirstIsFirst(s, from + 1);
    }
  }
}
