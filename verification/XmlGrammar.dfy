/** Which event sequences are documents, and of which tree, said without the reader. */
module XmlGrammar {
  import opened Json
  import opened Xml

  // ----------------------------------------------------------------- references

  /** A raw text stands for a text, one character or named reference after another. */
  predicate Decodes(raw: string, text: string) {
    if text == "" then raw == ""
    else
      var rest := text[1..];
      || (text[0] != '&' && raw != "" && raw[0] == text[0] && Decodes(raw[1..], rest))
      || (text[0] == '<' && "&lt;" <= raw && Decodes(raw[4..], rest))
      || (text[0] == '>' && "&gt;" <= raw && Decodes(raw[4..], rest))
      || (text[0] == '&' && "&amp;" <= raw && Decodes(raw[5..], rest))
      || (text[0] == '\'' && "&apos;" <= raw && Decodes(raw[6..], rest))
      || (text[0] == '"' && "&quot;" <= raw && Decodes(raw[6..], rest))
  }

  lemma {:induction false} UnescapedDecodes(raw: string)
    ensures Unescape(raw).Some? ==> Decodes(raw, Unescape(raw).value)
    decreases |raw|
  {
    if raw != "" && Unescape(raw).Some? {
      var size := if raw[0] != '&' then 1 else if "&lt;" <= raw || "&gt;" <= raw then 4
                  else if "&amp;" <= raw then 5 else 6;
      UnescapedDecodes(raw[size..]);
    }
  }

  lemma {:induction false} DecodedUnescapes(raw: string, text: string)
    requires Decodes(raw, text)
    ensures Unescape(raw) == Some(text)
    decreases |text|
  {
    if text != "" {
      var rest := text[1..];
      assert text == [text[0]] + rest;
      if text[0] != '&' && raw[0] == text[0] && Decodes(raw[1..], rest) {
        DecodedUnescapes(raw[1..], rest);
      } else {
        var size := if text[0] == '<' || text[0] == '>' then 4 else if text[0] == '&' then 5 else 6;
        assert raw[0] == '&' && raw[1] == (if text[0] == '<' then 'l' else if text[0] == '>' then 'g'
                                           else if text[0] == '"' then 'q' else 'a');
        assert raw[2] == (if text[0] == '&' then 'm' else if text[0] == '\'' then 'p' else if text[0] == '"' then 'u'
                          else 't');
        DecodedUnescapes(raw[size..], rest);
      }
    }
  }

  /** The reader decodes a raw text if and only if it stands for one, as that text. */
  lemma DecodesExactly(raw: string, text: string)
    ensures Unescape(raw) == Some(text) <==> Decodes(raw, text)
  {
    UnescapedDecodes(raw);
    if Decodes(raw, text) {
      DecodedUnescapes(raw, text);
    }
  }

  // ------------------------------------------------------------------- attributes

  // The attributes of an opening tag, each key once.
  ghost predicate AreAttributes(attributes: map<string, string>, pairs: seq<(string, string)>) {
    && (forall i, j :: 0 <= i < j < |pairs| ==> pairs[i].0 != pairs[j].0)
    && (forall i :: 0 <= i < |pairs| ==> pairs[i].0 in attributes && Decodes(pairs[i].1, attributes[pairs[i].0]))
    && forall key :: key in attributes ==> exists i :: 0 <= i < |pairs| && pairs[i].0 == key
  }

  lemma {:induction false} PairsRead(
    pairs: seq<(string, string)>, before: map<string, string>, attributes: map<string, string>)
    requires ReadPairs(pairs, before) == Ok(attributes)
    ensures forall i, j :: 0 <= i < j < |pairs| ==> pairs[i].0 != pairs[j].0
    ensures forall i :: 0 <= i < |pairs| ==>
      pairs[i].0 in attributes && pairs[i].0 !in before && Decodes(pairs[i].1, attributes[pairs[i].0])
    ensures forall key :: key in before ==> key in attributes && attributes[key] == before[key]
    ensures forall key :: key in attributes ==> key in before || exists i :: 0 <= i < |pairs| && pairs[i].0 == key
    decreases |pairs|
  {
    if pairs != [] {
      var (key, raw) := pairs[0];
      var next := before[key := Unescape(raw).value];
      PairsRead(pairs[1..], next, attributes);
      DecodesExactly(raw, attributes[key]);
      forall i | 1 <= i < |pairs|
        ensures pairs[i].0 in attributes && pairs[i].0 !in next && Decodes(pairs[i].1, attributes[pairs[i].0])
      {
        assert pairs[i] == pairs[1..][i - 1];
      }
      forall k | k in attributes && k !in before ensures exists i :: 0 <= i < |pairs| && pairs[i].0 == k {
        if k != key {
          var i :| 0 <= i < |pairs[1..]| && pairs[1..][i].0 == k;
          assert pairs[i + 1].0 == k;
        }
      }
      forall i, j | 0 <= i < j < |pairs| ensures pairs[i].0 != pairs[j].0 {
        if i > 0 {
          assert pairs[1..][i - 1] == pairs[i] && pairs[1..][j - 1] == pairs[j];
        }
      }
    }
  }

  lemma {:induction false} PairsReadable(
    pairs: seq<(string, string)>, before: map<string, string>, attributes: map<string, string>)
    requires forall i, j :: 0 <= i < j < |pairs| ==> pairs[i].0 != pairs[j].0
    requires forall i :: 0 <= i < |pairs| ==>
      pairs[i].0 in attributes && pairs[i].0 !in before && Decodes(pairs[i].1, attributes[pairs[i].0])
    requires forall key :: key in before ==> key in attributes && attributes[key] == before[key]
    requires forall key :: key in attributes ==> key in before || exists i :: 0 <= i < |pairs| && pairs[i].0 == key
    ensures ReadPairs(pairs, before) == Ok(attributes)
    decreases |pairs|
  {
    if pairs == [] {
      assert before == attributes;
    } else {
      var (key, raw) := pairs[0];
      DecodesExactly(raw, attributes[key]);
      var next := before[key := attributes[key]];
      forall i | 0 <= i < |pairs[1..]|
        ensures pairs[1..][i].0 in attributes && pairs[1..][i].0 !in next
        ensures Decodes(pairs[1..][i].1, attributes[pairs[1..][i].0])
      {
        assert pairs[1..][i] == pairs[i + 1];
      }
      forall k | k in attributes && k !in next ensures exists i :: 0 <= i < |pairs[1..]| && pairs[1..][i].0 == k {
        var i :| 0 <= i < |pairs| && pairs[i].0 == k;
        assert pairs[1..][i - 1] == pairs[i];
      }
      forall i, j | 0 <= i < j < |pairs[1..]| ensures pairs[1..][i].0 != pairs[1..][j].0 {
        assert pairs[1..][i] == pairs[i + 1] && pairs[1..][j] == pairs[j + 1];
      }
      PairsReadable(pairs[1..], next, attributes);
    }
  }

  lemma AttributesExactly(pairs: seq<(string, string)>, attributes: map<string, string>)
    ensures ReadPairs(pairs, map[]) == Ok(attributes) <==> AreAttributes(attributes, pairs)
  {
    if ReadPairs(pairs, map[]) == Ok(attributes) {
      PairsRead(pairs, map[], attributes);
    }
    if AreAttributes(attributes, pairs) {
      PairsReadable(pairs, map[], attributes);
    }
  }

  /** The element an opening tag stands for, with its children; its id is that of the attributes. */
  ghost predicate IsElement(e: Element, tag: string, pairs: seq<(string, string)>, children: seq<Content>) {
    && e.tag == tag && e.children == children && AreAttributes(e.attributes, pairs)
    && (e.id.None? ==> forall key :: key in e.attributes ==> key !in {"ID", "Id", "iD", "id"})
    && (e.id.Some? ==> exists key ::
          && key in e.attributes && key in {"ID", "Id", "iD", "id"} && e.id == Some(e.attributes[key])
          && forall other :: other in e.attributes && other in {"ID", "Id", "iD", "id"} && other != key ==>
               Before(key, other))
  }

  lemma IdentityUnique(e: Element)
    requires e.id.None? ==> forall key :: key in e.attributes ==> key !in {"ID", "Id", "iD", "id"}
    requires e.id.Some? ==> exists key ::
      && key in e.attributes && key in {"ID", "Id", "iD", "id"} && e.id == Some(e.attributes[key])
      && forall other :: other in e.attributes && other in {"ID", "Id", "iD", "id"} && other != key ==>
           Before(key, other)
    ensures e.id == Identity(e.attributes)
  {
    IdentityIsFirst(e.attributes);
    if e.id.Some? {
      var key :|
        && key in e.attributes && key in {"ID", "Id", "iD", "id"} && e.id == Some(e.attributes[key])
        && forall other :: other in e.attributes && other in {"ID", "Id", "iD", "id"} && other != key ==>
             Before(key, other);
      assert IsIdName(key);
      var first :|
        && first in e.attributes && IsIdName(first) && Identity(e.attributes) == Some(e.attributes[first])
        && forall other :: other in e.attributes && IsIdName(other) && other != first ==> Before(first, other);
      if key != first {
        BeforeTotal(key, first);
      }
    }
  }

  lemma OpenedExactly(tag: string, pairs: seq<(string, string)>, e: Element)
    ensures Opened(tag, pairs) == Ok(e) <==> IsElement(e, tag, pairs, [])
  {
    AttributesExactly(pairs, e.attributes);
    IdentityIsFirst(e.attributes);
    if IsElement(e, tag, pairs, []) {
      IdentityUnique(e);
      assert e == Element(tag, Identity(e.attributes), e.attributes, []);
    }
  }

  // --------------------------------------------------------------------- contents

  // A run of text that is decoded and blank, or not.
  ghost predicate BlankRun(event: Event, space: char -> bool) {
    event.Run? && exists text :: Decodes(event.raw, text) && forall c :: c in text ==> space(c)
  }

  ghost predicate TextRun(event: Event, text: string, space: char -> bool) {
    event.Run? && Decodes(event.raw, text) && exists c :: c in text && !space(c)
  }

  /** The events are the children, in order: blank runs and prologs are nothing, everything else is one child. */
  ghost predicate Spells(events: seq<Event>, children: seq<Content>, space: char -> bool)
    decreases |events|
  {
    if events == [] then children == []
    else if events[0] == Prolog || BlankRun(events[0], space) then Spells(events[1..], children, space)
    else
      children != [] &&
      match events[0]
      case Run(_) =>
        children[0].Text? && TextRun(events[0], children[0].text, space) && Spells(events[1..], children[1..], space)
      case Section(cdata) => children[0] == Cdata(cdata) && Spells(events[1..], children[1..], space)
      case Remark(raw) => children[0] == Comment(raw) && Spells(events[1..], children[1..], space)
      case Empty(tag, pairs) =>
        && children[0].Child? && IsElement(children[0].element, tag, pairs, [])
        && Spells(events[1..], children[1..], space)
      case Start(tag, pairs) =>
        && children[0].Child?
        && exists k :: 1 <= k < |events| && events[k] == End(tag)
             && IsElement(children[0].element, tag, pairs, children[0].element.children)
             && Spells(events[1..k], children[0].element.children, space)
             && Spells(events[k + 1..], children[1..], space)
      case _ => false
  }

  // What may stand before and behind the root.
  ghost predicate Outside(events: seq<Event>, space: char -> bool) {
    forall event :: event in events ==> event == Prolog || event.Remark? || BlankRun(event, space)
  }

  // One element, with nothing but those around it.
  ghost predicate IsRootAt(events: seq<Event>, i: nat, j: nat, root: Element, space: char -> bool) {
    && i < j <= |events| && Outside(events[..i], space) && Outside(events[j..], space)
    && (events[i].Start? || events[i].Empty?) && Spells(events[i..j], [Child(root)], space)
  }

  /** A document: prologs, comments and blanks around one element. */
  ghost predicate IsDocument(events: seq<Event>, root: Element, space: char -> bool) {
    exists i: nat, j: nat :: IsRootAt(events, i, j, root, space)
  }

  lemma RunExactly(event: Event, space: char -> bool)
    requires event.Run?
    ensures BlankRun(event, space) <==> Unescape(event.raw).Some? && Blank(Unescape(event.raw).value, space)
    ensures forall text :: TextRun(event, text, space) <==> Unescape(event.raw) == Some(text) && !Blank(text, space)
  {
    forall text ensures Unescape(event.raw) == Some(text) <==> Decodes(event.raw, text) {
      DecodesExactly(event.raw, text);
    }
  }

  // ----------------------------------------------------- what is spelled is read

  lemma FirstThen(reader: Reader, events: seq<Event>, children: seq<Content>, first: seq<Content>, space: char -> bool)
    requires reader.stack != [] && events != [] && children != []
    requires Step(reader, events[0], space) == Ok(Filled(reader, [children[0]]))
    requires Steps(Filled(reader, [children[0]]), events[1..], space) ==
             Ok(Filled(Filled(reader, [children[0]]), children[1..]))
    ensures Steps(reader, events, space) == Ok(Filled(reader, children))
  {
    FilledTwice(reader, [children[0]], children[1..]);
    assert children == [children[0]] + children[1..];
  }

  lemma ElementThen(events: seq<Event>, k: nat, children: seq<Content>, reader: Reader, space: char -> bool)
    requires 1 <= k < |events| && events[0].Start? && events[k] == End(events[0].tag)
    requires reader.stack != [] && children != [] && children[0].Child?
    requires var e := children[0].element;
             && IsElement(e, events[0].tag, events[0].attributes, e.children)
             && Steps(OpenReader(reader, e), events[1..k], space) == Ok(Filled(OpenReader(reader, e), e.children))
    requires var next := Filled(reader, [children[0]]);
             Steps(next, events[k + 1..], space) == Ok(Filled(next, children[1..]))
    ensures Steps(reader, events, space) == Ok(Filled(reader, children))
  {
    ElementIsRead(events, k, children[0].element, reader, space);
    FilledTwice(reader, [children[0]], children[1..]);
    assert children == [children[0]] + children[1..];
  }

  lemma {:induction false} SpelledIsRead(
    events: seq<Event>, children: seq<Content>, reader: Reader, space: char -> bool)
    requires reader.stack != [] && Spells(events, children, space)
    ensures Steps(reader, events, space) == Ok(Filled(reader, children))
    decreases |events|
  {
    FilledTwice(reader, [], []);
    if events != [] {
      var event := events[0];
      if event.Run? {
        RunExactly(event, space);
      }
      if event == Prolog || BlankRun(event, space) {
        SpelledIsRead(events[1..], children, reader, space);
      } else if event.Start? {
        var k :| 1 <= k < |events| && events[k] == End(event.tag)
          && IsElement(children[0].element, event.tag, event.attributes, children[0].element.children)
          && Spells(events[1..k], children[0].element.children, space)
          && Spells(events[k + 1..], children[1..], space);
        var e := children[0].element;
        SpelledIsRead(events[1..k], e.children, OpenReader(reader, e), space);
        SpelledIsRead(events[k + 1..], children[1..], Filled(reader, [children[0]]), space);
        ElementThen(events, k, children, reader, space);
      } else {
        if event.Empty? {
          OpenedExactly(event.tag, event.attributes, children[0].element);
        }
        SpelledIsRead(events[1..], children[1..], Filled(reader, [children[0]]), space);
        FirstThen(reader, events, children, [children[0]], space);
      }
    }
  }

  // The reader once an element has been opened.
  function OpenReader(reader: Reader, e: Element): Reader {
    reader.(stack := reader.stack + [e.(children := [])])
  }

  // Reading on, unless reading has failed.
  function Onward(read: Result<Reader, Fault>, rest: seq<Event>, space: char -> bool): Result<Reader, Fault> {
    if read.Ok? then Steps(read.value, rest, space) else read
  }

  // The reader at an element's end, its children read.
  lemma EndIsRead(reader: Reader, e: Element, rest: seq<Event>, space: char -> bool)
    ensures Steps(Filled(OpenReader(reader, e), e.children), [End(e.tag)] + rest, space) ==
            Onward(AppendElement(reader, e), rest, space)
  {
    var filled := Filled(OpenReader(reader, e), e.children);
    CloseFilled(reader, e.(children := []), e.children);
    assert e.(children := []).(children := e.children) == e;
    assert ([End(e.tag)] + rest)[1..] == rest;
  }

  lemma StartIsRead(reader: Reader, start: Event, e: Element, rest: seq<Event>, space: char -> bool)
    requires start.Start? && IsElement(e, start.tag, start.attributes, e.children)
    ensures Steps(reader, [start] + rest, space) == Steps(OpenReader(reader, e), rest, space)
  {
    OpenedExactly(start.tag, start.attributes, e.(children := []));
    assert ([start] + rest)[1..] == rest;
  }

  lemma ElementIsRead(events: seq<Event>, k: nat, e: Element, reader: Reader, space: char -> bool)
    requires 1 <= k < |events| && events[0].Start? && events[k] == End(events[0].tag)
    requires IsElement(e, events[0].tag, events[0].attributes, e.children)
    requires Steps(OpenReader(reader, e), events[1..k], space) == Ok(Filled(OpenReader(reader, e), e.children))
    ensures Steps(reader, events, space) ==
            Onward(AppendElement(reader, e), events[k + 1..], space)
  {
    var (inner, rest) := (events[1..k], events[k + 1..]);
    var behind := inner + ([End(e.tag)] + rest);
    assert events == [events[0]] + behind;
    StartIsRead(reader, events[0], e, behind, space);
    StepsAppend(OpenReader(reader, e), inner, [End(e.tag)] + rest, space);
    EndIsRead(reader, e, rest, space);
  }

  // -------------------------------------------------------- what is read is spelled

  lemma BlankBefore(event: Event, rest: seq<Event>, children: seq<Content>, space: char -> bool)
    requires event == Prolog || BlankRun(event, space)
    requires Spells(rest, children, space)
    ensures Spells([event] + rest, children, space)
  {
    assert ([event] + rest)[1..] == rest;
  }

  // An event that is a child by itself.
  ghost predicate IsLeaf(event: Event, child: Content, space: char -> bool) {
    match event
    case Run(_) => child.Text? && TextRun(event, child.text, space)
    case Section(cdata) => child == Cdata(cdata)
    case Remark(raw) => child == Comment(raw)
    case Empty(tag, pairs) => child.Child? && IsElement(child.element, tag, pairs, [])
    case _ => false
  }

  lemma LeafBefore(event: Event, child: Content, rest: seq<Event>, children: seq<Content>, space: char -> bool)
    requires IsLeaf(event, child, space) && Spells(rest, children, space)
    ensures Spells([event] + rest, [child] + children, space)
  {
    assert ([event] + rest)[1..] == rest && ([child] + children)[1..] == children;
    if event.Run? {
      RunExactly(event, space);
    }
  }

  lemma ElementBefore(
    start: Event, e: Element, inner: seq<Event>, rest: seq<Event>, children: seq<Content>, space: char -> bool)
    requires start.Start? && IsElement(e, start.tag, start.attributes, e.children)
    requires Spells(inner, e.children, space) && Spells(rest, children, space)
    ensures Spells([start] + inner + [End(start.tag)] + rest, [Child(e)] + children, space)
  {
    var events, all := [start] + inner + [End(start.tag)] + rest, [Child(e)] + children;
    var k := 1 + |inner|;
    assert events[0] == start && events[k] == End(start.tag);
    assert events[1..k] == inner && events[k + 1..] == rest && all[1..] == children;
  }

  // One event that neither opens nor closes an element, inside one.
  lemma LeafRead(reader: Reader, event: Event, next: Reader, space: char -> bool) returns (first: seq<Content>)
    requires reader.stack != [] && !event.Start? && !event.End?
    requires Step(reader, event, space) == Ok(next)
    ensures next == Filled(reader, first)
    ensures first == [] ==> event == Prolog || BlankRun(event, space)
    ensures first != [] ==> |first| == 1 && IsLeaf(event, first[0], space)
  {
    FilledTwice(reader, [], []);
    match event
    case Prolog => first := [];
    case Run(raw) =>
      RunExactly(event, space);
      first := if Blank(Unescape(raw).value, space) then [] else [Text(Unescape(raw).value)];
    case Section(cdata) => first := [Cdata(cdata)];
    case Remark(raw) => first := [Comment(raw)];
    case Empty(tag, pairs) =>
      OpenedExactly(tag, pairs, Opened(tag, pairs).value);
      first := [Child(Opened(tag, pairs).value)];
  }

  /** Where an element that is open is closed, the events up to there are its children. */
  lemma {:induction false} ClosedWhere(reader: Reader, events: seq<Event>, final: Reader, space: char -> bool)
    returns (k: nat, children: seq<Content>)
    requires reader.stack != [] && Steps(reader, events, space) == Ok(final) && |final.stack| < |reader.stack|
    ensures k < |events| && events[k] == End(reader.stack[|reader.stack| - 1].tag)
    ensures Spells(events[..k], children, space)
    ensures Steps(reader, events[..k], space) == Ok(Filled(reader, children))
    decreases |events|, 2
  {
    var event := events[0];
    var next := Step(reader, event, space).value;
    FilledTwice(reader, [], []);
    if event.End? {
      k, children := 0, [];
    } else if event.Start? {
      k, children := ClosedBehind(reader, events, final, space);
    } else {
      var first := LeafRead(reader, event, next, space);
      var j, more := ClosedWhere(next, events[1..], final, space);
      k, children := j + 1, first + more;
      assert events[..k] == [event] + events[1..][..j];
      FilledTwice(reader, first, more);
      if first == [] {
        assert children == more;
        BlankBefore(event, events[1..][..j], more, space);
      } else {
        assert first == [first[0]];
        LeafBefore(event, first[0], events[1..][..j], more, space);
      }
      StepsAppend(reader, [event], events[1..][..j], space);
      OneStep(reader, event, space);
    }
  }

  lemma AppendedInside(reader: Reader, e: Element)
    requires reader.stack != []
    ensures AppendElement(reader, e) == Ok(Filled(reader, [Child(e)]))
    ensures var next := Filled(reader, [Child(e)]);
            |next.stack| == |reader.stack| && next.stack[|next.stack| - 1].tag == reader.stack[|reader.stack| - 1].tag
  {
  }

  // An element inside it first.
  lemma {:induction false} ClosedBehind(reader: Reader, events: seq<Event>, final: Reader, space: char -> bool)
    returns (k: nat, children: seq<Content>)
    requires reader.stack != [] && Steps(reader, events, space) == Ok(final) && |final.stack| < |reader.stack|
    requires events != [] && events[0].Start?
    ensures k < |events| && events[k] == End(reader.stack[|reader.stack| - 1].tag)
    ensures Spells(events[..k], children, space)
    ensures Steps(reader, events[..k], space) == Ok(Filled(reader, children))
    decreases |events|, 1
  {
    var i, e := ElementWhere(reader, events, final, space);
    k, children := ClosedAfter(reader, events, final, i, e, space);
  }

  // The element read, the rest up to the end of the one around it.
  lemma {:induction false} ClosedAfter(
    reader: Reader, events: seq<Event>, final: Reader, i: nat, e: Element, space: char -> bool)
    returns (k: nat, children: seq<Content>)
    requires reader.stack != [] && |final.stack| < |reader.stack|
    requires 1 <= i < |events| && events[0].Start? && events[i] == End(events[0].tag)
    requires IsElement(e, events[0].tag, events[0].attributes, e.children) && Spells(events[1..i], e.children, space)
    requires Steps(reader, events[..i + 1], space) == AppendElement(reader, e)
    requires AppendElement(reader, e).Ok?
    requires Steps(AppendElement(reader, e).value, events[i + 1..], space) == Ok(final)
    ensures k < |events| && events[k] == End(reader.stack[|reader.stack| - 1].tag)
    ensures Spells(events[..k], children, space)
    ensures Steps(reader, events[..k], space) == Ok(Filled(reader, children))
    decreases |events|, 0
  {
    AppendedInside(reader, e);
    var next := Filled(reader, [Child(e)]);
    var rest := events[i + 1..];
    var j, more := ClosedWhere(next, rest, final, space);
    Cut(events, i + 1, j);
    k, children := i + 1 + j, [Child(e)] + more;
    ElementAndMore(reader, events, i, e, k, more, space);
  }

  lemma Cut(events: seq<Event>, i: nat, j: nat)
    requires i + j <= |events|
    ensures events[i..][..j] == events[i..i + j]
    ensures i + j < |events| ==> events[i..][j] == events[i + j]
  {
  }

  lemma ElementAndMore(
    reader: Reader, events: seq<Event>, i: nat, e: Element, k: nat, more: seq<Content>, space: char -> bool)
    requires 1 <= i < k <= |events| && reader.stack != []
    requires events[0].Start? && events[i] == End(events[0].tag)
    requires IsElement(e, events[0].tag, events[0].attributes, e.children) && Spells(events[1..i], e.children, space)
    requires Spells(events[i + 1..k], more, space)
    requires Steps(reader, events[..i + 1], space) == Ok(Filled(reader, [Child(e)]))
    requires var next := Filled(reader, [Child(e)]);
             Steps(next, events[i + 1..k], space) == Ok(Filled(next, more))
    ensures Spells(events[..k], [Child(e)] + more, space)
    ensures Steps(reader, events[..k], space) == Ok(Filled(reader, [Child(e)] + more))
  {
    var (front, rest) := (events[..i + 1], events[i + 1..k]);
    assert front == [events[0]] + events[1..i] + [events[i]] && events[..k] == front + rest;
    ElementBefore(events[0], e, events[1..i], rest, more, space);
    FilledTwice(reader, [Child(e)], more);
    StepsAppend(reader, front, rest, space);
  }

  // The element an opening tag starts, and where it ends.
  lemma {:induction false} ElementWhere(reader: Reader, events: seq<Event>, final: Reader, space: char -> bool)
    returns (k: nat, e: Element)
    requires Steps(reader, events, space) == Ok(final) && |final.stack| <= |reader.stack|
    requires events != [] && events[0].Start?
    ensures 1 <= k < |events| && events[k] == End(events[0].tag)
    ensures IsElement(e, events[0].tag, events[0].attributes, e.children) && Spells(events[1..k], e.children, space)
    ensures Steps(reader, events[..k + 1], space) == AppendElement(reader, e)
    ensures AppendElement(reader, e).Ok?
    ensures Steps(AppendElement(reader, e).value, events[k + 1..], space) == Ok(final)
    decreases |events|, 0
  {
    var start := events[0];
    var newborn := Opened(start.tag, start.attributes).value;
    OpenedExactly(start.tag, start.attributes, newborn);
    var open := reader.(stack := reader.stack + [newborn]);
    var j, children := ClosedWhere(open, events[1..], final, space);
    k, e := j + 1, newborn.(children := children);
    assert events[1..][..j] == events[1..k] && events[1..][j] == events[k];
    assert open == OpenReader(reader, e);
    ElementIsRead(events, k, e, reader, space);
    assert events[..k + 1][1..k] == events[1..k] && events[..k + 1][k + 1..] == [];
    ElementIsRead(events[..k + 1], k, e, reader, space);
  }

  // -------------------------------------------------------------- whole documents

  lemma {:induction false} OutsideIsSkipped(events: seq<Event>, root: Option<Element>, space: char -> bool)
    requires Outside(events, space)
    ensures Steps(Reader([], root), events, space) == Ok(Reader([], root))
    decreases |events|
  {
    if events != [] {
      var event := events[0];
      assert event in events;
      if event.Run? && event != Prolog {
        RunExactly(event, space);
      }
      assert forall other :: other in events[1..] ==> other in events;
      OutsideIsSkipped(events[1..], root, space);
    }
  }

  // What an opening tag with one child to spell comes to.
  lemma SpelledAlone(events: seq<Event>, root: Element, space: char -> bool) returns (k: nat)
    requires events != [] && (events[0].Start? || events[0].Empty?) && Spells(events, [Child(root)], space)
    ensures k < |events| && Spells(events[k + 1..], [], space)
    ensures events[0].Empty? ==> k == 0 && IsElement(root, events[0].tag, events[0].attributes, [])
    ensures events[0].Start? ==>
      && 1 <= k && events[k] == End(events[0].tag)
      && IsElement(root, events[0].tag, events[0].attributes, root.children)
      && Spells(events[1..k], root.children, space)
  {
    assert [Child(root)][1..] == [];
    if events[0].Empty? {
      k := 0;
    } else {
      k :| 1 <= k < |events| && events[k] == End(events[0].tag)
        && IsElement(root, events[0].tag, events[0].attributes, root.children)
        && Spells(events[1..k], root.children, space) && Spells(events[k + 1..], [Child(root)][1..], space);
    }
  }

  // An element alone, read where there is no root yet.
  lemma RootIsRead(events: seq<Event>, root: Element, space: char -> bool)
    requires events != [] && (events[0].Start? || events[0].Empty?) && Spells(events, [Child(root)], space)
    ensures Steps(Reader([], None), events, space) == Ok(Reader([], Some(root)))
  {
    var start := Reader([], None);
    var k := SpelledAlone(events, root, space);
    NothingSpelled(events[k + 1..], space);
    OutsideIsSkipped(events[k + 1..], Some(root), space);
    if events[0].Empty? {
      OpenedExactly(events[0].tag, events[0].attributes, root);
    } else {
      SpelledIsRead(events[1..k], root.children, OpenReader(start, root), space);
      ElementIsRead(events, k, root, start, space);
    }
  }

  lemma {:induction false} NothingSpelled(events: seq<Event>, space: char -> bool)
    requires Spells(events, [], space)
    ensures Outside(events, space)
    decreases |events|
  {
    if events != [] {
      NothingSpelled(events[1..], space);
      assert events == [events[0]] + events[1..];
    }
  }

  lemma DocumentIsRead(events: seq<Event>, root: Element, space: char -> bool)
    requires IsDocument(events, root, space)
    ensures Steps(Reader([], None), events, space) == Ok(Reader([], Some(root)))
  {
    var i: nat, j: nat :| IsRootAt(events, i, j, root, space);
    var start := Reader([], None);
    assert events == events[..i] + (events[i..j] + events[j..]);
    StepsAppend(start, events[..i], events[i..j] + events[j..], space);
    OutsideIsSkipped(events[..i], None, space);
    StepsAppend(start, events[i..j], events[j..], space);
    RootIsRead(events[i..j], root, space);
    OutsideIsSkipped(events[j..], Some(root), space);
  }

  // Once there is a root, nothing but what may stand outside is read.
  lemma {:induction false} BehindRoot(events: seq<Event>, root: Element, final: Reader, space: char -> bool)
    requires Steps(Reader([], Some(root)), events, space) == Ok(final) && final.stack == []
    ensures Outside(events, space) && final.root == Some(root)
    decreases |events|
  {
    if events != [] {
      var reader, event := Reader([], Some(root)), events[0];
      if event.Start? {
        var k, e := ElementWhere(reader, events, final, space);
        assert false;
      }
      if event.Run? {
        RunExactly(event, space);
      }
      BehindRoot(events[1..], root, final, space);
      assert events == [event] + events[1..];
    }
  }

  lemma EmptyAlone(event: Event, e: Element, space: char -> bool)
    requires event.Empty? && IsElement(e, event.tag, event.attributes, [])
    ensures Spells([event], [Child(e)], space)
  {
    LeafBefore(event, Child(e), [], [], space);
    assert [event] + [] == [event] && [Child(e)] + [] == [Child(e)];
  }

  lemma ElementAlone(start: Event, e: Element, inner: seq<Event>, space: char -> bool)
    requires start.Start? && IsElement(e, start.tag, start.attributes, e.children) && Spells(inner, e.children, space)
    ensures Spells([start] + inner + [End(start.tag)], [Child(e)], space)
  {
    var events := [start] + inner + [End(start.tag)];
    ElementBefore(start, e, inner, [], [], space);
    assert events + [] == events && [Child(e)] + [] == [Child(e)];
  }

  // The root comes first.
  lemma RootFirst(events: seq<Event>, final: Reader, space: char -> bool) returns (j: nat, root: Element)
    requires Steps(Reader([], None), events, space) == Ok(final) && final.stack == []
    requires events != [] && (events[0].Start? || events[0].Empty?)
    ensures 0 < j <= |events| && Outside(events[j..], space) && Spells(events[..j], [Child(root)], space)
    ensures final.root == Some(root)
  {
    var event := events[0];
    if event.Start? {
      var k, e := ElementWhere(Reader([], None), events, final, space);
      j, root := k + 1, e;
      ElementAlone(event, e, events[1..k], space);
      assert events[..j] == [event] + events[1..k] + [End(event.tag)];
    } else {
      root := Opened(event.tag, event.attributes).value;
      OpenedExactly(event.tag, event.attributes, root);
      j := 1;
      EmptyAlone(event, root, space);
      assert events[..j] == [event];
    }
    BehindRoot(events[j..], root, final, space);
  }

  lemma OneLater(event: Event, rest: seq<Event>, i: nat, j: nat, root: Element, space: char -> bool)
    requires IsRootAt(rest, i, j, root, space) && Outside([event], space)
    ensures IsRootAt([event] + rest, i + 1, j + 1, root, space)
  {
    var events := [event] + rest;
    assert events[..i + 1] == [event] + rest[..i];
    assert events[i + 1..j + 1] == rest[i..j] && events[j + 1..] == rest[j..];
    assert [event][0] in [event];
  }

  // Where the root starts and ends.
  lemma {:induction false} RootWhere(events: seq<Event>, final: Reader, space: char -> bool)
    returns (i: nat, j: nat, root: Element)
    requires Steps(Reader([], None), events, space) == Ok(final) && final.stack == [] && final.root.Some?
    ensures IsRootAt(events, i, j, root, space) && final.root == Some(root)
    decreases |events|
  {
    var event := events[0];
    if event.Start? || event.Empty? {
      i := 0;
      j, root := RootFirst(events, final, space);
      assert events[0..j] == events[..j];
    } else {
      if event.Run? {
        RunExactly(event, space);
      }
      i, j, root := RootWhere(events[1..], final, space);
      OneLater(event, events[1..], i, j, root, space);
      assert events == [event] + events[1..];
      i, j := i + 1, j + 1;
    }
  }

  /** An element and everything below it is named as it should be. */
  ghost predicate WellNamed(e: Element, named: string -> bool)
    decreases e
  {
    && named(e.tag)
    && (forall key :: key in e.attributes ==> named(key))
    && forall child :: child in e.children && child.Child? ==> WellNamed(child.element, named)
  }

  lemma {:induction false} SpelledIsValid(
    events: seq<Event>, children: seq<Content>, space: char -> bool, named: string -> bool)
    requires Spells(events, children, space)
    ensures forall child :: child in children && child.Child? ==>
      (Valid(child.element, named) <==> WellNamed(child.element, named))
    decreases |events|
  {
    if events != [] {
      var event := events[0];
      if event == Prolog || BlankRun(event, space) {
        SpelledIsValid(events[1..], children, space, named);
      } else {
        assert children == [children[0]] + children[1..];
        if event.Start? {
          var e := children[0].element;
          var k :| 1 <= k < |events| && events[k] == End(event.tag)
            && IsElement(e, event.tag, event.attributes, e.children)
            && Spells(events[1..k], e.children, space) && Spells(events[k + 1..], children[1..], space);
          IdentityUnique(e);
          SpelledIsValid(events[1..k], e.children, space, named);
          SpelledIsValid(events[k + 1..], children[1..], space, named);
        } else {
          if event.Empty? {
            IdentityUnique(children[0].element);
          }
          SpelledIsValid(events[1..], children[1..], space, named);
        }
      }
    }
  }

  /**
   * Parsing succeeds with a tree if and only if the events are a document of
   * that tree and every name in it is allowed.
   */
  lemma ParsedExactly(events: seq<Event>, space: char -> bool, named: string -> bool, root: Element)
    ensures Parsed(events, space, named) == Ok(root) <==> IsDocument(events, root, space) && WellNamed(root, named)
  {
    var read := Steps(Reader([], None), events, space);
    if IsDocument(events, root, space) {
      DocumentIsRead(events, root, space);
    }
    if read.Ok? && read.value.stack == [] && read.value.root == Some(root) {
      var i, j, found := RootWhere(events, read.value, space);
      assert IsDocument(events, root, space);
      SpelledIsValid(events[i..j], [Child(root)], space, named);
      assert Child(root) in [Child(root)];
    }
  }
}
