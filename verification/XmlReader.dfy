/** Reading the text of a tag again: a reader of XML that knows nothing of the serialisers, and what it makes of
    the text that they write (src/xml_tag.cpp:168-200, src/xmlwriter.cpp:79-113, 157-262). */
module XmlReader {
  import opened Wrappers
  import opened XmlTrees
  import opened XmlText
  import opened XmlStanzas
  import opened XmlTags
  import opened XmlWriters
  import opened Seqs

  // ----- The reader

  /** The characters that end a name. */
  predicate Mark(c: char) { c in {' ', '/', '<', '>', '=', '"'} }

  function NameOf(text: string): (name: string)
    ensures name <= text
  {
    if text == "" || Mark(text[0]) then "" else [text[0]] + NameOf(text[1..])
  }

  /** What comes before the first c. */
  function UpTo(text: string, c: char): (t: string)
    ensures t <= text
  {
    if text == "" || text[0] == c then "" else [text[0]] + UpTo(text[1..], c)
  }

  /** Attributes, each behind a blank, and what follows them. */
  function ReadAttributes(text: string): (r: Option<(Attributes, string)>)
    ensures r.Some? ==> |r.value.1| <= |text|
    decreases |text|
  {
    if text == "" || text[0] != ' ' || " /" <= text then Some(([], text))
    else
      var name := NameOf(text[1..]);
      var after := text[1 + |name|..];
      if !("=\"" <= after) then None
      else
        var value := UpTo(after[2..], '"');
        if |value| == |after| - 2 then None
        else
          match ReadAttributes(after[|value| + 3..])
          case None => None
          case Some((more, rest)) => Some(([(name, Unescape(value))] + more, rest))
  }

  /** Prefix and local name, parted by the first colon. */
  function Parted(full: string): (string, string) {
    var prefix := UpTo(full, ':');
    if prefix == full then ("", full) else (prefix, full[|prefix| + 1..])
  }

  /** One element, and what follows it. */
  function ReadElement(text: string): (r: Option<(Plain, string)>)
    ensures r.Some? ==> |r.value.1| < |text|
    decreases |text|, 0
  {
    if !("<" <= text) then None
    else
      var full := NameOf(text[1..]);
      var (prefix, name) := Parted(full);
      match ReadAttributes(text[1 + |full|..])
      case None => None
      case Some((attributes, after)) =>
        if " />" <= after then Some((Element((), prefix, name, attributes, []), after[3..]))
        else if ">" <= after then
          match ReadNodes(after[1..])
          case None => None
          case Some((nodes, tail)) =>
            var end := "</" + full + ">";
            if end <= tail then Some((Element((), prefix, name, attributes, nodes), tail[|end|..])) else None
        else None
  }

  /** Nodes up to an end tag. */
  function ReadNodes(text: string): (r: Option<(seq<Node<()>>, string)>)
    ensures r.Some? ==> |r.value.1| <= |text|
    decreases |text|, 1
  {
    if text == "" || "</" <= text then Some(([], text))
    else if text[0] == '<' then
      match ReadElement(text)
      case None => None
      case Some((e, after)) => Before(Child(e), ReadNodes(after))
    else
      var cdata := UpTo(text, '<');
      Before(Text(Unescape(cdata)), ReadNodes(text[|cdata|..]))
  }

  function Before(node: Node<()>, r: Option<(seq<Node<()>>, string)>): Option<(seq<Node<()>>, string)> {
    match r
    case None => None
    case Some((nodes, rest)) => Some(([node] + nodes, rest))
  }

  /** A whole document. */
  function Read(text: string): Option<Plain> {
    match ReadElement(text)
    case Some((e, "")) => Some(e)
    case _ => None
  }

  // ----- What can be read back

  predicate Unmarked(name: string) { forall c <- name :: !Mark(c) }

  /** No name holds markup. */
  predicate Readable<I>(e: Element<I>)
    decreases e, 1
  {
    && Unmarked(e.prefix) && Unmarked(e.name) && ':' !in e.prefix && (e.prefix == "" ==> ':' !in e.name)
    && (forall a <- e.attributes :: Unmarked(a.0))
    && AllReadable(e.nodes)
  }

  predicate AllReadable<I>(nodes: seq<Node<I>>)
    decreases nodes, 0
  {
    nodes == [] || (NodeReadable(nodes[0]) && AllReadable(nodes[1..]))
  }

  predicate NodeReadable<I>(node: Node<I>)
    decreases node, 0
  {
    match node
    case Child(k) => Readable(k)
    case Text(_) => true
  }

  /** Text that is not parted by an element is one text, and no text is none. */
  function Merged<I>(nodes: seq<Node<I>>): seq<Node<()>>
    decreases nodes, 0
  {
    if nodes == [] then [] else Joined(nodes[0], Merged(nodes[1..]))
  }

  function Joined<I>(node: Node<I>, more: seq<Node<()>>): seq<Node<()>>
    decreases node, 0
  {
    match node
    case Child(k) => [Child(MergedElement(k))] + more
    case Text(cdata) =>
      if cdata == "" then more
      else if more != [] && more[0].Text? then [Text(cdata + more[0].cdata)] + more[1..]
      else [Text(cdata)] + more
  }

  function MergedElement<I>(e: Element<I>): Plain
    decreases e, 1
  {
    Element((), e.prefix, e.name, e.attributes, Merged(e.nodes))
  }

  // ----- Scanning

  lemma {:induction false} NameEnds(name: string, rest: string)
    requires Unmarked(name) && (rest == "" || Mark(rest[0]))
    ensures NameOf(name + rest) == name
  {
    if name == "" {
      assert name + rest == rest;
    } else {
      NameEnds(name[1..], rest);
      assert (name + rest)[1..] == name[1..] + rest;
    }
  }

  lemma {:induction false} UpToGoesOn(a: string, b: string, c: char)
    requires c !in a
    ensures UpTo(a + b, c) == a + UpTo(b, c)
  {
    if a == "" {
      assert a + b == b;
    } else {
      UpToGoesOn(a[1..], b, c);
      assert (a + b)[1..] == a[1..] + b;
    }
  }

  lemma UpToMark(a: string, b: string, c: char)
    requires c !in a && b != "" && b[0] == c
    ensures UpTo(a + b, c) == a
  {
    UpToGoesOn(a, b, c);
  }

  lemma {:induction false} FirstAttribute(attributes: Attributes)
    requires attributes != []
    ensures AttributesText(attributes) == AttributeText(attributes[0]) + AttributesText(attributes[1..])
  {
    hide AttributeText;
    var n := |attributes| - 1;
    if n == 0 {
      assert attributes[..0] == attributes[1..] == [];
      Empty(AttributeText(attributes[0]));
    } else {
      FirstAttribute(attributes[..n]);
      assert attributes[..n][1..] == attributes[1..][..n - 1];
      Assoc(AttributeText(attributes[0]), AttributesText(attributes[1..][..n - 1]), AttributeText(attributes[n]));
    }
  }

  lemma {:induction false} FirstNode<I>(nodes: seq<Node<I>>)
    requires nodes != []
    ensures NodesXml(nodes) == NodeXml(nodes[0]) + NodesXml(nodes[1..])
  {
    var n := |nodes| - 1;
    if n == 0 {
      assert nodes[..0] == nodes[1..] == [];
      Empty(NodeXml(nodes[0]));
    } else {
      FirstNode(nodes[..n]);
      assert nodes[..n][1..] == nodes[1..][..n - 1];
      Assoc(NodeXml(nodes[0]), NodesXml(nodes[1..][..n - 1]), NodeXml(nodes[n]));
    }
  }

  lemma PartedAgain<I>(e: Element<I>)
    requires ':' !in e.prefix && (e.prefix == "" ==> ':' !in e.name)
    ensures Parted(FullName(e)) == (e.prefix, e.name)
  {
    if e.prefix == "" {
      UpToGoesOn(e.name, "", ':');
      Empty(e.name);
    } else {
      Assoc(e.prefix, ":", e.name);
      UpToMark(e.prefix, ":" + e.name, ':');
      assert FullName(e)[|e.prefix| + 1..] == e.name;
    }
  }

  lemma UnescapeAll(text: string)
    ensures Unescape(Escape(text)) == text
  {
    UnescapeEscape(text, "");
    Empty(Escape(text));
    Empty(text);
  }

  // ----- Attributes

  lemma {:induction false} AttributesAreRead(attributes: Attributes, rest: string)
    requires forall a <- attributes :: Unmarked(a.0)
    requires rest != "" && (rest[0] != ' ' || " /" <= rest)
    ensures ReadAttributes(AttributesText(attributes) + rest) == Some((attributes, rest))
  {
    if attributes == [] {
      assert AttributesText(attributes) + rest == rest;
    } else {
      var first, more := attributes[0], AttributesText(attributes[1..]) + rest;
      FirstAttribute(attributes);
      AttributesAreRead(attributes[1..], rest);
      Assoc(AttributeText(first), AttributesText(attributes[1..]), rest);
      OneAttributeIsRead(first, more);
      assert attributes == [first] + attributes[1..];
    }
  }

  lemma OneAttributeIsRead(a: (string, string), more: string)
    requires Unmarked(a.0)
    ensures ReadAttributes(AttributeText(a) + more) ==
            match ReadAttributes(more)
            case None => None
            case Some((attributes, rest)) => Some(([a] + attributes, rest))
  {
    hide Unescape, Escape, NameOf, UpTo;
    var text, v := AttributeText(a) + more, Escape(a.1);
    NameLies(a.0, v, more);
    var after := text[1 + |a.0|..];
    ValueLies(v, more);
    EscapeHidesMarkup(a.1, '"');
    UpToMark(v, "\"" + more, '"');
    UnescapeAll(a.1);
  }

  lemma NameLies(name: string, v: string, more: string)
    requires Unmarked(name)
    ensures var text := (" " + name + "=\"" + v + "\"") + more;
            && text[0] == ' ' && !(" /" <= text)
            && NameOf(text[1..]) == name && text[1 + |name|..] == "=\"" + v + "\"" + more
  {
    var text, after := (" " + name + "=\"" + v + "\"") + more, "=\"" + v + "\"" + more;
    assert text[1..] == name + after;
    assert text[1 + |name|..] == after;
    NameEnds(name, after);
    assert text[1] != '/' by {
      assert text[1] == (name + after)[0];
    }
  }

  lemma ValueLies(v: string, more: string)
    ensures var after := "=\"" + v + "\"" + more;
            "=\"" <= after && after[2..] == v + ("\"" + more) && after[|v| + 3..] == more
  {
  }

  // ----- Nodes

  /** A text joins whatever text comes next. */
  lemma TextIsRead(cdata: string, more: string, nodes: seq<Node<()>>, rest: string)
    requires ReadNodes(more) == Some((nodes, rest)) && more != ""
    ensures ReadNodes(Escape(cdata) + more) == Some((Joined<()>(Text(cdata), nodes), rest))
  {
    hide Unescape, Escape, ReadElement, UpTo;
    if cdata == "" {
      NoText(more);
    } else {
      var t := UpTo(more, '<');
      TextBegins(cdata, more);
      EscapeHidesMarkup(cdata, '<');
      UpToGoesOn(Escape(cdata), more, '<');
      assert (Escape(cdata) + more)[|Escape(cdata) + t|..] == more[|t|..];
      UnescapeEscape(cdata, t);
      if more[0] == '<' {
        assert t == "" by {
          UpToNothing(more, '<');
        }
        assert more[|t|..] == more;
        UnescapeNothing();
        Empty(cdata);
      }
    }
  }

  lemma NoText(more: string)
    ensures Escape("") + more == more
  {
  }

  lemma UnescapeNothing()
    ensures Unescape("") == ""
  {
  }

  lemma UpToNothing(text: string, c: char)
    requires text != "" && text[0] == c
    ensures UpTo(text, c) == ""
  {
  }

  lemma TextBegins(cdata: string, more: string)
    requires cdata != ""
    ensures var text := Escape(cdata) + more; text != "" && text[0] != '<'
  {
    EscapeHidesMarkup(cdata, '<');
    EscapeTakesRoom(cdata);
    assert Escape(cdata)[0] in Escape(cdata);
  }

  lemma EscapeTakesRoom(text: string)
    requires text != ""
    ensures Escape(text) != ""
  {
  }

  lemma ElementBegins<I>(e: Element<I>, more: string)
    requires Readable(e)
    ensures var text := Xml(e) + more; text != "" && text[0] == '<' && !("</" <= text)
  {
    hide AttributesText, NodesXml;
    var tail := if e.nodes == [] then " />" else ">" + NodesXml(e.nodes) + "</" + FullName(e) + ">";
    var text := Xml(e) + more;
    var inner := FullName(e) + AttributesText(e.attributes) + tail;
    assert Xml(e) == "<" + inner;
    assert inner[0] != '/' by {
      InnerBegins(e, tail);
    }
    assert text[1] == inner[0];
  }

  lemma InnerBegins<I>(e: Element<I>, tail: string)
    requires Readable(e) && (" />" <= tail || ">" <= tail)
    ensures var inner := FullName(e) + AttributesText(e.attributes) + tail; inner != "" && inner[0] != '/'
  {
    hide AttributesText, Readable;
    NameUnmarked(e);
    AttributesBegin(e.attributes);
    var inner := FullName(e) + AttributesText(e.attributes) + tail;
    if FullName(e) != "" {
      assert inner[0] == FullName(e)[0];
      assert FullName(e)[0] in FullName(e);
    } else if e.attributes != [] {
      assert inner[0] == AttributesText(e.attributes)[0];
    } else {
      assert inner == tail;
      assert tail[0] == if " />" <= tail then ' ' else '>';
    }
  }

  lemma NameUnmarked<I>(e: Element<I>)
    requires Readable(e)
    ensures Unmarked(FullName(e)) && forall a <- e.attributes :: Unmarked(a.0)
  {
  }

  lemma AttributesBegin(attributes: Attributes)
    ensures if attributes == [] then AttributesText(attributes) == ""
            else AttributesText(attributes) != "" && AttributesText(attributes)[0] == ' '
  {
    if attributes != [] {
      FirstAttribute(attributes);
    }
  }

  lemma {:induction false} NodesAreRead<I>(nodes: seq<Node<I>>, rest: string)
    requires AllReadable(nodes) && "</" <= rest
    ensures ReadNodes(NodesXml(nodes) + rest) == Some((Merged(nodes), rest))
    decreases nodes, 0
  {
    hide NodeXml, NodeReadable, ReadNodes, Joined;
    if nodes == [] {
      NothingLeft(rest);
      assert NodesXml(nodes) + rest == rest;
    } else {
      var more := NodesXml(nodes[1..]) + rest;
      FirstNode(nodes);
      NodesAreRead(nodes[1..], rest);
      Assoc(NodeXml(nodes[0]), NodesXml(nodes[1..]), rest);
      assert more != "" by {
        assert |more| >= |rest| >= 2;
      }
      NodeIsRead(nodes[0], more, Merged(nodes[1..]), rest);
    }
  }

  lemma NothingLeft(rest: string)
    requires "</" <= rest
    ensures ReadNodes(rest) == Some(([], rest))
  {
  }

  lemma {:induction false} NodeIsRead<I>(node: Node<I>, more: string, nodes: seq<Node<()>>, rest: string)
    requires NodeReadable(node) && ReadNodes(more) == Some((nodes, rest)) && more != ""
    ensures ReadNodes(NodeXml(node) + more) == Some((Joined(node, nodes), rest))
    decreases node, 0
  {
    hide Xml, ReadElement, Escape, Readable, MergedElement;
    match node
    case Child(k) =>
      ElementIsRead(k, more);
      ElementBegins(k, more);
    case Text(cdata) =>
      TextIsRead(cdata, more, nodes, rest);
  }

  lemma {:induction false} ElementIsRead<I>(e: Element<I>, rest: string)
    requires Readable(e)
    ensures ReadElement(Xml(e) + rest) == Some((MergedElement(e), rest))
    decreases e, 1
  {
    hide AttributesText, NodesXml, Readable, NameOf, Parted, ReadNodes, ReadAttributes, Merged;
    var full, attributes := FullName(e), AttributesText(e.attributes);
    NameUnmarked(e);
    PartedSo(e);
    AttributesBegin(e.attributes);
    if e.nodes == [] {
      ElementLies(full, attributes, " />", rest);
      AttributesAreRead(e.attributes, " />" + rest);
      assert Merged(e.nodes) == [] by {
        NothingMerged(e.nodes);
      }
    } else {
      var end := "</" + full + ">";
      var tail := ">" + NodesXml(e.nodes) + "</" + full + ">";
      ElementLies(full, attributes, tail, rest);
      AttributesAreRead(e.attributes, tail + rest);
      ContentLies(NodesXml(e.nodes), end, full, rest);
      NodesReadable(e);
      NodesAreRead(e.nodes, end + rest);
      assert (end + rest)[|end|..] == rest;
    }
  }

  lemma NothingMerged<I>(nodes: seq<Node<I>>)
    requires nodes == []
    ensures Merged(nodes) == []
  {
  }

  lemma NodesReadable<I>(e: Element<I>)
    requires Readable(e)
    ensures AllReadable(e.nodes)
  {
  }

  lemma PartedSo<I>(e: Element<I>)
    requires Readable(e)
    ensures Parted(FullName(e)) == (e.prefix, e.name)
  {
    PartedAgain(e);
  }

  lemma ContentLies(inner: string, end: string, full: string, rest: string)
    requires end == "</" + full + ">"
    ensures var text := (">" + inner + "</" + full + ">") + rest;
            && ">" <= text && !(" />" <= text) && text[1..] == inner + (end + rest)
            && "</" <= end + rest && end <= end + rest
  {
    var text := (">" + inner + "</" + full + ">") + rest;
    assert text[0] == '>';
    assert (" />")[0] == ' ';
    assert text[1..] == inner + (end + rest);
  }

  lemma ElementLies(full: string, attributes: string, tail: string, rest: string)
    requires Unmarked(full) && (" />" <= tail || ">" <= tail) && (attributes == "" || attributes[0] == ' ')
    ensures var text := ("<" + full + attributes + tail) + rest;
            "<" <= text && NameOf(text[1..]) == full && text[1 + |full|..] == attributes + (tail + rest)
  {
    var text := ("<" + full + attributes + tail) + rest;
    var after := attributes + (tail + rest);
    assert text[1..] == full + after;
    assert text[1 + |full|..] == after;
    assert tail[0] == ' ' || tail[0] == '>' by {
      assert " />" <= tail ==> tail[0] == ' ';
      assert ">" <= tail ==> tail[0] == '>';
    }
    NameEnds(full, after);
  }

  // ----- When what is read is what was written

  /** No text is empty, and no two texts are neighbours. */
  predicate Neat<I>(e: Element<I>)
    decreases e, 1
  {
    AllNeat(e.nodes)
  }

  predicate AllNeat<I>(nodes: seq<Node<I>>)
    decreases nodes, 0
  {
    nodes == [] || (NodeNeat(nodes[0]) && (nodes[0].Text? && |nodes| > 1 ==> nodes[1].Child?) && AllNeat(nodes[1..]))
  }

  predicate NodeNeat<I>(node: Node<I>)
    decreases node, 0
  {
    match node
    case Child(k) => Neat(k)
    case Text(cdata) => cdata != ""
  }

  lemma {:induction false} FirstErased<I>(nodes: seq<Node<I>>)
    requires nodes != []
    ensures EraseAll(nodes) == [EraseNode(nodes[0])] + EraseAll(nodes[1..]) && |EraseAll(nodes)| == |nodes|
  {
    hide EraseNode;
    var n := |nodes| - 1;
    if n == 0 {
      assert nodes[..0] == nodes[1..] == [];
    } else {
      FirstErased(nodes[..n]);
      assert nodes[..n][1..] == nodes[1..][..n - 1];
      assert nodes[..n][0] == nodes[0] && nodes[1..][n - 1] == nodes[n];
    }
  }

  lemma {:induction false} MergedExactly<I>(nodes: seq<Node<I>>)
    ensures |Merged(nodes)| <= |nodes| && (Merged(nodes) == EraseAll(nodes) <==> AllNeat(nodes))
    decreases nodes, 0
  {
    if nodes != [] {
      var rest := nodes[1..];
      MergedExactly(rest);
      FirstErased(nodes);
      if rest != [] {
        FirstErased(rest);
      }
      JoinedExactly(nodes[0], rest);
    }
  }

  lemma {:induction false} JoinedExactly<I>(node: Node<I>, rest: seq<Node<I>>)
    requires |Merged(rest)| <= |rest| == |EraseAll(rest)|
    requires rest != [] ==> EraseAll(rest)[0].Child? == rest[0].Child?
    ensures var joined := Joined(node, Merged(rest));
            && |joined| <= |rest| + 1
            && (joined == [EraseNode(node)] + EraseAll(rest) <==>
                Merged(rest) == EraseAll(rest) && NodeNeat(node) && (node.Text? && rest != [] ==> rest[0].Child?))
    decreases node, 0
  {
    hide Merged, EraseAll, MergedElement, Erase, Neat;
    var joined, more := Joined(node, Merged(rest)), Merged(rest);
    match node
    case Child(k) =>
      ElementExactly(k);
      assert joined[1..] == more && ([EraseNode(node)] + EraseAll(rest))[1..] == EraseAll(rest);
      assert joined[0] == Child(MergedElement(k)) && ([EraseNode(node)] + EraseAll(rest))[0] == Child(Erase(k));
    case Text(cdata) =>
      assert ([EraseNode(node)] + EraseAll(rest))[1..] == EraseAll(rest);
      if cdata != "" && (more == [] || more[0].Child?) {
        assert joined[1..] == more;
      }
  }

  lemma {:induction false} ElementExactly<I>(e: Element<I>)
    ensures MergedElement(e) == Erase(e) <==> Neat(e)
    decreases e, 1
  {
    MergedExactly(e.nodes);
  }

  /** Reading the text of a tag gives its prefixes, names, attributes and texts, with neighbouring texts in one,
      for all contents and attribute values. */
  lemma ReadsMerged<I>(e: Element<I>)
    requires Readable(e)
    ensures Read(Xml(e)) == Some(MergedElement(e))
  {
    ElementIsRead(e, "");
    Empty(Xml(e));
  }

  /** What is read is the tag that was written, exactly if no text is empty and no two texts are neighbours. */
  lemma ReadsBack<I>(e: Element<I>)
    requires Readable(e)
    ensures Read(Xml(e)) == Some(Erase(e)) <==> Neat(e)
  {
    ReadsMerged(e);
    ElementExactly(e);
  }

  /** toString of a tag object, read again. */
  method PrintedIsRead(tag: Tag, ghost s: Shape, ghost region: set<Tag>) returns (xml: string)
    requires s.id == tag && Represents(s, region) && Readable(s)
    ensures Read(xml) == Some(MergedElement(s)) && (Read(xml) == Some(Erase(s)) <==> Neat(s))
  {
    hide Read, MergedElement, Erase, Neat, Readable, Represents;
    xml := ToString(tag, s, region);
    ReadsMerged(s);
    ReadsBack(s);
  }

  /** What a writer sends, in whatever chunks, read again. */
  method StreamedIsRead<I>(size: nat, e: Element<I>) returns (w: XmlWriter)
    requires size > 0 && AllSorted(e) && Readable(e)
    ensures fresh(w) && Read(Flat(w.chunks)) == Some(MergedElement(e))
    ensures Read(Flat(w.chunks)) == Some(Erase(e)) <==> Neat(e)
  {
    hide Read, MergedElement, Erase, Neat, Readable, AllSorted;
    w := Stream(size, e);
    ReadsMerged(e);
    ReadsBack(e);
  }
}
