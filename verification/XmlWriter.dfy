/** XMLWriter: text collected in a buffer and handed on in chunks (src/xmlwriter.cpp). */
module XmlWriters {
  import opened XmlTrees
  import opened XmlText
  import opened Seqs

  // ----- The writer without its buffer

  /** All text so far, whether a start tag is still open, and its attributes. */
  datatype Sheet = Sheet(text: string, isOpen: bool, attributes: Attributes)

  function Completed(w: Sheet): Sheet {
    if w.isOpen then Sheet(w.text + AttributesText(w.attributes) + ">", false, []) else w
  }

  function Started(w: Sheet, tag: string): Sheet { Sheet(Completed(w).text + "<" + tag, true, []) }

  function Characters(w: Sheet, cdata: string): Sheet {
    Completed(w).(text := Completed(w).text + Escape(cdata))
  }

  function Ended(w: Sheet, tag: string): Sheet {
    if w.isOpen then Sheet(w.text + AttributesText(w.attributes) + " />", false, [])
    else w.(text := w.text + "</" + tag + ">")
  }

  /** The events of a tree, in order. */
  function Written<I>(w: Sheet, e: Element<I>): Sheet
    decreases e, 1
  {
    Ended(WrittenNodes(Started(w, FullName(e)).(attributes := e.attributes), e.nodes), FullName(e))
  }

  function WrittenNodes<I>(w: Sheet, nodes: seq<Node<I>>): Sheet
    decreases nodes, 0
  {
    if nodes == [] then w
    else
      var n := |nodes| - 1;
      WrittenNode(WrittenNodes(w, nodes[..n]), nodes[n])
  }

  function WrittenNode<I>(w: Sheet, node: Node<I>): Sheet
    decreases node, 0
  {
    match node
    case Child(k) => Written(w, k)
    case Text(cdata) => Characters(w, cdata)
  }

  /** Writing the events of a tree adds the text of the tree, whatever was open before. */
  lemma {:induction false} WritesText<I>(w: Sheet, e: Element<I>)
    ensures Written(w, e).text == Completed(w).text + Xml(e)
    ensures !Written(w, e).isOpen
    decreases e, 1
  {
    hide AttributesText, FullName, NodesXml;
    var s := Started(w, FullName(e)).(attributes := e.attributes);
    WritesNodes(s, e.nodes);
    var t, name, attributes := Completed(w).text, FullName(e), AttributesText(e.attributes);
    if e.nodes == [] {
      GlueEmpty(t, "<", name, attributes, " />");
    } else {
      GlueFull(t, "<", name, attributes, ">", NodesXml(e.nodes), "</");
    }
  }

  lemma GlueEmpty(t: string, a: string, b: string, c: string, d: string)
    ensures (t + a + b) + c + d == t + (a + b + c + d)
  {
  }

  lemma GlueFull(t: string, a: string, b: string, c: string, d: string, e: string, f: string)
    ensures ((t + a + b) + c + d) + e + f + b + d == t + (a + b + c + (d + e + f + b + d))
  {
  }

  lemma {:induction false} WritesNodes<I>(w: Sheet, nodes: seq<Node<I>>)
    ensures nodes != [] ==> WrittenNodes(w, nodes).text == Completed(w).text + NodesXml(nodes)
    ensures nodes != [] ==> !WrittenNodes(w, nodes).isOpen
    decreases nodes, 0
  {
    if nodes != [] {
      var n := |nodes| - 1;
      WritesNodes(w, nodes[..n]);
      var v := WrittenNodes(w, nodes[..n]);
      WritesNode(v, nodes[n]);
      Empty(Completed(w).text);
      Assoc(Completed(w).text, NodesXml(nodes[..n]), NodeXml(nodes[n]));
    }
  }

  lemma {:induction false} WritesNode<I>(w: Sheet, node: Node<I>)
    ensures WrittenNode(w, node).text == Completed(w).text + NodeXml(node)
    ensures !WrittenNode(w, node).isOpen
    decreases node, 0
  {
    match node
    case Child(k) => WritesText(w, k);
    case Text(_) =>
  }

  // ----- The writer with its buffer

  function Flat(chunks: seq<string>): string {
    if chunks == [] then "" else Flat(chunks[..|chunks| - 1]) + chunks[|chunks| - 1]
  }

  class XmlWriter {
    const buffer: array<char>
    var buffered: nat
    var isOpen: bool
    var attributes: Attributes
    var stack: seq<string>
    var chunks: seq<string>     // the calls of onWriteXML

    constructor (size: nat)
      requires size > 0
      ensures Valid() && fresh(buffer) && buffer.Length == size && Paper() == Sheet("", false, [])
    {
      buffer := new char[size];
      buffered, isOpen, attributes, stack, chunks := 0, false, [], [], [];
    }

    /** Between calls the buffer is never full; a chunk is never empty and never larger than the buffer. */
    ghost predicate Valid()
      reads this
    {
      && buffered < buffer.Length
      && forall i :: 0 <= i < |chunks| ==> 0 < |chunks[i]| <= buffer.Length
    }

    ghost function Sent(): string
      reads this, buffer
      requires buffered <= buffer.Length
    {
      Flat(chunks) + buffer[..buffered]
    }

    ghost function Paper(): Sheet
      reads this, buffer
      requires buffered <= buffer.Length
    {
      Sheet(Sent(), isOpen, attributes)
    }

    method FlushBuffer()
      requires buffered <= buffer.Length && 0 < buffer.Length
      requires forall i :: 0 <= i < |chunks| ==> 0 < |chunks[i]| <= buffer.Length
      modifies `buffered, `chunks
      ensures Valid() && buffered == 0 && Sent() == old(Sent()) && Flat(chunks) == Sent()
    {
      if buffered > 0 {
        Snoc(chunks, buffer[..buffered]);
        chunks := chunks + [buffer[..buffered]];
        buffered := 0;
      }
      assert buffer[..0] == [];
    }

    /** memcpy(outbuf + buffered, buf, chunk) */
    method CopyIn(data: string)
      requires buffered + |data| <= buffer.Length
      modifies buffer, `buffered
      ensures buffered == old(buffered) + |data| && buffer[..buffered] == old(buffer[..buffered]) + data
    {
      ghost var before := buffer[..buffered];
      forall i | 0 <= i < |data| {
        buffer[buffered + i] := data[i];
      }
      buffered := buffered + |data|;
      assert buffer[..buffered] == before + data;
    }

    method Output(data: string)
      requires Valid()
      modifies buffer, `buffered, `chunks
      ensures Valid() && Sent() == old(Sent()) + data
    {
      ghost var before := Sent();
      var at := 0;
      Empty(before);
      while at < |data|
        invariant at <= |data| && Valid() && Sent() == before + data[..at]
      {
        var chunk := if |data| - at < buffer.Length - buffered then |data| - at else buffer.Length - buffered;
        Assoc(Flat(chunks), buffer[..buffered], data[at..at + chunk]);
        Assoc(before, data[..at], data[at..at + chunk]);
        assert data[..at] + data[at..at + chunk] == data[..at + chunk];
        CopyIn(data[at..at + chunk]);
        at := at + chunk;
        if buffered == buffer.Length {
          FlushBuffer();
        }
      }
      assert data[..at] == data;
    }

    method WriteAttributes()
      requires Valid()
      modifies buffer, `buffered, `chunks, `attributes
      ensures Valid() && Sent() == old(Sent()) + AttributesText(old(attributes)) && attributes == []
    {
      ghost var before := Sent();
      var i := 0;
      Empty(before);
      while i < |attributes|
        invariant i <= |attributes| && attributes == old(attributes)
        invariant Valid() && Sent() == before + AttributesText(attributes[..i])
      {
        assert attributes[..i + 1][..i] == attributes[..i];
        Assoc(before, AttributesText(attributes[..i]), AttributeText(attributes[i]));
        Output(AttributeText(attributes[i]));
        i := i + 1;
      }
      assert attributes[..i] == attributes;
      attributes := [];
    }

    /** compliteTag */
    method CompleteTag()
      requires Valid()
      modifies buffer, `buffered, `chunks, `attributes, `isOpen
      ensures Valid() && Paper() == Completed(old(Paper()))
    {
      if isOpen {
        WriteAttributes();
        Output(">");
        isOpen := false;
      }
    }

    method StartElement(tag: string)
      requires Valid()
      modifies this, buffer
      ensures Valid() && Paper() == Started(old(Paper()), tag) && stack == old(stack) + [tag]
    {
      CompleteTag();
      Assoc(Sent(), "<", tag);
      Output("<" + tag);
      attributes := [];
      stack := stack + [tag];
      isOpen := true;
    }

    method SetAttribute(name: string, value: string)
      requires Valid()
      modifies `attributes
      ensures Valid() && Paper() == old(Paper()).(attributes := Assign(old(attributes), name, value))
    {
      attributes := Assign(attributes, name, value);
    }

    method CharacterData(cdata: string)
      requires Valid()
      modifies buffer, `buffered, `chunks, `attributes, `isOpen
      ensures Valid() && Paper() == Characters(old(Paper()), cdata)
    {
      CompleteTag();
      Output(Escape(cdata));
    }

    method EndElement(tag: string)
      requires Valid()
      modifies buffer, `buffered, `chunks, `attributes, `isOpen
      ensures Valid() && Paper() == Ended(old(Paper()), tag)
    {
      if isOpen {
        WriteAttributes();
        Output(" />");
        isOpen := false;
      } else {
        CompleteTag();
        ghost var before := Sent();
        Output("</" + tag + ">");
        assert before + ("</" + tag + ">") == before + "</" + tag + ">";
      }
    }

    method Flush()
      requires Valid()
      modifies buffer, `buffered, `chunks, `attributes, `isOpen
      ensures Valid() && buffered == 0 && Flat(chunks) == Completed(old(Paper())).text
    {
      CompleteTag();
      FlushBuffer();
    }
  }

  predicate AllSorted<I>(e: Element<I>)
    decreases e, 1
  {
    Sorted(e.attributes) && NodesSorted(e.nodes)
  }

  predicate NodesSorted<I>(nodes: seq<Node<I>>)
    decreases nodes, 0
  {
    nodes == [] || var n := |nodes| - 1; NodesSorted(nodes[..n]) && NodeSorted(nodes[n])
  }

  predicate NodeSorted<I>(node: Node<I>)
    decreases node, 0
  {
    match node
    case Child(k) => AllSorted(k)
    case Text(_) => true
  }

  /** The events of a tree, sent to the writer. */
  method WriteElement<I>(w: XmlWriter, e: Element<I>)
    requires w.Valid() && AllSorted(e)
    modifies w, w.buffer
    ensures w.Valid() && w.Paper() == Written(old(w.Paper()), e)
    decreases e, 1
  {
    ghost var start := Started(w.Paper(), FullName(e));
    w.StartElement(FullName(e));
    var i := 0;
    while i < |e.attributes|
      invariant i <= |e.attributes| && w.Valid() && w.Paper() == start.(attributes := e.attributes[..i])
    {
      AssignNext(e.attributes, i);
      w.SetAttribute(e.attributes[i].0, e.attributes[i].1);
      i := i + 1;
    }
    assert e.attributes[..i] == e.attributes;
    WriteNodes(w, e.nodes);
    w.EndElement(FullName(e));
  }

  method WriteNodes<I>(w: XmlWriter, nodes: seq<Node<I>>)
    requires w.Valid() && NodesSorted(nodes)
    modifies w, w.buffer
    ensures w.Valid() && w.Paper() == WrittenNodes(old(w.Paper()), nodes)
    decreases nodes, 0
  {
    if nodes == [] {
      return;
    }
    var n := |nodes| - 1;
    WriteNodes(w, nodes[..n]);
    WriteNode(w, nodes[n]);
  }

  method WriteNode<I>(w: XmlWriter, node: Node<I>)
    requires w.Valid() && NodeSorted(node)
    modifies w, w.buffer
    ensures w.Valid() && w.Paper() == WrittenNode(old(w.Paper()), node)
    decreases node, 0
  {
    match node
    case Child(k) => WriteElement(w, k);
    case Text(cdata) => w.CharacterData(cdata);
  }

  /** Whatever the size of the buffer, the chunks put together are the text of the tag. */
  method Stream<I>(size: nat, e: Element<I>) returns (w: XmlWriter)
    requires size > 0 && AllSorted(e)
    ensures fresh(w) && Flat(w.chunks) == Xml(e)
    ensures forall i :: 0 <= i < |w.chunks| ==> 0 < |w.chunks[i]| <= size
  {
    w := new XmlWriter(size);
    WritesText(w.Paper(), e);
    WriteElement(w, e);
    Empty(Xml(e));
    w.Flush();
  }
}
