/** Cutting a stream of parser events into stanzas (src/controlstream.cpp:163-214, src/tagbuilder.cpp:11-55),
    on values, and what becomes of the stanzas after a lost connection (src/controlagent.cpp:146-170). */
module XmlStanzas {
  import opened Wrappers
  import opened XmlTrees
  import opened XmlText
  import opened Seqs

  type Plain = Element<()>

  datatype Event = Start(tag: string, attributes: Attributes) | Chars(cdata: string) | End(tag: string)

  // ----- Names

  function Colon(name: string, i: nat): (j: nat)
    requires i <= |name|
    ensures i <= j <= |name| && (forall k :: i <= k < j ==> name[k] != ':') && (j < |name| ==> name[j] == ':')
    decreases |name| - i
  {
    if i == |name| || name[i] == ':' then i else Colon(name, i + 1)
  }

  /** short int pos = name.find(":"): prefix and local name, or the exception of substr past the end. */
  function SplitName(name: string): Option<(string, string)> {
    var k := Colon(name, 0);
    var pos := k % 0x1_0000;
    if k == |name| || pos == 0xFFFF then Some(("", name))
    else if pos >= 0x8000 then None
    else Some((name[..pos], name[pos + 1..]))
  }

  /** The names that come apart as they were put together. */
  predicate PlainName<I>(e: Element<I>) {
    if e.prefix == "" then ':' !in e.name else ':' !in e.prefix && |e.prefix| < 0x8000
  }

  lemma NameIsSplit<I>(e: Element<I>)
    requires PlainName(e)
    ensures SplitName(FullName(e)) == Some((e.prefix, e.name))
  {
    var full := FullName(e);
    var k := Colon(full, 0);
    if e.prefix == "" {
      assert k == |full|;
    } else {
      assert full[|e.prefix|] == ':';
      assert forall i :: 0 <= i < |e.prefix| ==> full[i] == e.prefix[i];
      assert full[..|e.prefix|] == e.prefix && full[|e.prefix| + 1..] == e.name;
    }
  }

  predicate PlainNames<I>(nodes: seq<Node<I>>)
    decreases nodes, 0
  {
    nodes == [] || var n := |nodes| - 1; PlainNames(nodes[..n]) && PlainNode(nodes[n])
  }

  predicate PlainNode<I>(node: Node<I>)
    decreases node, 0
  {
    match node
    case Child(k) => PlainName(k) && PlainNames(k.nodes)
    case Text(_) => true
  }

  // ----- The events of a tree

  function Events<I>(e: Element<I>): seq<Event>
    decreases e, 1
  {
    [Start(FullName(e), e.attributes)] + EventsOf(e.nodes) + [End(FullName(e))]
  }

  function EventsOf<I>(nodes: seq<Node<I>>): seq<Event>
    decreases nodes, 0
  {
    if nodes == [] then [] else var n := |nodes| - 1; EventsOf(nodes[..n]) + NodeEvents(nodes[n])
  }

  function NodeEvents<I>(node: Node<I>): seq<Event>
    decreases node, 0
  {
    match node
    case Child(k) => Events(k)
    case Text(cdata) => [Chars(cdata)]
  }

  // ----- The splitter

  /** depth, the builder's stack and result, and the calls of onStanza, onStartStream and onEndStream. A null
      stanza is None. */
  datatype Splitter = Splitter(
    depth: int, stack: seq<Plain>, result: Option<Plain>, stanzas: seq<Option<Plain>>, begun: seq<(string, Attributes)>,
    ended: nat)

  function Push(s: Splitter, tag: string, attributes: Attributes): Option<Splitter> {
    match SplitName(tag)
    case None => None
    case Some((prefix, name)) => Some(s.(stack := s.stack + [Element((), prefix, name, attributes, [])]))
  }

  function AddNode(e: Plain, node: Node<()>): Plain { e.(nodes := e.nodes + [node]) }

  /** The builder's endElement: the top goes into the tag below it, or becomes the result. */
  function Pop(s: Splitter): Option<Splitter> {
    var n := |s.stack|;
    if n == 0 then None
    else if n == 1 then Some(s.(stack := [], result := Some(s.stack[0])))
    else Some(s.(stack := s.stack[..n - 2] + [AddNode(s.stack[n - 2], Child(s.stack[n - 1]))]))
  }

  function AddText(s: Splitter, cdata: string): Splitter {
    var n := |s.stack|;
    if n == 0 then s else s.(stack := s.stack[..n - 1] + [AddNode(s.stack[n - 1], Text(cdata))])
  }

  /** fetchResult and onStanza, whatever there is to fetch. */
  function Deliver(s: Splitter): Splitter {
    s.(result := None, stanzas := s.stanzas + [s.result])
  }

  /** One event; None when C++ throws or has no defined behaviour. */
  function Step(s: Splitter, event: Event): Option<Splitter> {
    match event
    case Start(tag, attributes) =>
      var t := s.(depth := s.depth + 1);
      if t.depth == 1 then Some(t.(begun := t.begun + [(tag, attributes)])) else Push(t, tag, attributes)
    case Chars(cdata) => Some(AddText(s, cdata))
    case End(_) =>
      var t := s.(depth := s.depth - 1);
      if s.depth == 1 then Some(t.(ended := t.ended + 1))
      else
        var popped := Pop(t);
        if s.depth == 2 && popped.Some? then Some(Deliver(popped.value)) else popped
  }

  function Run(s: Splitter, events: seq<Event>): Option<Splitter>
    decreases |events|
  {
    if events == [] then Some(s)
    else match Step(s, events[0]) case None => None case Some(t) => Run(t, events[1..])
  }

  /** Between events: the stack is one shorter than the nesting, and no result is waiting. */
  predicate Level(s: Splitter) {
    0 <= s.depth && |s.stack| == (if s.depth == 0 then 0 else s.depth - 1) && s.result == None
  }

  /** In every run, of any events, for as long as it is defined; no handler is given a null stanza. */
  lemma {:induction false} LevelKept(s: Splitter, events: seq<Event>)
    requires Level(s) && Run(s, events).Some?
    ensures var t := Run(s, events).value; Level(t) && s.stanzas <= t.stanzas && None !in t.stanzas[|s.stanzas|..]
    decreases |events|
  {
    if events != [] {
      var t := Step(s, events[0]).value;
      LevelKept(t, events[1..]);
      var u := Run(t, events[1..]).value;
      assert t.stanzas[|s.stanzas|..] + u.stanzas[|t.stanzas|..] == u.stanzas[|s.stanzas|..];
    }
  }

  lemma {:induction false} RunAppend(s: Splitter, a: seq<Event>, b: seq<Event>)
    ensures Run(s, a + b) == if Run(s, a).Some? then Run(Run(s, a).value, b) else None
    decreases |a|
  {
    if a == [] {
      Empty(b);
    } else {
      assert (a + b)[1..] == a[1..] + b;
      if Step(s, a[0]).Some? {
        RunAppend(Step(s, a[0]).value, a[1..], b);
      }
    }
  }

  lemma RunOne(s: Splitter, event: Event)
    ensures Run(s, [event]) == Step(s, event)
  {
    assert [event][1..] == [];
  }

  lemma RunAround(s: Splitter, start: Event, inner: seq<Event>, end: Event, t: Splitter, u: Splitter)
    requires Step(s, start) == Some(t) && Run(t, inner) == Some(u)
    ensures Run(s, [start] + inner + [end]) == Step(u, end)
  {
    RunAppend(s, [start] + inner, [end]);
    RunAppend(s, [start], inner);
    RunOne(s, start);
    RunOne(u, end);
  }

  // ----- What should come out

  function Erase<I>(e: Element<I>): Plain
    decreases e, 1
  {
    Element((), e.prefix, e.name, e.attributes, EraseAll(e.nodes))
  }

  function EraseAll<I>(nodes: seq<Node<I>>): seq<Node<()>>
    decreases nodes, 0
  {
    if nodes == [] then [] else var n := |nodes| - 1; EraseAll(nodes[..n]) + [EraseNode(nodes[n])]
  }

  function EraseNode<I>(node: Node<I>): Node<()>
    decreases node, 0
  {
    match node
    case Child(k) => Child(Erase(k))
    case Text(cdata) => Text(cdata)
  }

  /** Inside a document. After a connection that was lost the stack may be deeper than the nesting. */
  predicate Ready(s: Splitter) {
    1 <= s.depth <= |s.stack| + 1 && s.result == None
  }

  /** What the handlers of stanzas are given: the stanzas, or null for each. */
  function Handed(kids: seq<Plain>, lost: bool): seq<Option<Plain>> {
    if kids == [] then []
    else
      var n := |kids| - 1;
      Handed(kids[..n], lost) + [if lost then None else Some(kids[n])]
  }

  /** The state after nodes have gone by: all of them are in the top tag, if there is one. Right below the
      root the elements are stanzas. */
  function Gone(s: Splitter, nodes: seq<Node<()>>): Splitter
    requires Ready(s)
  {
    var n := |s.stack|;
    s.(stack := if n == 0 then [] else s.stack[..n - 1] + [s.stack[n - 1].(nodes := s.stack[n - 1].nodes + nodes)],
       stanzas := if s.depth == 1 then s.stanzas + Handed(Kids(nodes), n > 0) else s.stanzas)
  }

  lemma GoneNone(s: Splitter)
    requires Ready(s)
    ensures Gone(s, []) == s
  {
    Empty(s.stanzas);
    if s.stack != [] {
      Empty(s.stack[|s.stack| - 1].nodes);
    }
  }

  lemma HandedOne(kids: seq<Plain>, kid: Plain, lost: bool)
    ensures Handed(kids + [kid], lost) == Handed(kids, lost) + Handed([kid], lost)
    ensures Handed([kid], lost) == [if lost then None else Some(kid)]
  {
    Snoc(kids, kid);
    assert [kid][..0] == [];
    Empty(Handed([kid], lost));
  }

  lemma KidsOne(node: Node<()>)
    ensures Kids([node]) == if node.Child? then [node.element] else []
  {
    assert [node][..0] == [];
  }

  lemma GoneMore(s: Splitter, nodes: seq<Node<()>>, node: Node<()>)
    requires Ready(s)
    ensures Ready(Gone(s, nodes)) && Gone(s, nodes).depth == s.depth
    ensures Gone(Gone(s, nodes), [node]) == Gone(s, nodes + [node])
  {
    var n := |s.stack|;
    Snoc(nodes, node);
    KidsOne(node);
    if s.depth == 1 {
      HandedMore(s.stanzas, nodes, node, n > 0);
    }
    if n > 0 {
      Assoc(s.stack[n - 1].nodes, nodes, [node]);
      Snoc(s.stack[..n - 1], Gone(s, nodes).stack[n - 1]);
    }
  }

  lemma HandedMore(before: seq<Option<Plain>>, nodes: seq<Node<()>>, node: Node<()>, lost: bool)
    ensures before + Handed(Kids(nodes), lost) + Handed(Kids([node]), lost) ==
              before + Handed(Kids(nodes + [node]), lost)
  {
    Snoc(nodes, node);
    KidsOne(node);
    Assoc(before, Handed(Kids(nodes), lost), Handed(Kids([node]), lost));
    if node.Child? {
      HandedOne(Kids(nodes), node.element, lost);
    } else {
      Empty(Handed(Kids(nodes), lost));
    }
  }

  lemma {:induction false} NodesGo<I>(s: Splitter, nodes: seq<Node<I>>)
    requires Ready(s) && PlainNames(nodes)
    ensures Run(s, EventsOf(nodes)) == Some(Gone(s, EraseAll(nodes)))
    decreases nodes, 1
  {
    hide Ready, Gone;
    if nodes == [] {
      GoneNone(s);
    } else {
      var n := |nodes| - 1;
      NodesGo(s, nodes[..n]);
      RunAppend(s, EventsOf(nodes[..n]), NodeEvents(nodes[n]));
      GoneMore(s, EraseAll(nodes[..n]), EraseNode(nodes[n]));
      NodeGoes(Gone(s, EraseAll(nodes[..n])), nodes[n]);
    }
  }

  lemma {:induction false} NodeGoes<I>(s: Splitter, node: Node<I>)
    requires Ready(s) && PlainNode(node)
    ensures Run(s, NodeEvents(node)) == Some(Gone(s, [EraseNode(node)]))
    decreases node, 0
  {
    hide Gone, EventsOf, EraseAll, SplitName, FullName, Kids;
    match node
    case Child(k) =>
      var start, end := Start(FullName(k), k.attributes), End(FullName(k));
      NameIsSplit(k);
      var t := s.(depth := s.depth + 1, stack := s.stack + [Element((), k.prefix, k.name, k.attributes, [])]);
      NodesGo(t, k.nodes);
      TagFills(s, k);
      var u := Gone(t, EraseAll(k.nodes));
      RunAround(s, start, EventsOf(k.nodes), end, t, u);
      TagCloses(s, k, u, end);
    case Text(cdata) =>
      RunOne(s, Chars(cdata));
      TextGoes(s, cdata);
  }

  lemma TextGoes(s: Splitter, cdata: string)
    requires Ready(s)
    ensures Step(s, Chars(cdata)) == Some(Gone(s, [Text(cdata)]))
  {
    KidsOne(Text(cdata));
    Empty(s.stanzas);
  }

  lemma TagFills<I>(s: Splitter, k: Element<I>)
    requires Ready(s)
    ensures var t := s.(depth := s.depth + 1, stack := s.stack + [Element((), k.prefix, k.name, k.attributes, [])]);
            Gone(t, EraseAll(k.nodes)) == s.(depth := s.depth + 1, stack := s.stack + [Erase(k)])
  {
    Snoc(s.stack, Element((), k.prefix, k.name, k.attributes, []));
    Empty(EraseAll(k.nodes));
  }

  /** The end of an element whose tag is complete on top of the stack. */
  lemma TagCloses<I>(s: Splitter, k: Element<I>, u: Splitter, end: Event)
    requires Ready(s) && end.End?
    requires u == s.(depth := s.depth + 1, stack := s.stack + [Erase(k)])
    ensures Step(u, end) == Some(Gone(s, [Child(Erase(k))]))
  {
    hide Handed, Kids, Erase, EraseAll, SplitName;
    TopIsLast(s.stack, Erase(k));
    KidsOne(Child(Erase(k)));
    HandedOne([], Erase(k), s.stack != []);
  }

  lemma TopIsLast<T>(stack: seq<T>, top: T)
    ensures var n := |stack|; var more := stack + [top];
            && more[n] == top && (n == 0 ==> more == [top])
            && (n > 0 ==> more[n - 1] == stack[n - 1] && more[..n - 1] == stack[..n - 1])
  {
  }

  /** A whole document, whatever the builder still holds. */
  lemma DocumentGoes<I>(s: Splitter, root: Element<I>)
    requires s.depth == 0 && s.result == None && PlainNames(root.nodes)
    ensures Run(s, Events(root)) == Some(AfterDocument(s, Erase(root)))
  {
    hide Run, EventsOf, EraseAll, SplitName, Kids, Handed;
    var start, end := Start(FullName(root), root.attributes), End(FullName(root));
    var t := s.(depth := 1, begun := s.begun + [(FullName(root), root.attributes)]);
    NodesGo(t, root.nodes);
    RunAround(s, start, EventsOf(root.nodes), end, t, Gone(t, EraseAll(root.nodes)));
  }

  function AfterDocument(s: Splitter, root: Plain): Splitter
    requires s.depth == 0 && s.result == None
  {
    var t := Gone(s.(depth := 1), root.nodes);
    t.(depth := 0, begun := s.begun + [(FullName(root), root.attributes)], ended := s.ended + 1)
  }

  /** One call of onStartStream, then exactly the element children of the root as stanzas, in order and equal
      to the subtrees they came from, then one call of onEndStream. */
  lemma StanzasAreChildren<I>(s: Splitter, root: Element<I>)
    requires Level(s) && s.depth == 0 && PlainNames(root.nodes)
    ensures Run(s, Events(root)) ==
            Some(s.(stanzas := s.stanzas + Handed(Kids(EraseAll(root.nodes)), false),
                    begun := s.begun + [(FullName(root), root.attributes)],
                    ended := s.ended + 1))
  {
    DocumentGoes(s, root);
  }

  // ----- Another connection

  /** The builder's reset: only if a finished tag waits. */
  function Reset(s: Splitter): Splitter {
    if s.result.Some? then s.(stack := [], result := None) else s
  }

  /** reconnect: the next document starts from here. */
  function Reconnected(s: Splitter): Splitter {
    Reset(s.(depth := 0))
  }

  lemma {:induction false} HandedAlike(kids: seq<Plain>)
    ensures Handed(kids, true) == Handed(kids, false) <==> kids == []
  {
    if kids != [] {
      var n := |kids| - 1;
      assert Handed(kids, true)[|Handed(kids[..n], true)|] == None;
      assert forall o <- Handed(kids, false) :: o.Some? by {
        HandedSome(kids);
      }
    }
  }

  lemma {:induction false} HandedSome(kids: seq<Plain>)
    ensures forall o <- Handed(kids, false) :: o.Some?
  {
    if kids != [] {
      HandedSome(kids[..|kids| - 1]);
    }
  }

  /** A connection is lost after any events, and another document follows. Its stanzas are handed over if and
      only if the first connection was lost outside of a stanza, or there are none; otherwise they all end in
      the tag that was half built, and null is handed over for each. */
  lemma NextConnection<I>(s: Splitter, events: seq<Event>, root: Element<I>)
    requires Level(s) && Run(s, events).Some? && PlainNames(root.nodes)
    ensures var lost := Run(s, events).value;
            var kids := Kids(EraseAll(root.nodes));
            && Run(Reconnected(lost), Events(root)) == Some(AfterDocument(Reconnected(lost), Erase(root)))
            && AfterDocument(Reconnected(lost), Erase(root)).stanzas == lost.stanzas + Handed(kids, lost.depth > 1)
            && (AfterDocument(Reconnected(lost), Erase(root)).stanzas == lost.stanzas + Handed(kids, false)
                <==> lost.depth <= 1 || kids == [])
  {
    LevelKept(s, events);
    var lost := Run(s, events).value;
    var kids := Kids(EraseAll(root.nodes));
    DocumentGoes(Reconnected(lost), root);
    HandedAlike(kids);
    SameEnds(lost.stanzas, Handed(kids, lost.depth > 1), Handed(kids, false));
  }

  lemma SameEnds<T>(a: seq<T>, b: seq<T>, c: seq<T>)
    ensures a + b == a + c <==> b == c
  {
    if a + b == a + c {
      assert b == (a + b)[|a|..] && c == (a + c)[|a|..];
    }
  }
}
