/** ATTagBuilder and the event handlers of ControlStream on real tags: every stanza that is handed over is null or a
    well-formed tree in memory, equal to the subtree of the stream it was built from. */
module XmlBuilders {
  import opened Wrappers
  import opened XmlTrees
  import opened XmlText
  import opened XmlTags
  import opened XmlStanzas
  import opened Seqs

  /** The tags of the stack and what they stand for: each is the child-to-be of the one before it, and all
      that lies below them is closed and in one tree only. */
  ghost predicate Growing(shapes: seq<Shape>, tags: seq<Tag>, closed: set<Tag>)
    reads tags, closed
  {
    |shapes| == |tags| &&
    (tags == [] ||
      var n := |tags| - 1;
      && Growing(shapes[..n], tags[..n], closed)
      && tags[n] !in tags[..n]
      && OnTop(shapes[n], tags[n], if n == 0 then null else tags[n - 1], closed)
      && Below(shapes[n].nodes) !! BelowAll(shapes[..n]))
  }

  ghost predicate OnTop(s: Shape, tag: Tag, parent: Tag?, closed: set<Tag>)
    reads tag, closed
  {
    s.id == tag && tag !in closed && tag.parent == parent && Root(s, closed)
  }

  ghost function BelowAll(shapes: seq<Shape>): set<Tag> {
    if shapes == [] then {} else BelowAll(shapes[..|shapes| - 1]) + Below(shapes[|shapes| - 1].nodes)
  }

  ghost predicate Root(s: Shape, closed: set<Tag>)
    reads s.id, closed
  {
    && s.id.prefix == s.prefix && s.id.name == s.name && s.id.attributes == s.attributes
    && Listed(s.id.children, Kids(s.nodes)) && Holds(s.id.childNodes, s.nodes)
    && AllRepresented(s.id, s.nodes, closed)
    && AllDistinct(s.nodes) && Below(s.nodes) <= closed
  }

  ghost function EraseEach(shapes: seq<Shape>): (plain: seq<Plain>)
    ensures |plain| == |shapes|
  {
    if shapes == [] then [] else EraseEach(shapes[..|shapes| - 1]) + [Erase(shapes[|shapes| - 1])]
  }

  lemma RepresentedWider(s: Shape, region: set<Tag>, wider: set<Tag>)
    requires Represents(s, region) && region <= wider
    ensures Represents(s, wider)
  {
    WiderRegion(s.id, s.nodes, region, wider);
  }

  /** A tag that will not change any more. */
  lemma RootCloses(s: Shape, closed: set<Tag>)
    requires Root(s, closed) && s.id !in closed
    ensures Represents(s, closed + {s.id}) && Distinct(s) && Ids(s) <= closed + {s.id}
  {
    WiderRegion(s.id, s.nodes, closed, closed + {s.id});
  }

  /** insertChildElement, on the values. */
  lemma ChildJoins(s: Shape, k: Shape, closed: set<Tag>)
    requires Root(k, closed) && k.id !in closed && k.id.parent == s.id
    requires AllRepresented(s.id, s.nodes, closed) && AllDistinct(s.nodes) && Below(s.nodes) <= closed
    requires Below(s.nodes) !! Below(k.nodes)
    ensures var nodes := s.nodes + [Child(k)];
            && AllRepresented(s.id, nodes, closed + {k.id}) && AllDistinct(nodes)
            && Below(nodes) == Below(s.nodes) + Ids(k) && Kids(nodes) == Kids(s.nodes) + [k]
  {
    RootCloses(k, closed);
    WiderRegion(s.id, s.nodes, closed, closed + {k.id});
    Snoc(s.nodes, Child(k));
    assert NodeRepresented(s.id, Child(k), closed + {k.id});
    assert NodeDistinct(Child(k)) && NodeIds(Child(k)) == Ids(k);
  }

  lemma EraseJoins<I>(s: Element<I>, node: Node<I>)
    ensures Erase(s.(nodes := s.nodes + [node])) == AddNode(Erase(s), EraseNode(node))
  {
    Snoc(s.nodes, node);
  }

  // ----- The top of the stack

  lemma Grows(shapes: seq<Shape>, tags: seq<Tag>, closed: set<Tag>, s: Shape)
    requires Growing(shapes, tags, closed) && s.id !in tags
    requires OnTop(s, s.id, if tags == [] then null else tags[|tags| - 1], closed) && Below(s.nodes) !! BelowAll(shapes)
    ensures Growing(shapes + [s], tags + [s.id], closed)
    ensures EraseEach(shapes + [s]) == EraseEach(shapes) + [Erase(s)]
  {
    Snoc(shapes, s);
    Snoc(tags, s.id);
  }

  lemma {:induction false} GrowsWider(shapes: seq<Shape>, tags: seq<Tag>, closed: set<Tag>, tag: Tag)
    requires Growing(shapes, tags, closed) && tag !in tags
    ensures Growing(shapes, tags, closed + {tag})
    decreases |tags|
  {
    if tags != [] {
      var n := |tags| - 1;
      GrowsWider(shapes[..n], tags[..n], closed, tag);
      WiderRegion(shapes[n].id, shapes[n].nodes, closed, closed + {tag});
    }
  }

  lemma {:induction false} BelowIsClosed(shapes: seq<Shape>, tags: seq<Tag>, closed: set<Tag>)
    requires Growing(shapes, tags, closed)
    ensures BelowAll(shapes) <= closed
    decreases |tags|
  {
    if tags != [] {
      BelowIsClosed(shapes[..|tags| - 1], tags[..|tags| - 1], closed);
    }
  }

  lemma TopIs(shapes: seq<Shape>, tags: seq<Tag>, closed: set<Tag>)
    requires Growing(shapes, tags, closed) && tags != []
    ensures var n := |tags| - 1;
            && |shapes| == |tags| && Growing(shapes[..n], tags[..n], closed)
            && OnTop(shapes[n], tags[n], if n == 0 then null else tags[n - 1], closed)
            && shapes[n].id == tags[n] && tags[n] !in tags[..n] && tags[n] !in closed
              && Below(shapes[n].nodes) !! BelowAll(shapes[..n])
            && BelowAll(shapes) == BelowAll(shapes[..n]) + Below(shapes[n].nodes)
            && EraseEach(shapes) == EraseEach(shapes[..n]) + [Erase(shapes[n])]
  {
  }

  /** The two tags at the top: the upper one may go into the lower one. */
  lemma TopTwoAre(shapes: seq<Shape>, tags: seq<Tag>, closed: set<Tag>)
    requires Growing(shapes, tags, closed) && |tags| > 1
    ensures var m := |tags| - 2;
            && |shapes| == |tags| && Growing(shapes[..m], tags[..m], closed)
            && OnTop(shapes[m], tags[m], if m == 0 then null else tags[m - 1], closed)
            && OnTop(shapes[m + 1], tags[m + 1], tags[m], closed)
            && shapes[m].id == tags[m] && shapes[m + 1].id == tags[m + 1] && tags[m] != tags[m + 1]
            && tags[m] !in tags[..m] && tags[m + 1] !in tags[..m] && tags[m] !in closed && tags[m + 1] !in closed
            && EraseEach(shapes) == EraseEach(shapes[..m]) + [Erase(shapes[m])] + [Erase(shapes[m + 1])]
  {
    hide Growing, OnTop, Below, Erase, BelowAll, EraseEach, Root;
    var m := |tags| - 2;
    TopIs(shapes, tags, closed);
    var front, frontTags := shapes[..m + 1], tags[..m + 1];
    TopIs(front, frontTags, closed);
    assert front[..m] == shapes[..m] && frontTags[..m] == tags[..m];
    assert frontTags[m] == tags[m] && front[m] == shapes[m];
    forall t | t in tags[..m] ensures t != tags[m + 1] {
      assert t in frontTags;
    }
  }

  lemma TopTwoApart(shapes: seq<Shape>, tags: seq<Tag>, closed: set<Tag>)
    requires Growing(shapes, tags, closed) && |tags| > 1
    ensures var m := |tags| - 2;
            && |shapes| == |tags|
            && Below(shapes[m].nodes) !! Below(shapes[m + 1].nodes)
            && (Below(shapes[m].nodes) + Below(shapes[m + 1].nodes) + {tags[m + 1]}) !! BelowAll(shapes[..m])
  {
    hide Growing, OnTop, Below, Erase, BelowAll, EraseEach, Root;
    var m := |tags| - 2;
    TopIs(shapes, tags, closed);
    var front, frontTags := shapes[..m + 1], tags[..m + 1];
    TopIs(front, frontTags, closed);
    assert front[..m] == shapes[..m] && front[m] == shapes[m];
    BelowIsClosed(front, frontTags, closed);
  }

  lemma SameHeight(shapes: seq<Shape>, tags: seq<Tag>, closed: set<Tag>)
    requires Growing(shapes, tags, closed)
    ensures |EraseEach(shapes)| == |shapes| == |tags|
  {
  }

  lemma {:induction false} TagsAreOpen(shapes: seq<Shape>, tags: seq<Tag>, closed: set<Tag>)
    requires Growing(shapes, tags, closed)
    ensures forall t <- tags :: t !in closed
    decreases |tags|
  {
    if tags != [] {
      TagsAreOpen(shapes[..|tags| - 1], tags[..|tags| - 1], closed);
    }
  }

  lemma LastCloses(shapes: seq<Shape>, tags: seq<Tag>, closed: set<Tag>)
    requires Growing(shapes, tags, closed) && |tags| == 1
    ensures |shapes| == 1 && shapes[0].id == tags[0]
    ensures Represents(shapes[0], closed + {tags[0]}) && Distinct(shapes[0])
    ensures EraseEach(shapes) == [Erase(shapes[0])] && EraseEach([]) == []
    ensures Growing([], [], closed + {tags[0]})
  {
    TopIs(shapes, tags, closed);
    RootCloses(shapes[0], closed);
    assert EraseEach(shapes[..0]) == [];
  }

  method Attach(below: Tag, current: Tag, ghost parent: Tag?, ghost s: Shape, ghost k: Shape, ghost closed: set<Tag>)
    requires OnTop(s, below, parent, closed) && OnTop(k, current, below, closed) && below != current
    requires Below(s.nodes) !! Below(k.nodes)
    modifies below, current`parent
    ensures OnTop(s.(nodes := s.nodes + [Child(k)]), below, parent, closed + {current})
    ensures Below(s.nodes + [Child(k)]) == Below(s.nodes) + Below(k.nodes) + {current}
  {
    hide AllRepresented, AllDistinct, Below;
    below.InsertChildElement(current);
    ChildJoins(s, k, closed);
  }

  method AttachText(tag: Tag, cdata: string, ghost parent: Tag?, ghost s: Shape, ghost closed: set<Tag>)
    requires OnTop(s, tag, parent, closed)
    modifies tag`childNodes
    ensures OnTop(s.(nodes := s.nodes + [Text(cdata)]), tag, parent, closed)
    ensures Below(s.nodes + [Text(cdata)]) == Below(s.nodes)
  {
    tag.InsertCharacterData(cdata);
    Snoc(s.nodes, Text(cdata));
    Empty(Kids(s.nodes));
  }

  lemma EraseNew(s: Shape)
    requires s.nodes == []
    ensures Erase(s) == Element((), s.prefix, s.name, s.attributes, [])
  {
  }

  /** stack.back()->insertCharacterData(cdata) */
  method TextOnTop(tags: seq<Tag>, cdata: string, ghost shapes: seq<Shape>, ghost closed: set<Tag>)
    returns (ghost after: seq<Shape>)
    requires Growing(shapes, tags, closed) && tags != []
    modifies tags
    ensures Growing(after, tags, closed)
    ensures EraseEach(after) == EraseEach(shapes)[..|tags| - 1] + [AddNode(EraseEach(shapes)[|tags| - 1], Text(cdata))]
  {
    hide Growing, OnTop, Erase, BelowAll, EraseEach;
    TopIs(shapes, tags, closed);
    ghost var n := |tags| - 1;
    ghost var low, s := shapes[..n], shapes[n];
    assert tags == tags[..n] + [s.id];
    EraseJoins(s, Text(cdata));
    AttachText(tags[|tags| - 1], cdata, if n == 0 then null else tags[n - 1], s, closed);
    Grows(low, tags[..n], closed, s.(nodes := s.nodes + [Text(cdata)]));
    after := low + [s.(nodes := s.nodes + [Text(cdata)])];
  }

  /** The last tag becomes a child of the one before it. */
  method TopIntoNext(tags: seq<Tag>, ghost shapes: seq<Shape>, ghost closed: set<Tag>) returns (ghost after: seq<Shape>)
    requires Growing(shapes, tags, closed) && |tags| > 1
    modifies tags
    ensures Growing(after, tags[..|tags| - 1], closed + {tags[|tags| - 1]})
    ensures var n, plain := |tags|, EraseEach(shapes);
            EraseEach(after) == plain[..n - 2] + [AddNode(plain[n - 2], Child(plain[n - 1]))]
  {
    hide Growing, OnTop, Erase, BelowAll, EraseEach;
    TopTwoAre(shapes, tags, closed);
    TopTwoApart(shapes, tags, closed);
    ghost var m := |tags| - 2;
    ghost var low, s, k := shapes[..m], shapes[m], shapes[m + 1];
    ghost var t := s.(nodes := s.nodes + [Child(k)]);
    assert tags[..m + 1] == tags[..m] + [t.id];
    EraseJoins(s, Child(k));
    Attach(tags[|tags| - 2], tags[|tags| - 1], if m == 0 then null else tags[m - 1], s, k, closed);
    GrowsWider(low, tags[..m], closed, k.id);
    Grows(low, tags[..m], closed + {k.id}, t);
    after := low + [t];
  }

  class TagBuilder {
    var stack: seq<Tag>
    var result: Tag?
    ghost var shapes: seq<Shape>        // what the tags of the stack stand for
    ghost var finished: Option<Shape>   // what the result stands for
    ghost var closed: set<Tag>          // the tags below those, and the result

    ghost predicate Valid()
      reads this, stack, closed
    {
      && Growing(shapes, stack, closed)
      && (result == null <==> finished.None?)
      && (finished.Some? ==>
            finished.value.id == result && Represents(finished.value, closed) && Distinct(finished.value))
    }

    ghost function Stack(): seq<Plain>
      reads this
    {
      EraseEach(shapes)
    }

    ghost function Result(): Option<Plain>
      reads this
    {
      match finished
      case None => None
      case Some(s) => Some(Erase(s))
    }

    constructor ()
      ensures Valid() && stack == [] && shapes == [] && finished == None
    {
      stack, result, shapes, finished, closed := [], null, [], None, {};
    }

    /** None of the tags may be made when the name cannot be split. */
    method StartElement(name: string, attributes: Attributes) returns (thrown: bool)
      requires Valid()
      modifies this
      ensures Valid() && thrown == SplitName(name).None? && Result() == old(Result())
      ensures forall t <- stack :: t in old(stack) || fresh(t)
      ensures Stack() == if thrown then old(Stack()) else
                old(Stack()) + [Element((), SplitName(name).value.0, SplitName(name).value.1, attributes, [])]
    {
      hide Growing, Represents, Distinct, Erase, BelowAll, EraseEach, SplitName;
      var split := SplitName(name);
      if split.None? {
        return true;
      }
      var (prefix, local) := split.value;
      var tag := new Tag(prefix, local, attributes, if stack == [] then null else stack[|stack| - 1]);
      ghost var s := Element(tag, prefix, local, attributes, []);
      Grows(shapes, stack, closed, s);
      assert Erase(s) == Element((), prefix, local, attributes, []) by {
        EraseNew(s);
      }
      shapes := shapes + [s];
      stack := stack + [tag];
      return false;
    }

    method CharacterData(cdata: string)
      requires Valid()
      modifies this, stack
      ensures Valid() && Result() == old(Result()) && stack == old(stack)
      ensures Stack() == if old(stack) == [] then old(Stack()) else
                old(Stack())[..|old(stack)| - 1] + [AddNode(old(Stack())[|old(stack)| - 1], Text(cdata))]
    {
      if stack == [] {
        return;
      }
      hide Growing, Represents, Distinct, Erase, EraseEach;
      TagsAreOpen(shapes, stack, closed);
      shapes := TextOnTop(stack, cdata, shapes, closed);
    }

    method EndElement() returns (ok: bool)
      requires Valid()
      modifies this, stack
      ensures Valid() && ok == (old(stack) != []) && forall t <- stack :: t in old(stack)
      ensures ok && |old(stack)| == 1 ==> Stack() == [] && Result() == Some(old(Stack())[0])
      ensures ok && |old(stack)| > 1 ==> Result() == old(Result()) && var n := |old(stack)|;
              Stack() == old(Stack())[..n - 2] + [AddNode(old(Stack())[n - 2], Child(old(Stack())[n - 1]))]
    {
      if stack == [] {
        return false;
      }
      hide Growing, Represents, Distinct, Erase, EraseEach;
      var current := stack[|stack| - 1];
      if |stack| == 1 {
        CloseLast(current);
      } else {
        CloseIntoNext(current);
      }
      return true;
    }

    /** stack.back()->insertChildElement(current) */
    method CloseIntoNext(current: Tag)
      requires Valid() && |stack| > 1 && current == stack[|stack| - 1]
      modifies this, stack
      ensures Valid() && Result() == old(Result()) && stack == old(stack)[..|old(stack)| - 1]
      ensures var n := |old(stack)|;
              Stack() == old(Stack())[..n - 2] + [AddNode(old(Stack())[n - 2], Child(old(Stack())[n - 1]))]
    {
      hide Growing, Represents, Distinct, Erase, EraseEach;
      TagsAreOpen(shapes, stack, closed);
      shapes := TopIntoNext(stack, shapes, closed);
      if finished.Some? {
        RepresentedWider(finished.value, closed, closed + {current});
      }
      stack, closed := stack[..|stack| - 1], closed + {current};
    }

    /** presult = current */
    method CloseLast(current: Tag)
      requires Valid() && stack == [current]
      modifies this
      ensures Valid() && stack == [] && Stack() == [] && Result() == Some(old(Stack())[0])
    {
      hide Growing, Represents, Distinct, Erase, EraseEach;
      LastCloses(shapes, stack, closed);
      finished, shapes, closed := Some(shapes[0]), [], closed + {current};
      stack, result := [], current;
    }

    method FetchResult() returns (tag: Tag?)
      requires Valid()
      modifies `result, `finished
      ensures tag == old(result) && Valid() && result == null && stack == old(stack)
    {
      tag := result;
      result := null;
      finished := None;
    }

    /** Meant to drop a half-built tag; does so only when a finished one waits. */
    method Reset()
      requires Valid()
      modifies this
      ensures Valid() && Result() == None && stack == (if old(result) == null then old(stack) else [])
      ensures Stack() == if old(Result()).None? then old(Stack()) else []
    {
      if result != null {
        stack, shapes := [], [];
        result, finished := null, None;
      }
    }
  }

  /** ControlStream, as far as the parser's events go, and what a ControlAgent does to it when it reconnects. */
  class StanzaStream {
    const builder: TagBuilder
    var depth: int
    var begun: seq<(string, Attributes)>            // the calls of onStartStream
    var ended: nat                                  // the calls of onEndStream
    ghost var stanzas: seq<Option<Plain>>           // what onStanza was called with

    constructor ()
      ensures Valid() && fresh(builder) && View() == Splitter(0, [], None, [], [], 0) && builder.stack == []
    {
      builder := new TagBuilder();
      depth, begun, ended, stanzas := 0, [], 0, [];
    }

    ghost predicate Valid()
      reads this, builder, builder.stack, builder.closed
    {
      builder.Valid()
    }

    ghost function View(): Splitter
      reads this, builder
    {
      Splitter(depth, builder.Stack(), builder.Result(), stanzas, begun, ended)
    }

    /** What a handler of stanzas may rely on: a proper tree, ready to be searched and serialised, or null. */
    method OnStanza(stanza: Tag?, ghost s: Option<Shape>, ghost region: set<Tag>)
      requires stanza == null <==> s.None?
      requires s.Some? ==> s.value.id == stanza && Represents(s.value, region) && Distinct(s.value)
      modifies `stanzas
      ensures stanzas == old(stanzas) + [if s.Some? then Some(Erase(s.value)) else None]
    {
      stanzas := stanzas + [if s.Some? then Some(Erase(s.value)) else None];
    }

    method OnStartElement(tag: string, attributes: Attributes) returns (thrown: bool)
      requires Valid()
      modifies this, builder
      ensures Valid() && Step(old(View()), Start(tag, attributes)) == if thrown then None else Some(View())
      ensures forall t <- builder.stack :: t in old(builder.stack) || fresh(t)
    {
      depth := depth + 1;
      if depth == 1 {
        begun := begun + [(tag, attributes)];
        return false;
      }
      thrown := builder.StartElement(tag, attributes);
    }

    method OnCharacterData(cdata: string)
      requires Valid()
      modifies this, builder, builder.stack
      ensures Valid() && Step(old(View()), Chars(cdata)) == Some(View())
      ensures forall t <- builder.stack :: t in old(builder.stack) || fresh(t)
    {
      builder.CharacterData(cdata);
    }

    method OnEndElement(tag: string) returns (broken: bool)
      requires Valid()
      modifies this, builder, builder.stack
      ensures Valid() && Step(old(View()), End(tag)) == if broken then None else Some(View())
      ensures forall t <- builder.stack :: t in old(builder.stack) || fresh(t)
    {
      hide Growing, Represents, Distinct, Erase, EraseEach;
      if depth == 1 {
        ended := ended + 1;
        depth := depth - 1;
        return false;
      }
      SameHeight(builder.shapes, builder.stack, builder.closed);
      var ok := builder.EndElement();
      if !ok {
        return true;
      }
      if depth == 2 {
        ghost var s := builder.finished;
        var stanza := builder.FetchResult();
        OnStanza(stanza, s, builder.closed);
      }
      depth := depth - 1;
      return false;
    }

    /** depth = 0; builder.reset() */
    method Reconnect()
      requires Valid()
      modifies this, builder
      ensures Valid() && View() == Reconnected(old(View()))
      ensures builder.stack == if old(builder.result) == null then old(builder.stack) else []
    {
      depth := 0;
      builder.Reset();
    }
  }

  /** One event of the parser. */
  method Handle(stream: StanzaStream, event: Event) returns (broken: bool)
    requires stream.Valid()
    modifies stream, stream.builder, stream.builder.stack
    ensures stream.Valid() && Step(old(stream.View()), event) == if broken then None else Some(stream.View())
    ensures forall t <- stream.builder.stack :: t in old(stream.builder.stack) || fresh(t)
  {
    broken := false;
    match event
    case Start(tag, attributes) => broken := stream.OnStartElement(tag, attributes);
    case Chars(cdata) => stream.OnCharacterData(cdata);
    case End(tag) => broken := stream.OnEndElement(tag);
  }

  /** Any events, up to the first that C++ does not define. */
  method HandleAll(stream: StanzaStream, events: seq<Event>) returns (broken: bool)
    requires stream.Valid()
    modifies stream, stream.builder, stream.builder.stack
    ensures stream.Valid() && Run(old(stream.View()), events) == if broken then None else Some(stream.View())
    ensures forall t <- stream.builder.stack :: t in old(stream.builder.stack) || fresh(t)
  {
    hide Step;
    ghost var start := stream.View();
    for i := 0 to |events|
      invariant stream.Valid() && Run(stream.View(), events[i..]) == Run(start, events)
      invariant forall k :: 0 <= k < |stream.builder.stack| ==>
                  stream.builder.stack[k] in old(stream.builder.stack) || fresh(stream.builder.stack[k])
    {
      assert events[i..][1..] == events[i + 1..];
      ghost var before := stream.builder.stack;
      broken := Handle(stream, events[i]);
      if broken {
        return;
      }
      forall k | 0 <= k < |stream.builder.stack|
        ensures stream.builder.stack[k] in old(stream.builder.stack) || fresh(stream.builder.stack[k])
      {
        var t := stream.builder.stack[k];
        assert t in stream.builder.stack;
        assert t in before ==> exists j :: 0 <= j < |before| && before[j] == t;
      }
    }
    return false;
  }

  /** A whole document through the handlers. */
  method Receive(stream: StanzaStream, root: Plain, events: seq<Event>)
    requires stream.Valid() && Level(stream.View()) && stream.depth == 0
    requires PlainNames(root.nodes) && events == Events(root)
    modifies stream, stream.builder, stream.builder.stack
    ensures stream.Valid() && Level(stream.View()) && stream.depth == 0
    ensures stream.stanzas == old(stream.stanzas) + Handed(Kids(EraseAll(root.nodes)), false)
    ensures stream.begun == old(stream.begun) + [(FullName(root), root.attributes)]
    ensures stream.ended == old(stream.ended) + 1
  {
    hide Events, Run;
    StanzasAreChildren(stream.View(), root);
    LevelKept(stream.View(), events);
    var broken := HandleAll(stream, events);
    assert !broken;
  }

  /** Any events on one connection, which is then lost, and a whole document on the next: its stanzas come
      out if and only if the first connection was not lost inside a stanza. */
  method ReceiveAgain(stream: StanzaStream, before: seq<Event>, root: Plain, events: seq<Event>) returns (depth: int)
    requires stream.Valid() && Level(stream.View()) && Run(stream.View(), before).Some?
    requires PlainNames(root.nodes) && events == Events(root) && Kids(EraseAll(root.nodes)) != []
    modifies stream, stream.builder, stream.builder.stack
    ensures stream.Valid() && depth == Run(old(stream.View()), before).value.depth
    ensures var kids := Kids(EraseAll(root.nodes));
            var given := Run(old(stream.View()), before).value.stanzas;
            && stream.stanzas == given + Handed(kids, depth > 1)
            && (stream.stanzas == given + Handed(kids, false) <==> depth <= 1)
  {
    hide Events, Run, Step, Handed, Kids, EraseAll, PlainNames, AfterDocument, Growing, Represents, Distinct, EraseEach;
    NextConnection(stream.View(), before, root);
    var broken := HandleAll(stream, before);
    assert !broken;
    depth := stream.depth;
    ghost var left := stream.builder.stack;
    stream.Reconnect();
    forall k | 0 <= k < |stream.builder.stack|
      ensures stream.builder.stack[k] in old(stream.builder.stack) || fresh(stream.builder.stack[k])
    {
      assert stream.builder.stack[k] in left;
    }
    broken := HandleAll(stream, events);
  }
}
