/** Rendering what the block parser left in its memory (src/headers/maycloud/inja.hpp:3402-3410, 3743-3745,
    3751-3822, 3839-3852), against the meaning of the template. Values, expressions and what a loop does to the
    loop data are parameters. */
module InjaRendering {
  import opened Wrappers
  import opened InjaBlocks
  import opened InjaBlockProofs
  import opened InjaBlockMachines

  /** S: the loop data; J: an element that a loop runs over. Each may throw, with a message. */
  datatype World<!S, !J> = World(
    shows: (S, string) -> Result<string, string>,             // an expression, evaluated and printed
    holds: (S, string) -> Result<bool, string>,               // a condition, evaluated, as a truth value
    begins: (S, string) -> Result<(S, seq<J>), string>,       // the header of a loop: its elements
    binds: (S, string, J, nat, nat) -> S,                     // the element, its index, and how many there are
    ends: (S, string) -> S)                                   // behind the loop

  /** The text so far, the loop data, and the exception that ended it. */
  datatype Page<+S> = Page(text: string, loop: S, fault: Option<string>)

  function Shown<S>(p: Page<S>, r: Result<string, string>): Page<S> {
    match r
    case Ok(text) => p.(text := p.text + text)
    case Err(message) => p.(fault := Some(message))
  }

  // ----- What a template means

  function Means<S, J>(w: World<S, J>, p: Page<S>, items: seq<Item>): Page<S>
    decreases items, 0, 0
  {
    if items == [] then p
    else
      var n := |items| - 1;
      var q := Means(w, p, items[..n]);
      if q.fault.Some? then q else MeansItem(w, q, items[n])
  }

  function MeansItem<S, J>(w: World<S, J>, p: Page<S>, item: Item): Page<S>
    decreases item, 0, 0
  {
    match item
    case Text(text) => p.(text := p.text + text)
    case Output(expression) => Shown(p, w.shows(p.loop, expression))
    case If(condition, yes, otherwise) =>
      (match w.holds(p.loop, condition)
       case Err(message) => p.(fault := Some(message))
       case Ok(b) => if b then Means(w, p, yes) else MeansOtherwise(w, p, otherwise))
    case For(header, body) =>
      match w.begins(p.loop, header)
      case Err(message) => p.(fault := Some(message))
      case Ok((loop, elements)) =>
        var q := MeansRounds(w, p.(loop := loop), header, body, elements, |elements|);
        if q.fault.Some? then q else q.(loop := w.ends(q.loop, header))
  }

  /** What comes when the condition does not hold. */
  function MeansOtherwise<S, J>(w: World<S, J>, p: Page<S>, o: Otherwise): Page<S>
    decreases o, 0, 0
  {
    match o
    case Nothing => p
    case Else(items) => Means(w, p, items)
    case ElseIf(condition, yes, otherwise) =>
      match w.holds(p.loop, condition)
      case Err(message) => p.(fault := Some(message))
      case Ok(b) => if b then Means(w, p, yes) else MeansOtherwise(w, p, otherwise)
  }

  /** The body, once for each of the first k elements. */
  function MeansRounds<S, J>(
      w: World<S, J>, p: Page<S>, header: string, body: seq<Item>, elements: seq<J>, k: nat): Page<S>
    requires k <= |elements|
    decreases body, 1, k
  {
    if k == 0 then p
    else
      var q := MeansRounds(w, p, header, body, elements, k - 1);
      if q.fault.Some? then q
      else Means(w, q.(loop := w.binds(q.loop, header, elements[k - 1], k - 1, |elements|)), body)
  }

  // ----- What the renderer makes of the parser's memory

  /** What is in a block is in blocks that were made after it. */
  predicate Forward(s: State) {
    forall b :: 0 <= b < |s.blocks| ==> AllLater(s, s.blocks[b], b)
  }

  predicate AllLater(s: State, nodes: seq<Node>, b: nat) {
    forall node <- nodes :: node.StatementNode? ==> node.index < |s.statements| && Later(s.statements[node.index], b)
  }

  predicate Later(t: Statement, b: nat) {
    match t
    case IfStatement(_, _, yes, no, _, _) => b < yes && b < no
    case ForStatement(_, body, _) => b < body
  }

  predicate Sane(s: State) { Valid(s) && Forward(s) }

  /** visit(BlockNode) */
  function Rendered<S, J>(w: World<S, J>, s: State, p: Page<S>, b: nat): Page<S>
    requires Sane(s) && b < |s.blocks|
    decreases |s.blocks| - b, 2, 0
  {
    RenderedNodes(w, s, p, b, |s.blocks[b]|)
  }

  /** The first k nodes of a block. */
  function RenderedNodes<S, J>(w: World<S, J>, s: State, p: Page<S>, b: nat, k: nat): Page<S>
    requires Sane(s) && b < |s.blocks| && k <= |s.blocks[b]|
    decreases |s.blocks| - b, 1, k
  {
    if k == 0 then p
    else
      var q := RenderedNodes(w, s, p, b, k - 1);
      if q.fault.Some? then q
      else
        match s.blocks[b][k - 1]
        case TextNode(text) => q.(text := q.text + text)
        case OutputNode(expression) => Shown(q, w.shows(q.loop, expression))
        case StatementNode(index) =>
          assert AllLater(s, s.blocks[b], b) && s.blocks[b][k - 1] in s.blocks[b];
          assert InBlocks(s.statements[index], |s.blocks|);
          RenderedStatement(w, s, q, b, s.statements[index])
  }

  function RenderedStatement<S, J>(w: World<S, J>, s: State, p: Page<S>, b: nat, t: Statement): Page<S>
    requires Sane(s) && b < |s.blocks| && InBlocks(t, |s.blocks|) && Later(t, b)
    decreases |s.blocks| - b, 0, 0
  {
    match t
    case IfStatement(_, condition, yes, no, hasFalse, _) =>
      (match w.holds(p.loop, condition)
       case Err(message) => p.(fault := Some(message))
       case Ok(holds) =>
         if holds then Rendered(w, s, p, yes) else if hasFalse then Rendered(w, s, p, no) else p)
    case ForStatement(header, body, _) =>
      match w.begins(p.loop, header)
      case Err(message) => p.(fault := Some(message))
      case Ok((loop, elements)) =>
        var q := RenderedRounds(w, s, p.(loop := loop), header, body, elements, |elements|);
        if q.fault.Some? then q else q.(loop := w.ends(q.loop, header))
  }

  function RenderedRounds<S, J>(
      w: World<S, J>, s: State, p: Page<S>, header: string, body: nat, elements: seq<J>, k: nat): Page<S>
    requires Sane(s) && body < |s.blocks| && k <= |elements|
    decreases |s.blocks| - body, 3, k
  {
    if k == 0 then p
    else
      var q := RenderedRounds(w, s, p, header, body, elements, k - 1);
      if q.fault.Some? then q
      else Rendered(w, s, q.(loop := w.binds(q.loop, header, elements[k - 1], k - 1, |elements|)), body)
  }

  // ----- They are the same

  lemma {:induction false} ShowsRenders<S, J>(
      w: World<S, J>, s: State, p: Page<S>, b: nat, items: seq<Item>, low: nat, first: nat)
    requires Sane(s) && b < |s.blocks| && Shows(s, s.blocks[b], items, low, first)
    ensures Rendered(w, s, p, b) == Means(w, p, items)
    decreases items, 1
  {
    assert s.blocks[b][..|items|] == s.blocks[b];
    NodesRender(w, s, p, b, items, low, first);
  }

  lemma {:induction false} NodesRender<S, J>(
      w: World<S, J>, s: State, p: Page<S>, b: nat, items: seq<Item>, low: nat, first: nat)
    requires Sane(s) && b < |s.blocks| && |items| <= |s.blocks[b]|
    requires Shows(s, s.blocks[b][..|items|], items, low, first)
    ensures RenderedNodes(w, s, p, b, |items|) == Means(w, p, items)
    decreases items, 0
  {
    hide Sane, RenderedRounds, MeansRounds, Rendered;
    if items != [] {
      var n := |items| - 1;
      assert s.blocks[b][..n + 1][..n] == s.blocks[b][..n];
      NodesRender(w, s, p, b, items[..n], low, first);
      var q := Means(w, p, items[..n]);
      ItemRenders(w, s, q, b, n, items[n], low, first);
    }
  }

  lemma {:induction false} ItemRenders<S, J>(
      w: World<S, J>, s: State, q: Page<S>, b: nat, k: nat, item: Item, low: nat, first: nat)
    requires Sane(s) && b < |s.blocks| && k < |s.blocks[b]| && ShowsItem(s, s.blocks[b][k], item, low, first)
    ensures forall p :: RenderedNodes(w, s, p, b, k) == q && q.fault.None? ==>
              RenderedNodes(w, s, p, b, k + 1) == MeansItem(w, q, item)
    decreases item, 0
  {
    assert AllLater(s, s.blocks[b], b) && s.blocks[b][k] in s.blocks[b];
    match item
    case Text(_) =>
    case Output(_) =>
    case For(header, body) =>
      var t := s.statements[s.blocks[b][k].index];
      if w.begins(q.loop, header).Ok? {
        var (loop, elements) := w.begins(q.loop, header).value;
        RoundsRender(w, s, q.(loop := loop), header, t.body, body, elements, |elements|, low, first);
      }
    case If(condition, yes, otherwise) =>
      var t := s.statements[s.blocks[b][k].index];
      ShowsRenders(w, s, q, t.yes, yes, low, first);
      if q.fault.None? {
        OtherwiseRenders(w, s, q, t, otherwise, low, first);
      }
  }

  lemma {:induction false} OtherwiseRenders<S, J>(
      w: World<S, J>, s: State, q: Page<S>, t: Statement, o: Otherwise, low: nat, first: nat)
    requires Sane(s) && t.IfStatement? && ShowsOtherwise(s, t, o, low, first) && q.fault.None?
    ensures (if t.hasFalse then Rendered(w, s, q, t.no) else q) == MeansOtherwise(w, q, o)
    decreases o, 0
  {
    match o
    case Nothing =>
    case Else(items) => ShowsRenders(w, s, q, t.no, items, low, first);
    case ElseIf(condition, yes, otherwise) =>
      var node := s.blocks[t.no][0];
      var u := s.statements[node.index];
      assert s.blocks[t.no] == [node] && RenderedNodes(w, s, q, t.no, 0) == q;
      assert AllLater(s, s.blocks[t.no], t.no) && node in s.blocks[t.no];
      ShowsRenders(w, s, q, u.yes, yes, low, first);
      OtherwiseRenders(w, s, q, u, otherwise, low, first);
      assert RenderedNodes(w, s, q, t.no, 1) == RenderedStatement(w, s, q, t.no, u);
  }

  lemma {:induction false} RoundsRender<S, J>(
      w: World<S, J>, s: State, p: Page<S>, header: string, b: nat, body: seq<Item>, elements: seq<J>, k: nat, low: nat,
      first: nat)
    requires Sane(s) && b < |s.blocks| && Shows(s, s.blocks[b], body, low, first) && k <= |elements|
    ensures RenderedRounds(w, s, p, header, b, elements, k) == MeansRounds(w, p, header, body, elements, k)
    decreases body, 2, k
  {
    hide Rendered, Means, Sane, Shows;
    if k > 0 {
      RoundsRender(w, s, p, header, b, body, elements, k - 1, low, first);
      var q := MeansRounds(w, p, header, body, elements, k - 1);
      if q.fault.None? {
        var loop := w.binds(q.loop, header, elements[k - 1], k - 1, |elements|);
        ShowsRenders(w, s, q.(loop := loop), b, body, low, first);
      }
    }
  }

  // ----- What the parser leaves can be rendered

  lemma AddForward(s: State, node: Node)
    requires Sane(s) && !node.StatementNode?
    ensures Forward(AddNode(s, node))
  {
    var t := AddNode(s, node);
    forall b | 0 <= b < |t.blocks| ensures AllLater(t, t.blocks[b], b) {
      assert AllLater(s, s.blocks[b], b);
    }
  }

  /** A new statement in the current block, with its own blocks behind all others. */
  lemma StatementForward(s: State, t: State, statement: Statement, made: seq<seq<Node>>)
    requires Sane(s) && Valid(t) && Later(statement, s.current) && forall block <- made :: block == []
    requires t.statements == s.statements + [statement]
    requires t.blocks == s.blocks[s.current := s.blocks[s.current] + [StatementNode(|s.statements|)]] + made
    ensures Forward(t)
  {
    var k := |s.statements|;
    forall b | 0 <= b < |t.blocks| ensures AllLater(t, t.blocks[b], b) {
      if b < |s.blocks| {
        assert AllLater(s, s.blocks[b], b);
        forall node | node in t.blocks[b] && node.StatementNode?
          ensures node.index < |t.statements| && Later(t.statements[node.index], b)
        {
          if node in s.blocks[b] {
            assert t.statements[node.index] == s.statements[node.index];
          } else {
            assert b == s.current && node == StatementNode(k) && t.statements[k] == statement;
          }
        }
      } else {
        assert t.blocks[b] == made[b - |s.blocks|] && made[b - |s.blocks|] in made;
      }
    }
  }

  lemma ElseForward(s: State)
    requires Sane(s) && s.ifs != []
    ensures Forward(OpenElse(s))
  {
    var t := OpenElse(s);
    forall b | 0 <= b < |t.blocks| ensures AllLater(t, t.blocks[b], b) {
      assert AllLater(s, s.blocks[b], b);
    }
  }

  lemma OpenIfForward(s: State, nested: bool, condition: string)
    requires Sane(s) && (nested ==> s.ifs != [])
    ensures Forward(OpenIf(s, nested, condition))
  {
    var n := |s.blocks|;
    var statement := IfStatement(nested, condition, n, n + 1, false, s.current);
    StatementForward(s, OpenIf(s, nested, condition), statement, [[], []]);
  }

  lemma StepForward(s: State, tag: Tag)
    requires Sane(s) && Step(s, tag).Ok?
    ensures Sane(Step(s, tag).value)
  {
    match tag
    case TextTag(text) => AddForward(s, TextNode(text));
    case OutputTag(expression) => AddForward(s, OutputNode(expression));
    case IfTag(condition) => OpenIfForward(s, false, condition);
    case ElseTag => ElseForward(s);
    case ElseIfTag(condition) =>
      ElseForward(s);
      OpenIfForward(OpenElse(s), true, condition);
    case EndIfTag => SameForward(s, CloseIf(s));
    case ForTag(header) => StatementForward(s, OpenFor(s, header), ForStatement(header, |s.blocks|, s.current), [[]]);
    case EndForTag => SameForward(s, CloseFor(s));
  }

  lemma SameForward(s: State, t: State)
    requires Forward(s) && t.blocks == s.blocks && t.statements == s.statements
    ensures Forward(t)
  {
    forall b | 0 <= b < |t.blocks| ensures AllLater(t, t.blocks[b], b) {
      assert AllLater(s, s.blocks[b], b);
    }
  }

  lemma {:induction false} RunForward(s: State, tags: seq<Tag>)
    requires Sane(s) && Run(s, tags).Ok?
    ensures Sane(Run(s, tags).value)
    decreases |tags|
  {
    hide Forward, Valid;
    if tags != [] {
      StepForward(s, tags[0]);
      RunForward(Step(s, tags[0]).value, tags[1..]);
    }
  }

  /** Whatever tags are accepted, the memory can be rendered: no block contains itself. */
  lemma AcceptedIsSane(tags: seq<Tag>)
    requires Parse(tags).Ok?
    ensures Sane(Parse(tags).value) && |Parse(tags).value.blocks| > 0
  {
    assert Sane(Start());
    RunForward(Start(), tags);
  }

  /** Parsing a template and rendering its root block gives what the template means. */
  lemma ParsedIsMeant<S, J>(w: World<S, J>, items: seq<Item>, p: Page<S>)
    ensures Parse(Print(items)).Ok? && Sane(Parse(Print(items)).value) && |Parse(Print(items)).value.blocks| > 0
    ensures Rendered(w, Parse(Print(items)).value, p, 0) == Means(w, p, items)
  {
    hide Rendered, Means, Sane;
    var s := TemplateRoundTrip(items);
    AcceptedIsSane(Print(items));
    ShowsRenders(w, s, p, 0, items, 1, 0);
  }

  // ----- The renderer

  /** The visitor with its output stream and its loop data. */
  class TemplateRenderer<S, J> {
    const world: World<S, J>
    const template: State
    var output: string
    var loop: S

    constructor (world: World<S, J>, template: State, loop: S)
      ensures this.world == world && this.template == template && output == "" && this.loop == loop
    {
      this.world, this.template, output, this.loop := world, template, "", loop;
    }

    /** What the visitor has done when it returns, or throws. */
    ghost function Done(fault: Option<string>): Page<S>
      reads this
    {
      Page(output, loop, fault)
    }

    /** visit(BlockNode) */
    method VisitBlock(b: nat) returns (fault: Option<string>)
      requires Sane(template) && b < |template.blocks|
      modifies this
      ensures Done(fault) == Rendered(world, template, old(Done(None)), b)
      decreases |template.blocks| - b, 2, 0
    {
      hide Forward, Valid, RenderedStatement;
      fault := None;
      var nodes := template.blocks[b];
      for k := 0 to |nodes|
        invariant fault == None && Done(None) == RenderedNodes(world, template, old(Done(None)), b, k)
      {
        fault := VisitNode(b, nodes[k]);
        if fault.Some? {
          NoMoreNodes(world, template, old(Done(None)), b, k + 1, |nodes|);
          return;
        }
      }
    }

    method VisitNode(b: nat, node: Node) returns (fault: Option<string>)
      requires Sane(template) && b < |template.blocks| && node in template.blocks[b]
      modifies this
      ensures node.StatementNode? ==>
                && node.index < |template.statements| && InBlocks(template.statements[node.index], |template.blocks|)
                && Later(template.statements[node.index], b)
      ensures Done(fault) ==
              match node
              case TextNode(text) => old(Done(None)).(text := old(output) + text)
              case OutputNode(expression) => Shown(old(Done(None)), world.shows(old(loop), expression))
              case StatementNode(index) =>
                RenderedStatement(world, template, old(Done(None)), b, template.statements[index])
      decreases |template.blocks| - b, 0, 1
    {
      assert AllLater(template, template.blocks[b], b);
      fault := None;
      match node
      case TextNode(text) => output := output + text;
      case OutputNode(expression) =>
        match world.shows(loop, expression) {
          case Ok(text) => output := output + text;
          case Err(message) => fault := Some(message);
        }
      case StatementNode(index) =>
        assert InBlocks(template.statements[index], |template.blocks|);
        fault := VisitStatement(b, template.statements[index]);
    }

    /** visit(IfStatementNode), visit(ForArrayStatementNode) and visit(ForObjectStatementNode) */
    method VisitStatement(b: nat, t: Statement) returns (fault: Option<string>)
      requires Sane(template) && b < |template.blocks| && InBlocks(t, |template.blocks|) && Later(t, b)
      modifies this
      ensures Done(fault) == RenderedStatement(world, template, old(Done(None)), b, t)
      decreases |template.blocks| - b, 0, 0
    {
      hide Forward, Valid, Rendered;
      fault := None;
      match t
      case IfStatement(_, condition, yes, no, hasFalse, _) =>
        match world.holds(loop, condition) {
          case Err(message) => fault := Some(message);
          case Ok(holds) =>
            if holds {
              fault := VisitBlock(yes);
            } else if hasFalse {
              fault := VisitBlock(no);
            }
        }
      case ForStatement(header, body, _) =>
        match world.begins(loop, header) {
          case Err(message) => fault := Some(message);
          case Ok((begun, elements)) =>
            loop := begun;
            fault := VisitRounds(header, body, elements);
            if fault.None? {
              loop := world.ends(loop, header);
            }
        }
    }

    /** The loop over the elements. */
    method VisitRounds(header: string, body: nat, elements: seq<J>) returns (fault: Option<string>)
      requires Sane(template) && body < |template.blocks|
      modifies this
      ensures Done(fault) == RenderedRounds(world, template, old(Done(None)), header, body, elements, |elements|)
      decreases |template.blocks| - body, 3, 0
    {
      hide Forward, Valid, Rendered;
      fault := None;
      for index := 0 to |elements|
        invariant fault == None
        invariant Done(None) == RenderedRounds(world, template, old(Done(None)), header, body, elements, index)
      {
        loop := world.binds(loop, header, elements[index], index, |elements|);
        fault := VisitBlock(body);
        if fault.Some? {
          NoMoreRounds(world, template, old(Done(None)), header, body, elements, index + 1, |elements|);
          return;
        }
      }
    }
  }

  /** An exception ends it. */
  lemma {:induction false} NoMoreRounds<S, J>(
      w: World<S, J>, s: State, p: Page<S>, header: string, body: nat, elements: seq<J>, i: nat, k: nat)
    requires Sane(s) && body < |s.blocks| && i <= k <= |elements|
    requires RenderedRounds(w, s, p, header, body, elements, i).fault.Some?
    ensures RenderedRounds(w, s, p, header, body, elements, k) == RenderedRounds(w, s, p, header, body, elements, i)
    decreases k
  {
    hide Rendered, Sane;
    if i < k {
      NoMoreRounds(w, s, p, header, body, elements, i, k - 1);
    }
  }

  lemma {:induction false} NoMoreNodes<S, J>(w: World<S, J>, s: State, p: Page<S>, b: nat, i: nat, k: nat)
    requires Sane(s) && b < |s.blocks| && i <= k <= |s.blocks[b]| && RenderedNodes(w, s, p, b, i).fault.Some?
    ensures RenderedNodes(w, s, p, b, k) == RenderedNodes(w, s, p, b, i)
    decreases k
  {
    hide RenderedStatement, Sane;
    if i < k {
      NoMoreNodes(w, s, p, b, i, k - 1);
    }
  }

  /** Parser object and renderer object together: what an author wrote comes out as what it means, whatever the
      values, conditions and loops are. */
  method RenderPrinted<S, J>(world: World<S, J>, items: seq<Item>, loop: S)
    returns (r: TemplateRenderer<S, J>, fault: Option<string>)
    ensures fresh(r) && Page(r.output, r.loop, fault) == Means(world, Page("", loop, None), items)
  {
    hide Means, Rendered, Sane;
    var parser := new BlockParser();
    var error := parser.ParseInto(Print(items));
    ParsedIsMeant(world, items, Page("", loop, None));
    r := new TemplateRenderer(world, parser.Fields(), loop);
    fault := r.VisitBlock(0);
  }
}
