/** Nesting of if, else, for and their ends (src/headers/maycloud/inja.hpp:3005-3121, 3154-3168). Pointers to
    blocks and to statements are indices; expressions are whatever parse_expression made of them. */
module InjaBlocks {
  import opened Wrappers

  // ----- Templates as authors mean them

  datatype Item =
    | Text(text: string) | Output(expression: string) | For(header: string, body: seq<Item>)
    | If(condition: string, yes: seq<Item>, otherwise: Otherwise)

  datatype Otherwise =
    | Nothing | Else(items: seq<Item>) | ElseIf(condition: string, yes: seq<Item>, otherwise: Otherwise)

  datatype Tag =
    | TextTag(text: string) | OutputTag(expression: string)
    | IfTag(condition: string) | ElseTag | ElseIfTag(condition: string) | EndIfTag
    | ForTag(header: string) | EndForTag

  function Print(items: seq<Item>): seq<Tag>
    decreases items, 0
  {
    if items == [] then [] else var n := |items| - 1; Print(items[..n]) + PrintItem(items[n])
  }

  function PrintItem(item: Item): (tags: seq<Tag>)
    ensures tags != []
    decreases item, 0
  {
    match item
    case Text(text) => [TextTag(text)]
    case Output(expression) => [OutputTag(expression)]
    case For(header, body) => [ForTag(header)] + Print(body) + [EndForTag]
    case If(condition, yes, otherwise) => [IfTag(condition)] + (Print(yes) + PrintOtherwise(otherwise)) + [EndIfTag]
  }

  /** One endif closes a whole chain. */
  function PrintOtherwise(o: Otherwise): seq<Tag>
    decreases o, 0
  {
    match o
    case Nothing => []
    case Else(items) => [ElseTag] + Print(items)
    case ElseIf(condition, yes, otherwise) => [ElseIfTag(condition)] + (Print(yes) + PrintOtherwise(otherwise))
  }

  // ----- The parser

  datatype Node = TextNode(text: string) | OutputNode(expression: string) | StatementNode(index: nat)

  datatype Statement =
    | IfStatement(nested: bool, condition: string, yes: nat, no: nat, hasFalse: bool, parent: nat)
    | ForStatement(header: string, body: nat, parent: nat)

  datatype State = State(
    blocks: seq<seq<Node>>, statements: seq<Statement>, current: nat, ifs: seq<nat>, fors: seq<nat>)

  datatype BlockError = ElseWithoutIf | EndIfWithoutIf | EndForWithoutFor | UnmatchedIf | UnmatchedFor

  function Start(): State { State([[]], [], 0, [], []) }

  /** Every index points somewhere, and the lowest if on the stack is not nested. */
  predicate Valid(s: State) {
    && s.current < |s.blocks|
    && AreIfs(s.statements, s.ifs)
    && (forall i :: 0 <= i < |s.fors| ==> s.fors[i] < |s.statements| && s.statements[s.fors[i]].ForStatement?)
    && (forall k :: 0 <= k < |s.statements| ==> InBlocks(s.statements[k], |s.blocks|))
    && (s.ifs != [] ==> !s.statements[s.ifs[0]].nested)
  }

  predicate AreIfs(statements: seq<Statement>, ifs: seq<nat>) {
    forall i :: 0 <= i < |ifs| ==> ifs[i] < |statements| && statements[ifs[i]].IfStatement?
  }

  predicate InBlocks(t: Statement, n: nat) {
    t.parent < n &&
    match t
    case IfStatement(_, _, yes, no, _, _) => yes < n && no < n
    case ForStatement(_, body, _) => body < n
  }

  function AddNode(s: State, node: Node): State
    requires Valid(s)
  {
    s.(blocks := s.blocks[s.current := s.blocks[s.current] + [node]])
  }

  function OpenIf(s: State, nested: bool, condition: string): (t: State)
    requires Valid(s) && (nested ==> s.ifs != [])
    ensures Valid(t)
  {
    var n, k := |s.blocks|, |s.statements|;
    State(s.blocks[s.current := s.blocks[s.current] + [StatementNode(k)]] + [[], []],
          s.statements + [IfStatement(nested, condition, n, n + 1, false, s.current)], n, s.ifs + [k], s.fors)
  }

  function OpenElse(s: State): (t: State)
    requires Valid(s) && s.ifs != []
    ensures Valid(t)
  {
    var k := s.ifs[|s.ifs| - 1];
    s.(statements := s.statements[k := s.statements[k].(hasFalse := true)], current := s.statements[k].no)
  }

  /** The chain on top of the stack, down to the if that is not nested. */
  function PopNested(statements: seq<Statement>, ifs: seq<nat>): (r: seq<nat>)
    requires ifs != [] && AreIfs(statements, ifs) && !statements[ifs[0]].nested
    ensures r != [] && r <= ifs && !statements[r[|r| - 1]].nested
    decreases |ifs|
  {
    var n := |ifs| - 1;
    if statements[ifs[n]].nested then PopNested(statements, ifs[..n]) else ifs
  }

  function CloseIf(s: State): (t: State)
    requires Valid(s) && s.ifs != []
    ensures Valid(t)
  {
    var chain := PopNested(s.statements, s.ifs);
    var n := |chain| - 1;
    s.(current := s.statements[chain[n]].parent, ifs := chain[..n])
  }

  function OpenFor(s: State, header: string): (t: State)
    requires Valid(s)
    ensures Valid(t)
  {
    var n, k := |s.blocks|, |s.statements|;
    State(s.blocks[s.current := s.blocks[s.current] + [StatementNode(k)]] + [[]],
          s.statements + [ForStatement(header, n, s.current)], n, s.ifs, s.fors + [k])
  }

  function CloseFor(s: State): (t: State)
    requires Valid(s) && s.fors != []
    ensures Valid(t)
  {
    var n := |s.fors| - 1;
    s.(current := s.statements[s.fors[n]].parent, fors := s.fors[..n])
  }

  function Step(s: State, tag: Tag): (r: Result<State, BlockError>)
    requires Valid(s)
    ensures r.Ok? ==> Valid(r.value)
  {
    match tag
    case TextTag(text) => Ok(AddNode(s, TextNode(text)))
    case OutputTag(expression) => Ok(AddNode(s, OutputNode(expression)))
    case IfTag(condition) => Ok(OpenIf(s, false, condition))
    case ElseTag => if s.ifs == [] then Err(ElseWithoutIf) else Ok(OpenElse(s))
    case ElseIfTag(condition) => if s.ifs == [] then Err(ElseWithoutIf) else Ok(OpenIf(OpenElse(s), true, condition))
    case EndIfTag => if s.ifs == [] then Err(EndIfWithoutIf) else Ok(CloseIf(s))
    case ForTag(header) => Ok(OpenFor(s, header))
    case EndForTag => if s.fors == [] then Err(EndForWithoutFor) else Ok(CloseFor(s))
  }

  function Run(s: State, tags: seq<Tag>): (r: Result<State, BlockError>)
    requires Valid(s)
    ensures r.Ok? ==> Valid(r.value)
    decreases |tags|
  {
    if tags == [] then Ok(s)
    else match Step(s, tags[0]) case Err(e) => Err(e) case Ok(t) => Run(t, tags[1..])
  }

  /** parse_into */
  function Parse(tags: seq<Tag>): Result<State, BlockError> {
    match Run(Start(), tags)
    case Err(e) => Err(e)
    case Ok(s) => if s.ifs != [] then Err(UnmatchedIf) else if s.fors != [] then Err(UnmatchedFor) else Ok(s)
  }

  // ----- Trees in the parser's memory

  /** The nodes are these items; what is below them is in blocks numbered from low on, and their statements
      are numbered from first on. */
  ghost predicate Shows(s: State, nodes: seq<Node>, items: seq<Item>, low: nat, first: nat)
    decreases items, 0
  {
    |nodes| == |items| &&
    (items == [] ||
     var n := |items| - 1;
     Shows(s, nodes[..n], items[..n], low, first) && ShowsItem(s, nodes[n], items[n], low, first))
  }

  ghost predicate ShowsItem(s: State, node: Node, item: Item, low: nat, first: nat)
    decreases item, 0
  {
    match item
    case Text(text) => node == TextNode(text)
    case Output(expression) => node == OutputNode(expression)
    case For(header, body) =>
      node.StatementNode? && first <= node.index < |s.statements| &&
      var t := s.statements[node.index];
      t.ForStatement? && t.header == header && ShowsBlock(s, t.body, body, low, first)
    case If(condition, yes, otherwise) =>
      node.StatementNode? && first <= node.index < |s.statements| &&
      var t := s.statements[node.index];
      && t.IfStatement? && !t.nested && t.condition == condition
      && ShowsBlock(s, t.yes, yes, low, first) && ShowsOtherwise(s, t, otherwise, low, first)
  }

  ghost predicate ShowsBlock(s: State, b: nat, items: seq<Item>, low: nat, first: nat)
    decreases items, 1
  {
    low <= b < |s.blocks| && Shows(s, s.blocks[b], items, low, first)
  }

  ghost predicate ShowsOtherwise(s: State, t: Statement, o: Otherwise, low: nat, first: nat)
    requires t.IfStatement?
    decreases o, 0
  {
    t.hasFalse == !o.Nothing? && low <= t.no < |s.blocks| &&
    match o
    case Nothing => s.blocks[t.no] == []
    case Else(items) => Shows(s, s.blocks[t.no], items, low, first)
    case ElseIf(condition, yes, otherwise) =>
      s.blocks[t.no] != [] &&
      var node := s.blocks[t.no][0];
      && s.blocks[t.no] == [node] && node.StatementNode? && first <= node.index < |s.statements|
      && var u := s.statements[node.index];
         && u.IfStatement? && u.nested && u.condition == condition
         && ShowsBlock(s, u.yes, yes, low, first) && ShowsOtherwise(s, u, otherwise, low, first)
  }
}
