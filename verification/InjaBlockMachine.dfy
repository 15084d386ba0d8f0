/** The statement parser as the object it is: the current block and the two stacks, changed tag by tag. */
module InjaBlockMachines {
  import opened Wrappers
  import opened InjaBlocks
  import opened InjaBlockProofs

  class BlockParser {
    var blocks: seq<seq<Node>>        // what the block pointers point to
    var statements: seq<Statement>    // what the statement pointers point to
    var current: nat                  // current_block
    var ifs: seq<nat>                 // if_statement_stack
    var fors: seq<nat>                // for_statement_stack

    constructor ()
      ensures Fields() == Start()
    {
      blocks, statements, current, ifs, fors := [[]], [], 0, [], [];
    }

    function Fields(): State
      reads this
    {
      State(blocks, statements, current, ifs, fors)
    }

    method Append(node: Node)
      requires Valid(Fields())
      modifies `blocks
      ensures Fields() == AddNode(old(Fields()), node)
    {
      blocks := blocks[current := blocks[current] + [node]];
    }

    method BeginIf(nested: bool, condition: string)
      requires Valid(Fields()) && (nested ==> ifs != [])
      modifies this
      ensures Fields() == OpenIf(old(Fields()), nested, condition)
    {
      var n, k := |blocks|, |statements|;
      Append(StatementNode(k));
      blocks := blocks + [[], []];
      statements := statements + [IfStatement(nested, condition, n, n + 1, false, current)];
      ifs := ifs + [k];
      current := n;
    }

    method BeginElse()
      requires Valid(Fields()) && ifs != []
      modifies this
      ensures Fields() == OpenElse(old(Fields()))
    {
      var k := ifs[|ifs| - 1];
      statements := statements[k := statements[k].(hasFalse := true)];
      current := statements[k].no;
    }

    /** endif: pops the nested ifs of the chain, then the if they belong to. */
    method EndIf()
      requires Valid(Fields()) && ifs != []
      modifies this
      ensures Fields() == CloseIf(old(Fields()))
    {
      while statements[ifs[|ifs| - 1]].nested
        invariant blocks == old(blocks) && statements == old(statements) && fors == old(fors) && current == old(current)
        invariant ifs != [] && ifs <= old(ifs)
        invariant PopNested(statements, ifs) == PopNested(old(statements), old(ifs))
        decreases |ifs|
      {
        ifs := ifs[..|ifs| - 1];
      }
      current := statements[ifs[|ifs| - 1]].parent;
      ifs := ifs[..|ifs| - 1];
    }

    method BeginFor(header: string)
      requires Valid(Fields())
      modifies this
      ensures Fields() == OpenFor(old(Fields()), header)
    {
      var n, k := |blocks|, |statements|;
      Append(StatementNode(k));
      blocks := blocks + [[]];
      statements := statements + [ForStatement(header, n, current)];
      fors := fors + [k];
      current := n;
    }

    /** parse_statement, for one tag that has been read */
    method ParseStatement(tag: Tag) returns (error: Option<BlockError>)
      requires Valid(Fields())
      modifies this
      ensures Step(old(Fields()), tag) == if error.None? then Ok(Fields()) else Err(error.value)
    {
      error := None;
      match tag
      case TextTag(text) => Append(TextNode(text));
      case OutputTag(expression) => Append(OutputNode(expression));
      case IfTag(condition) => BeginIf(false, condition);
      case ElseTag =>
        if ifs == [] {
          return Some(ElseWithoutIf);
        }
        BeginElse();
      case ElseIfTag(condition) =>
        if ifs == [] {
          return Some(ElseWithoutIf);
        }
        BeginElse();
        BeginIf(true, condition);
      case EndIfTag =>
        if ifs == [] {
          return Some(EndIfWithoutIf);
        }
        EndIf();
      case ForTag(header) => BeginFor(header);
      case EndForTag =>
        if fors == [] {
          return Some(EndForWithoutFor);
        }
        current := statements[fors[|fors| - 1]].parent;
        fors := fors[..|fors| - 1];
    }

    /** parse_into */
    method ParseInto(tags: seq<Tag>) returns (error: Option<BlockError>)
      requires Fields() == Start()
      modifies this
      ensures Parse(tags) == if error.None? then Ok(Fields()) else Err(error.value)
    {
      for i := 0 to |tags|
        invariant Valid(Fields()) && Run(Fields(), tags[i..]) == Run(Start(), tags)
      {
        assert tags[i..][1..] == tags[i + 1..];
        error := ParseStatement(tags[i]);
        if error.Some? {
          return;
        }
      }
      if ifs != [] {
        return Some(UnmatchedIf);
      }
      if fors != [] {
        return Some(UnmatchedFor);
      }
      return None;
    }
  }

  /** A template, printed, parsed by a new parser: its root block holds the template again. */
  method ParsePrinted(items: seq<Item>) returns (p: BlockParser)
    ensures fresh(p) && p.ifs == [] && p.fors == [] && p.current == 0
    ensures |p.blocks| > 0 && Shows(p.Fields(), p.blocks[0], items, 1, 0)
  {
    p := new BlockParser();
    ghost var s := TemplateRoundTrip(items);
    var error := p.ParseInto(Print(items));
  }
}
