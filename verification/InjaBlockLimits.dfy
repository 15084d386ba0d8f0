/** What the parser accepts beyond well-nested templates, and what its memory determines. */
module InjaBlockLimits {
  import opened Wrappers
  import opened Seqs
  import opened InjaBlocks
  import opened InjaBlockProofs

  // ----- The memory determines the template

  lemma {:induction false} OneTemplate(s: State, nodes: seq<Node>, a: seq<Item>, b: seq<Item>, low: nat, first: nat)
    requires Shows(s, nodes, a, low, first) && Shows(s, nodes, b, low, first)
    ensures a == b
    decreases a, 0
  {
    if a != [] {
      var n := |a| - 1;
      OneTemplate(s, nodes[..n], a[..n], b[..n], low, first);
      OneItem(s, nodes[n], a[n], b[n], low, first);
      assert a == a[..n] + [a[n]] && b == b[..n] + [b[n]];
    }
  }

  lemma {:induction false} OneItem(s: State, node: Node, a: Item, b: Item, low: nat, first: nat)
    requires ShowsItem(s, node, a, low, first) && ShowsItem(s, node, b, low, first)
    ensures a == b
    decreases a, 0
  {
    match a
    case For(_, body) => OneBlock(s, s.statements[node.index].body, body, b.body, low, first);
    case If(_, yes, otherwise) =>
      OneBlock(s, s.statements[node.index].yes, yes, b.yes, low, first);
      OneOtherwise(s, s.statements[node.index], otherwise, b.otherwise, low, first);
    case _ =>
  }

  lemma {:induction false} OneBlock(s: State, k: nat, a: seq<Item>, b: seq<Item>, low: nat, first: nat)
    requires ShowsBlock(s, k, a, low, first) && ShowsBlock(s, k, b, low, first)
    ensures a == b
    decreases a, 1
  {
    OneTemplate(s, s.blocks[k], a, b, low, first);
  }

  lemma {:induction false} OneOtherwise(s: State, t: Statement, a: Otherwise, b: Otherwise, low: nat, first: nat)
    requires t.IfStatement? && ShowsOtherwise(s, t, a, low, first) && ShowsOtherwise(s, t, b, low, first)
    ensures a == b
    decreases a, 0
  {
    match a
    case Nothing =>
    case Else(items) =>
      if b.ElseIf? {
        NotNested(s, t, items, low, first);
      } else {
        OneTemplate(s, s.blocks[t.no], items, b.items, low, first);
      }
    case ElseIf(_, yes, otherwise) =>
      if b.Else? {
        NotNested(s, t, b.items, low, first);
      } else {
        var u := s.statements[s.blocks[t.no][0].index];
        OneBlock(s, u.yes, yes, b.yes, low, first);
        OneOtherwise(s, u, otherwise, b.otherwise, low, first);
      }
  }

  /** An else block shows no nested if of its own: those stand for else if. */
  lemma NotNested(s: State, t: Statement, items: seq<Item>, low: nat, first: nat)
    requires t.IfStatement? && t.no < |s.blocks| && Shows(s, s.blocks[t.no], items, low, first) && |s.blocks[t.no]| == 1
    ensures var node := s.blocks[t.no][0];
            node.StatementNode? ==>
              node.index < |s.statements| &&
              (s.statements[node.index].IfStatement? ==> !s.statements[node.index].nested)
  {
    assert ShowsItem(s, s.blocks[t.no][0], items[0], low, first);
  }

  // ----- What is accepted

  /** Counting only: how many ifs and how many fors are open, each kind by itself. */
  function Count(tag: Tag, ifs: nat, fors: nat): Option<(nat, nat)> {
    match tag
    case TextTag(_) => Some((ifs, fors))
    case OutputTag(_) => Some((ifs, fors))
    case IfTag(_) => Some((ifs + 1, fors))
    case ElseTag => if ifs == 0 then None else Some((ifs, fors))
    case ElseIfTag(_) => if ifs == 0 then None else Some((ifs, fors))
    case EndIfTag => if ifs == 0 then None else Some((ifs - 1, fors))
    case ForTag(_) => Some((ifs, fors + 1))
    case EndForTag => if fors == 0 then None else Some((ifs, fors - 1))
  }

  predicate Balanced(tags: seq<Tag>, ifs: nat, fors: nat)
    decreases |tags|
  {
    if tags == [] then ifs == 0 && fors == 0
    else match Count(tags[0], ifs, fors) case None => false case Some((i, f)) => Balanced(tags[1..], i, f)
  }

  /** The ifs on the stack that are not nested in the one below. */
  function Heads(statements: seq<Statement>, ifs: seq<nat>): nat
    requires AreIfs(statements, ifs)
    decreases |ifs|
  {
    if ifs == [] then 0
    else
      var n := |ifs| - 1;
      Heads(statements, ifs[..n]) + if statements[ifs[n]].nested then 0 else 1
  }

  lemma {:induction false} HeadsKept(s: State, t: State, ifs: seq<nat>)
    requires AreIfs(s.statements, ifs) && AreIfs(t.statements, ifs)
    requires forall i :: 0 <= i < |ifs| ==> t.statements[ifs[i]].nested == s.statements[ifs[i]].nested
    ensures Heads(t.statements, ifs) == Heads(s.statements, ifs)
    decreases |ifs|
  {
    if ifs != [] {
      HeadsKept(s, t, ifs[..|ifs| - 1]);
    }
  }

  lemma {:induction false} HeadsOfChain(s: State, ifs: seq<nat>)
    requires ifs != [] && AreIfs(s.statements, ifs) && !s.statements[ifs[0]].nested
    ensures Heads(s.statements, PopNested(s.statements, ifs)) == Heads(s.statements, ifs) >= 1
    decreases |ifs|
  {
    var n := |ifs| - 1;
    if s.statements[ifs[n]].nested {
      HeadsOfChain(s, ifs[..n]);
    }
  }

  lemma OpenIfCounts(s: State, nested: bool, condition: string)
    requires Valid(s) && (nested ==> s.ifs != [])
    ensures var t := OpenIf(s, nested, condition);
            Heads(t.statements, t.ifs) == Heads(s.statements, s.ifs) + (if nested then 0 else 1) && t.fors == s.fors
  {
    hide Heads;
    var t := OpenIf(s, nested, condition);
    HeadsKept(s, t, s.ifs);
    HeadsMore(t, s.ifs, |s.statements|);
  }

  lemma HeadsMore(s: State, ifs: seq<nat>, k: nat)
    requires AreIfs(s.statements, ifs + [k])
    ensures AreIfs(s.statements, ifs) && k < |s.statements| && s.statements[k].IfStatement?
    ensures Heads(s.statements, ifs + [k]) == Heads(s.statements, ifs) + if s.statements[k].nested then 0 else 1
  {
    Snoc(ifs, k);
    assert (ifs + [k])[|ifs|] == k;
    forall i | 0 <= i < |ifs| ensures ifs[i] == (ifs + [k])[i] {
    }
  }

  lemma OpenElseCounts(s: State)
    requires Valid(s) && s.ifs != []
    ensures var t := OpenElse(s); Heads(t.statements, t.ifs) == Heads(s.statements, s.ifs) >= 1 && t.fors == s.fors
  {
    HeadsKept(s, OpenElse(s), s.ifs);
    HeadsOfChain(s, s.ifs);
  }

  lemma CloseIfCounts(s: State)
    requires Valid(s) && s.ifs != []
    ensures var t := CloseIf(s); Heads(t.statements, t.ifs) == Heads(s.statements, s.ifs) - 1 && t.fors == s.fors
  {
    hide Heads;
    var chain := PopNested(s.statements, s.ifs);
    var n := |chain| - 1;
    HeadsOfChain(s, s.ifs);
    assert chain == chain[..n] + [chain[n]];
    assert forall i :: 0 <= i < |chain| ==> chain[i] == s.ifs[i];
    HeadsMore(s, chain[..n], chain[n]);
    HeadsKept(s, CloseIf(s), chain[..n]);
  }

  lemma ForCounts(s: State, header: string)
    requires Valid(s)
    ensures Heads(OpenFor(s, header).statements, s.ifs) == Heads(s.statements, s.ifs)
    ensures s.fors != [] ==> Heads(CloseFor(s).statements, s.ifs) == Heads(s.statements, s.ifs)
  {
    HeadsKept(s, OpenFor(s, header), s.ifs);
    if s.fors != [] {
      HeadsKept(s, CloseFor(s), s.ifs);
    }
  }

  lemma AddCounts(s: State, node: Node)
    requires Valid(s)
    ensures Valid(AddNode(s, node)) && Heads(AddNode(s, node).statements, s.ifs) == Heads(s.statements, s.ifs)
  {
    HeadsKept(s, AddNode(s, node), s.ifs);
  }

  lemma NoHeads(s: State)
    requires Valid(s)
    ensures s.ifs == [] <==> Heads(s.statements, s.ifs) == 0
  {
    if s.ifs != [] {
      HeadsOfChain(s, s.ifs);
    }
  }

  lemma StepCounts(s: State, tag: Tag)
    requires Valid(s)
    ensures match Step(s, tag)
            case Err(_) => Count(tag, Heads(s.statements, s.ifs), |s.fors|) == None
            case Ok(t) =>
              Count(tag, Heads(s.statements, s.ifs), |s.fors|) == Some((Heads(t.statements, t.ifs), |t.fors|))
  {
    hide Heads, Valid, OpenIf, OpenElse, CloseIf;
    NoHeads(s);
    match tag
    case TextTag(text) => AddCounts(s, TextNode(text));
    case OutputTag(expression) => AddCounts(s, OutputNode(expression));
    case IfTag(condition) => OpenIfCounts(s, false, condition);
    case ElseTag =>
      if s.ifs != [] {
        OpenElseCounts(s);
      }
    case ElseIfTag(condition) =>
      if s.ifs != [] {
        OpenElseCounts(s);
        NoHeads(OpenElse(s));
        OpenIfCounts(OpenElse(s), true, condition);
      }
    case EndIfTag =>
      if s.ifs != [] {
        CloseIfCounts(s);
      }
    case ForTag(header) => ForCounts(s, header);
    case EndForTag => ForCounts(s, "");
  }

  lemma {:induction false} RunCounts(s: State, tags: seq<Tag>)
    requires Valid(s)
    ensures Balanced(tags, Heads(s.statements, s.ifs), |s.fors|) <==>
              Run(s, tags).Ok? && Run(s, tags).value.ifs == [] && Run(s, tags).value.fors == []
    decreases |tags|
  {
    if tags == [] {
      if s.ifs != [] {
        HeadsOfChain(s, s.ifs);
      }
    } else {
      StepCounts(s, tags[0]);
      if Step(s, tags[0]).Ok? {
        RunCounts(Step(s, tags[0]).value, tags[1..]);
      }
    }
  }

  /** A list of tags is accepted exactly when the ifs are balanced and the fors are balanced, whether or not
      they are properly nested in each other. */
  lemma AcceptedExactly(tags: seq<Tag>)
    ensures Parse(tags).Ok? <==> Balanced(tags, 0, 0)
  {
    RunCounts(Start(), tags);
  }

  /** An if that ends inside a for: accepted, but the parser is not back at the root, and a text after the
      last tag has become part of the if. */
  lemma CrossingIsAccepted(c: string, h: string, text: string)
    ensures var r := Parse([IfTag(c), ForTag(h), EndIfTag, EndForTag, TextTag(text)]);
            r.Ok? && r.value.current != 0
            && Shows(r.value, r.value.blocks[0], [If(c, [For(h, []), Text(text)], Nothing)], 1, 0)
  {
    var s := CrossingRuns(c, h, text);
    CrossingShows(s, c, h, text);
  }

  lemma CrossingOpens(c: string, h: string)
    ensures OpenFor(OpenIf(Start(), false, c), h) ==
            State([[StatementNode(0)], [StatementNode(1)], [], []],
                  [IfStatement(false, c, 1, 2, false, 0), ForStatement(h, 3, 1)], 3, [0], [1])
  {
    var root: seq<Node> := [];
    assert root + [StatementNode(0)] == [StatementNode(0)] && root + [StatementNode(1)] == [StatementNode(1)];
    assert OpenIf(Start(), false, c).blocks == [[StatementNode(0)], [], []];
  }

  lemma RunCons(s: State, tag: Tag, t: State, rest: seq<Tag>, u: State)
    requires Valid(s) && Step(s, tag) == Ok(t) && Run(t, rest) == Ok(u)
    ensures Run(s, [tag] + rest) == Ok(u)
  {
    Cons(tag, rest);
  }

  lemma FiveTags(a: Tag, b: Tag, c: Tag, d: Tag, e: Tag)
    ensures [a] + ([b] + ([c] + ([d] + [e]))) == [a, b, c, d, e]
  {
  }

  lemma CrossingRuns(c: string, h: string, text: string) returns (s: State)
    ensures Run(Start(), [IfTag(c), ForTag(h), EndIfTag, EndForTag, TextTag(text)]) == Ok(s)
    ensures s == State([[StatementNode(0)], [StatementNode(1), TextNode(text)], [], []],
                       [IfStatement(false, c, 1, 2, false, 0), ForStatement(h, 3, 1)], 1, [], [])
  {
    var s1 := OpenIf(Start(), false, c);
    var s2 := OpenFor(s1, h);
    CrossingOpens(c, h);
    var s3 := CloseIf(s2);
    var s4 := CloseFor(s3);
    s := AddNode(s4, TextNode(text));
    CrossingEnds(s2, c, h, text);
    hide OpenIf, OpenFor, CloseIf, CloseFor, AddNode, Run;
    RunOne(s4, TextTag(text));
    RunCons(s3, EndForTag, s4, [TextTag(text)], s);
    RunCons(s2, EndIfTag, s3, [EndForTag] + [TextTag(text)], s);
    RunCons(s1, ForTag(h), s2, [EndIfTag] + ([EndForTag] + [TextTag(text)]), s);
    RunCons(Start(), IfTag(c), s1, [ForTag(h)] + ([EndIfTag] + ([EndForTag] + [TextTag(text)])), s);
    FiveTags(IfTag(c), ForTag(h), EndIfTag, EndForTag, TextTag(text));
  }

  lemma CrossingEnds(s: State, c: string, h: string, text: string)
    requires s == State([[StatementNode(0)], [StatementNode(1)], [], []],
                        [IfStatement(false, c, 1, 2, false, 0), ForStatement(h, 3, 1)], 3, [0], [1])
    ensures Valid(s) && CloseIf(s).fors == [1]
    ensures AddNode(CloseFor(CloseIf(s)), TextNode(text)) ==
            State([[StatementNode(0)], [StatementNode(1), TextNode(text)], [], []],
                  [IfStatement(false, c, 1, 2, false, 0), ForStatement(h, 3, 1)], 1, [], [])
  {
    assert [StatementNode(1)] + [TextNode(text)] == [StatementNode(1), TextNode(text)];
  }

  lemma CrossingShows(s: State, c: string, h: string, text: string)
    requires s == State([[StatementNode(0)], [StatementNode(1), TextNode(text)], [], []],
                        [IfStatement(false, c, 1, 2, false, 0), ForStatement(h, 3, 1)], 1, [], [])
    ensures Shows(s, s.blocks[0], [If(c, [For(h, []), Text(text)], Nothing)], 1, 0)
  {
    var inner := [For(h, []), Text(text)];
    assert s.blocks[1][..1] == [StatementNode(1)] && inner[..1] == [inner[0]] && inner[..1][..0] == [];
    assert ShowsItem(s, StatementNode(1), inner[0], 1, 0);
    assert Shows(s, s.blocks[1][..1], inner[..1], 1, 0);
    assert ShowsItem(s, TextNode(text), inner[1], 1, 0);
    assert ShowsBlock(s, 1, inner, 1, 0);
    var outer := [If(c, inner, Nothing)];
    assert ShowsItem(s, StatementNode(0), outer[0], 1, 0);
    assert outer[..0] == [] && s.blocks[0][..0] == [];
  }
}
