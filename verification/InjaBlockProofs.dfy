/** Every template of text, for blocks and if chains, written out and parsed, is in the parser's memory again. */
module InjaBlockProofs {
  import opened Wrappers
  import opened Seqs
  import opened InjaBlocks

  // ----- Memory that only grows

  /** From s to t nothing changes in the blocks from low on and the statements from first on that s has. */
  ghost predicate Keeps(s: State, t: State, low: nat, first: nat) {
    && |s.blocks| <= |t.blocks| && |s.statements| <= |t.statements|
    && (forall b :: low <= b < |s.blocks| ==> t.blocks[b] == s.blocks[b])
    && (forall k :: first <= k < |s.statements| ==> t.statements[k] == s.statements[k])
  }

  lemma {:induction false} ShowsKept(s: State, t: State, nodes: seq<Node>, items: seq<Item>, low: nat, first: nat,
                                     low': nat, first': nat)
    requires Shows(s, nodes, items, low, first) && Keeps(s, t, low, first) && low' <= low && first' <= first
    ensures Shows(t, nodes, items, low', first')
    decreases items, 0
  {
    if items != [] {
      var n := |items| - 1;
      ShowsKept(s, t, nodes[..n], items[..n], low, first, low', first');
      ItemKept(s, t, nodes[n], items[n], low, first, low', first');
    }
  }

  lemma {:induction false} ItemKept(s: State, t: State, node: Node, item: Item, low: nat, first: nat, low': nat,
                                    first': nat)
    requires ShowsItem(s, node, item, low, first) && Keeps(s, t, low, first) && low' <= low && first' <= first
    ensures ShowsItem(t, node, item, low', first')
    decreases item, 0
  {
    match item
    case For(header, body) => BlockKept(s, t, s.statements[node.index].body, body, low, first, low', first');
    case If(condition, yes, otherwise) =>
      BlockKept(s, t, s.statements[node.index].yes, yes, low, first, low', first');
      OtherwiseKept(s, t, s.statements[node.index], otherwise, low, first, low', first');
    case _ =>
  }

  lemma {:induction false} BlockKept(s: State, t: State, b: nat, items: seq<Item>, low: nat, first: nat, low': nat,
                                     first': nat)
    requires ShowsBlock(s, b, items, low, first) && Keeps(s, t, low, first) && low' <= low && first' <= first
    ensures ShowsBlock(t, b, items, low', first')
    decreases items, 1
  {
    ShowsKept(s, t, s.blocks[b], items, low, first, low', first');
  }

  lemma {:induction false} OtherwiseKept(s: State, t: State, st: Statement, o: Otherwise, low: nat, first: nat,
                                         low': nat, first': nat)
    requires st.IfStatement? && ShowsOtherwise(s, st, o, low, first) && Keeps(s, t, low, first) && low' <= low
    requires first' <= first
    ensures ShowsOtherwise(t, st, o, low', first')
    decreases o, 0
  {
    match o
    case Nothing =>
    case Else(items) => ShowsKept(s, t, s.blocks[st.no], items, low, first, low', first');
    case ElseIf(condition, yes, otherwise) =>
      var u := s.statements[s.blocks[st.no][0].index];
      BlockKept(s, t, u.yes, yes, low, first, low', first');
      OtherwiseKept(s, t, u, otherwise, low, first, low', first');
  }

  // ----- Running a list of tags

  lemma {:induction false} RunAppend(s: State, a: seq<Tag>, b: seq<Tag>)
    requires Valid(s)
    ensures Run(s, a + b) == if Run(s, a).Ok? then Run(Run(s, a).value, b) else Run(s, a)
    decreases |a|
  {
    if a == [] {
      Empty(b);
    } else {
      assert (a + b)[1..] == a[1..] + b;
      if Step(s, a[0]).Ok? {
        RunAppend(Step(s, a[0]).value, a[1..], b);
      }
    }
  }

  lemma RunOne(s: State, tag: Tag)
    requires Valid(s)
    ensures Run(s, [tag]) == Step(s, tag)
  {
    assert [tag][1..] == [];
  }

  lemma RunThen(s: State, t: State, u: State, a: seq<Tag>, b: seq<Tag>)
    requires Valid(s) && Run(s, a) == Ok(t) && Run(t, b) == Ok(u)
    ensures Run(s, a + b) == Ok(u)
  {
    RunAppend(s, a, b);
  }

  /** The same place in the template, with more in the current block: nodes are what was added. */
  ghost predicate Added(s: State, t: State, nodes: seq<Node>)
    requires Valid(s)
  {
    && t.current == s.current && t.ifs == s.ifs && t.fors == s.fors
    && |s.blocks| <= |t.blocks| && |s.statements| <= |t.statements|
    && (forall b :: 0 <= b < |s.blocks| && b != s.current ==> t.blocks[b] == s.blocks[b])
    && t.blocks[s.current] == s.blocks[s.current] + nodes
    && (forall k :: 0 <= k < |s.statements| ==> t.statements[k] == s.statements[k])
  }

  lemma {:induction false} ItemsRun(s: State, items: seq<Item>) returns (t: State, nodes: seq<Node>)
    requires Valid(s)
    ensures Run(s, Print(items)) == Ok(t) && Valid(t) && Added(s, t, nodes)
    ensures Shows(t, nodes, items, |s.blocks|, |s.statements|)
    decreases |Print(items)|, 2
  {
    if items == [] {
      t, nodes := s, [];
      Empty(s.blocks[s.current]);
    } else {
      var n := |items| - 1;
      var u, before := ItemsRun(s, items[..n]);
      var node;
      t, node := ItemRun(u, items[n]);
      nodes := before + [node];
      RunThen(s, u, t, Print(items[..n]), PrintItem(items[n]));
      ShowsKept(u, t, before, items[..n], |s.blocks|, |s.statements|, |s.blocks|, |s.statements|);
      ItemKept(t, t, node, items[n], |u.blocks|, |u.statements|, |s.blocks|, |s.statements|);
      Assoc(s.blocks[s.current], before, [node]);
      Snoc(before, node);
    }
  }

  lemma {:induction false} ItemRun(s: State, item: Item) returns (t: State, node: Node)
    requires Valid(s)
    ensures Run(s, PrintItem(item)) == Ok(t) && Valid(t) && Added(s, t, [node])
    ensures ShowsItem(t, node, item, |s.blocks|, |s.statements|)
    decreases |PrintItem(item)|, 1
  {
    match item
    case Text(text) =>
      RunOne(s, TextTag(text));
      t, node := Step(s, TextTag(text)).value, TextNode(text);
    case Output(expression) =>
      RunOne(s, OutputTag(expression));
      t, node := Step(s, OutputTag(expression)).value, OutputNode(expression);
    case For(header, body) => t, node := ForRun(s, header, body);
    case If(condition, yes, otherwise) => t, node := IfRun(s, item);
  }

  lemma {:induction false} ForRun(s: State, header: string, body: seq<Item>) returns (t: State, node: Node)
    requires Valid(s)
    ensures Run(s, PrintItem(For(header, body))) == Ok(t) && Valid(t) && Added(s, t, [node])
    ensures ShowsItem(t, node, For(header, body), |s.blocks|, |s.statements|)
    decreases |PrintItem(For(header, body))|, 0
  {
    var u := OpenFor(s, header);
    RunOne(s, ForTag(header));
    var v, inner := ItemsRun(u, body);
    t, node := CloseFor(v), StatementNode(|s.statements|);
    RunOne(v, EndForTag);
    RunThen(s, u, v, [ForTag(header)], Print(body));
    RunThen(s, v, t, [ForTag(header)] + Print(body), [EndForTag]);
    Empty(inner);
    ShowsKept(v, t, inner, body, |u.blocks|, |u.statements|, |s.blocks|, |s.statements|);
  }

  /** All ifs of extra are nested in the last one of base. */
  lemma {:induction false} ChainPops(s: State, base: seq<nat>, extra: seq<nat>)
    requires base != [] && AreIfs(s.statements, base + extra) && !s.statements[(base + extra)[0]].nested
    requires forall i :: 0 <= i < |extra| ==>
              extra[i] < |s.statements| && s.statements[extra[i]].IfStatement? && s.statements[extra[i]].nested
    ensures AreIfs(s.statements, base) && base[0] == (base + extra)[0]
    ensures PopNested(s.statements, base + extra) == PopNested(s.statements, base)
    decreases |extra|
  {
    assert forall i :: 0 <= i < |base| ==> base[i] == (base + extra)[i];
    if extra == [] {
      Empty(base);
    } else {
      var n := |extra| - 1;
      Snoc(base + extra[..n], extra[n]);
      Assoc(base, extra[..n], [extra[n]]);
      assert extra == extra[..n] + [extra[n]];
      assert base + extra == (base + extra[..n]) + [extra[n]];
      forall i | 0 <= i < |base + extra[..n]| ensures (base + extra[..n])[i] == (base + extra)[i] {
      }
      ChainPops(s, base, extra[..n]);
    }
  }

  lemma TopIsNotNested(s: State, ifs: seq<nat>)
    requires ifs != [] && AreIfs(s.statements, ifs) && !s.statements[ifs[0]].nested
    requires !s.statements[ifs[|ifs| - 1]].nested
    ensures PopNested(s.statements, ifs) == ifs
  {
  }

  /** After the rest of a chain: the if on top is complete, the ifs above it are nested ones. */
  ghost predicate Completed(s: State, t: State, extra: seq<nat>, o: Otherwise)
    requires Valid(s) && s.ifs != []
  {
    var k := s.ifs[|s.ifs| - 1];
    && t.ifs == s.ifs + extra && t.fors == s.fors
    && (forall i :: 0 <= i < |extra| ==>
          extra[i] < |t.statements| && t.statements[extra[i]].IfStatement? && t.statements[extra[i]].nested)
    && |s.blocks| <= |t.blocks| && |s.statements| <= |t.statements|
    && (forall b :: 0 <= b < |s.blocks| && b != s.statements[k].no ==> t.blocks[b] == s.blocks[b])
    && (forall j :: 0 <= j < |s.statements| && j != k ==> t.statements[j] == s.statements[j])
    && t.statements[k] == s.statements[k].(hasFalse := !o.Nothing?)
  }

  lemma {:induction false} OtherwiseRun(s: State, o: Otherwise, low: nat) returns (t: State, extra: seq<nat>)
    requires Valid(s) && s.ifs != []
    requires var st := s.statements[s.ifs[|s.ifs| - 1]]; !st.hasFalse && s.blocks[st.no] == [] && low <= st.no
    ensures Run(s, PrintOtherwise(o)) == Ok(t) && Valid(t) && Completed(s, t, extra, o)
    ensures ShowsOtherwise(t, t.statements[s.ifs[|s.ifs| - 1]], o, low, |s.statements|)
    decreases |PrintOtherwise(o)|, 2
  {
    hide Run, Shows, Print, PrintOtherwise, PopNested, Completed, ShowsOtherwise;
    match o
    case Nothing =>
      t, extra := s, [];
      NothingRuns(s, low);
    case Else(items) =>
      t := ElseRun(s, o, low);
      extra := [];
    case ElseIf(condition, yes, otherwise) => t, extra := ElseIfRun(s, o, low);
  }

  lemma NothingRuns(s: State, low: nat)
    requires Valid(s) && s.ifs != []
    requires var st := s.statements[s.ifs[|s.ifs| - 1]]; !st.hasFalse && s.blocks[st.no] == [] && low <= st.no
    ensures Run(s, PrintOtherwise(Nothing)) == Ok(s) && Completed(s, s, [], Nothing)
    ensures ShowsOtherwise(s, s.statements[s.ifs[|s.ifs| - 1]], Nothing, low, |s.statements|)
  {
    Empty(s.ifs);
  }

  lemma {:induction false} ElseRun(s: State, o: Otherwise, low: nat) returns (t: State)
    requires Valid(s) && s.ifs != [] && o.Else?
    requires var st := s.statements[s.ifs[|s.ifs| - 1]]; !st.hasFalse && s.blocks[st.no] == [] && low <= st.no
    ensures Run(s, PrintOtherwise(o)) == Ok(t) && Valid(t) && Completed(s, t, [], o)
    ensures ShowsOtherwise(t, t.statements[s.ifs[|s.ifs| - 1]], o, low, |s.statements|)
    decreases |PrintOtherwise(o)|, 1
  {
    hide Run, Shows, Print, PopNested, InBlocks;
    var u := OpenElse(s);
    RunOne(s, ElseTag);
    var nodes;
    t, nodes := ItemsRun(u, o.items);
    RunThen(s, u, t, [ElseTag], Print(o.items));
    Empty(s.ifs);
    Empty(nodes);
    ShowsKept(t, t, nodes, o.items, |u.blocks|, |u.statements|, low, |s.statements|);
  }

  /** Both parts of an if that has just been opened. */
  lemma {:induction false} BranchesRun(u: State, yes: seq<Item>, otherwise: Otherwise, low: nat)
    returns (t: State, extra: seq<nat>)
    requires Valid(u) && u.ifs != []
    requires var st := u.statements[u.ifs[|u.ifs| - 1]];
             && !st.hasFalse && u.current == st.yes && st.yes != st.no && low <= st.yes && low <= st.no
             && u.blocks[st.yes] == [] && u.blocks[st.no] == []
    ensures Run(u, Print(yes) + PrintOtherwise(otherwise)) == Ok(t) && Valid(t)
    ensures Branched(u, t, extra, yes, otherwise, low)
    decreases |Print(yes)| + |PrintOtherwise(otherwise)|, 3
  {
    hide Run, Shows, Print, PrintOtherwise, PopNested;
    var v, nodes := ItemsRun(u, yes);
    t, extra := OtherwiseRun(v, otherwise, low);
    RunThen(u, v, t, Print(yes), PrintOtherwise(otherwise));
    Empty(nodes);
    ShowsKept(v, t, nodes, yes, |u.blocks|, |u.statements|, low, |u.statements|);
    OtherwiseKept(t, t, t.statements[u.ifs[|u.ifs| - 1]], otherwise, low, |v.statements|, low, |u.statements|);
  }

  ghost predicate Branched(u: State, t: State, extra: seq<nat>, yes: seq<Item>, o: Otherwise, low: nat)
    requires Valid(u) && u.ifs != []
  {
    var k := u.ifs[|u.ifs| - 1];
    && t.ifs == u.ifs + extra && t.fors == u.fors
    && (forall i :: 0 <= i < |extra| ==>
          extra[i] < |t.statements| && t.statements[extra[i]].IfStatement? && t.statements[extra[i]].nested)
    && |u.blocks| <= |t.blocks| && |u.statements| <= |t.statements|
    && (forall b :: 0 <= b < |u.blocks| && b != u.statements[k].yes && b != u.statements[k].no ==>
          t.blocks[b] == u.blocks[b])
    && (forall j :: 0 <= j < |u.statements| && j != k ==> t.statements[j] == u.statements[j])
    && t.statements[k] == u.statements[k].(hasFalse := !o.Nothing?)
    && ShowsBlock(t, u.statements[k].yes, yes, low, |u.statements|)
    && ShowsOtherwise(t, t.statements[k], o, low, |u.statements|)
  }

  lemma {:induction false} ElseIfRun(s: State, o: Otherwise, low: nat) returns (t: State, extra: seq<nat>)
    requires Valid(s) && s.ifs != [] && o.ElseIf?
    requires var st := s.statements[s.ifs[|s.ifs| - 1]]; !st.hasFalse && s.blocks[st.no] == [] && low <= st.no
    ensures Run(s, PrintOtherwise(o)) == Ok(t) && Valid(t) && Completed(s, t, extra, o)
    ensures ShowsOtherwise(t, t.statements[s.ifs[|s.ifs| - 1]], o, low, |s.statements|)
    decreases |PrintOtherwise(o)|, 1
  {
    hide Run, Shows, Print, PopNested, InBlocks;
    var ElseIf(condition, yes, otherwise) := o;
    var k, m := s.ifs[|s.ifs| - 1], |s.statements|;
    var u := OpenIf(OpenElse(s), true, condition);
    RunOne(s, ElseIfTag(condition));
    var above;
    t, above := BranchesRun(u, yes, otherwise, |s.blocks|);
    extra := [m] + above;
    RunThen(s, u, t, [ElseIfTag(condition)], Print(yes) + PrintOtherwise(otherwise));
    Assoc(s.ifs, [m], above);
    BlockKept(t, t, u.statements[m].yes, yes, |s.blocks|, |u.statements|, low, |s.statements|);
    OtherwiseKept(t, t, t.statements[m], otherwise, |s.blocks|, |u.statements|, low, |s.statements|);
  }

  lemma {:induction false} IfRun(s: State, item: Item) returns (t: State, node: Node)
    requires Valid(s) && item.If?
    ensures Run(s, PrintItem(item)) == Ok(t) && Valid(t) && Added(s, t, [node])
    ensures ShowsItem(t, node, item, |s.blocks|, |s.statements|)
    decreases |PrintItem(item)|, 0
  {
    hide Run, Shows, Print, PrintOtherwise, PopNested, InBlocks, ShowsOtherwise;
    var If(condition, yes, otherwise) := item;
    var k := |s.statements|;
    var u := OpenIf(s, false, condition);
    RunOne(s, IfTag(condition));
    var w, above := BranchesRun(u, yes, otherwise, |s.blocks|);
    t, node := CloseIf(w), StatementNode(k);
    RunOne(w, EndIfTag);
    RunThen(s, u, w, [IfTag(condition)], Print(yes) + PrintOtherwise(otherwise));
    RunThen(s, w, t, [IfTag(condition)] + (Print(yes) + PrintOtherwise(otherwise)), [EndIfTag]);
    ChainPops(w, u.ifs, above);
    TopIsNotNested(w, u.ifs);
    Snoc(s.ifs, k);
    BlockKept(w, t, u.statements[k].yes, yes, |s.blocks|, |u.statements|, |s.blocks|, |s.statements|);
    OtherwiseKept(w, t, w.statements[k], otherwise, |s.blocks|, |u.statements|, |s.blocks|, |s.statements|);
  }

  /** Parsing what was printed: accepted, both stacks empty, back in the root block, which holds exactly the
      items of the template. */
  lemma TemplateRoundTrip(items: seq<Item>) returns (s: State)
    ensures Parse(Print(items)) == Ok(s) && s.current == 0 && s.ifs == [] && s.fors == []
    ensures |s.blocks| > 0 && Shows(s, s.blocks[0], items, 1, 0)
  {
    var nodes;
    s, nodes := ItemsRun(Start(), items);
    Empty(nodes);
  }
}
