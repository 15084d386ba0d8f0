/** Which lists of tags are templates, by one stack for ifs and fors together; the parser keeps two. */
module InjaNesting {
  import opened Wrappers
  import opened InjaBlocks
  import opened InjaBlockProofs
  import opened InjaBlockLimits
  import opened Seqs

  /** What is open: a for, an if that may still have an else, or an else. */
  datatype Frame = InFor | InIf | InElse

  function Nest(tag: Tag, open: seq<Frame>): Option<seq<Frame>> {
    var n := |open|;
    match tag
    case TextTag(_) => Some(open)
    case OutputTag(_) => Some(open)
    case IfTag(_) => Some(open + [InIf])
    case ElseTag => if n > 0 && open[n - 1].InIf? then Some(open[..n - 1] + [InElse]) else None
    case ElseIfTag(_) => if n > 0 && open[n - 1].InIf? then Some(open) else None
    case EndIfTag => if n > 0 && !open[n - 1].InFor? then Some(open[..n - 1]) else None
    case ForTag(_) => Some(open + [InFor])
    case EndForTag => if n > 0 && open[n - 1].InFor? then Some(open[..n - 1]) else None
  }

  predicate Nested(tags: seq<Tag>, open: seq<Frame>)
    decreases |tags|
  {
    if tags == [] then open == []
    else match Nest(tags[0], open) case None => false case Some(next) => Nested(tags[1..], next)
  }

  lemma NestedCons(tag: Tag, rest: seq<Tag>, open: seq<Frame>)
    ensures Nested([tag] + rest, open) <==> Nest(tag, open).Some? && Nested(rest, Nest(tag, open).value)
  {
    Cons(tag, rest);
  }

  // ----- What is printed is nested

  lemma {:induction false} PrintedGoes(items: seq<Item>, open: seq<Frame>, rest: seq<Tag>)
    ensures Nested(Print(items) + rest, open) <==> Nested(rest, open)
    decreases items, 1
  {
    if items == [] {
      Empty(rest);
    } else {
      var n := |items| - 1;
      Assoc(Print(items[..n]), PrintItem(items[n]), rest);
      PrintedGoes(items[..n], open, PrintItem(items[n]) + rest);
      ItemGoes(items[n], open, rest);
    }
  }

  lemma {:induction false} ItemGoes(item: Item, open: seq<Frame>, rest: seq<Tag>)
    ensures Nested(PrintItem(item) + rest, open) <==> Nested(rest, open)
    decreases item, 0
  {
    hide Nested;
    match item
    case Text(text) => NestedCons(TextTag(text), rest, open);
    case Output(expression) => NestedCons(OutputTag(expression), rest, open);
    case For(header, body) =>
      var tail := [EndForTag] + rest;
      Assoc4([ForTag(header)], Print(body), [EndForTag], rest);
      NestedCons(ForTag(header), Print(body) + tail, open);
      PrintedGoes(body, open + [InFor], tail);
      Snoc(open, InFor);
      NestedCons(EndForTag, rest, open + [InFor]);
    case If(condition, yes, otherwise) =>
      var tail := [EndIfTag] + rest;
      Assoc4([IfTag(condition)], Print(yes) + PrintOtherwise(otherwise), [EndIfTag], rest);
      Assoc(Print(yes), PrintOtherwise(otherwise), tail);
      NestedCons(IfTag(condition), Print(yes) + PrintOtherwise(otherwise) + tail, open);
      PrintedGoes(yes, open + [InIf], PrintOtherwise(otherwise) + tail);
      OtherwiseGoes(otherwise, open, rest);
  }

  lemma {:induction false} OtherwiseGoes(o: Otherwise, open: seq<Frame>, rest: seq<Tag>)
    ensures Nested(PrintOtherwise(o) + ([EndIfTag] + rest), open + [InIf]) <==> Nested(rest, open)
    decreases o, 0
  {
    hide Nested;
    var tail := [EndIfTag] + rest;
    Snoc(open, InIf);
    match o
    case Nothing =>
      Empty(tail);
      NestedCons(EndIfTag, rest, open + [InIf]);
    case Else(items) =>
      Snoc(open, InElse);
      Assoc([ElseTag], Print(items), tail);
      NestedCons(ElseTag, Print(items) + tail, open + [InIf]);
      PrintedGoes(items, open + [InElse], tail);
      NestedCons(EndIfTag, rest, open + [InElse]);
    case ElseIf(condition, yes, otherwise) =>
      Assoc([ElseIfTag(condition)], Print(yes) + PrintOtherwise(otherwise), tail);
      Assoc(Print(yes), PrintOtherwise(otherwise), tail);
      NestedCons(ElseIfTag(condition), Print(yes) + (PrintOtherwise(otherwise) + tail), open + [InIf]);
      PrintedGoes(yes, open + [InIf], PrintOtherwise(otherwise) + tail);
      OtherwiseGoes(otherwise, open, rest);
  }

  // ----- What is nested is printed

  lemma {:induction false} PrintCons(item: Item, items: seq<Item>)
    ensures Print([item] + items) == PrintItem(item) + Print(items)
    decreases items
  {
    if items == [] {
      assert [item][..0] == [] && [item] + items == [item];
      Empty(PrintItem(item));
    } else {
      var n := |items| - 1;
      assert ([item] + items)[..n + 1] == [item] + items[..n];
      PrintCons(item, items[..n]);
      Assoc(PrintItem(item), Print(items[..n]), PrintItem(items[n]));
    }
  }

  /** The next tag belongs to what is around the items before it. */
  predicate Stops(tags: seq<Tag>) {
    tags == [] || tags[0].ElseTag? || tags[0].ElseIfTag? || tags[0].EndIfTag? || tags[0].EndForTag?
  }

  /** What is open must end: a for or an else in one way only. */
  lemma EndComes(tags: seq<Tag>, open: seq<Frame>, last: Frame)
    requires Nested(tags, open + [last]) && Stops(tags) && !last.InIf?
    ensures var end := if last.InFor? then EndForTag else EndIfTag;
            tags != [] && tags == [end] + tags[1..] && Nested(tags[1..], open)
  {
    Snoc(open, last);
    assert tags != [] ==> tags == [tags[0]] + tags[1..];
  }

  /** The items up to such a tag. */
  lemma {:induction false} TakeItems(tags: seq<Tag>, open: seq<Frame>) returns (items: seq<Item>, rest: seq<Tag>)
    requires Nested(tags, open)
    ensures tags == Print(items) + rest && Stops(rest) && Nested(rest, open) && |rest| <= |tags|
    decreases |tags|, 1
  {
    if Stops(tags) {
      items, rest := [], tags;
      Empty(tags);
    } else {
      var item, after := TakeItem(tags, open);
      items, rest := TakeItems(after, open);
      PrintCons(item, items);
      Assoc(PrintItem(item), Print(items), rest);
      items := [item] + items;
    }
  }

  lemma {:induction false} TakeItem(tags: seq<Tag>, open: seq<Frame>) returns (item: Item, rest: seq<Tag>)
    requires Nested(tags, open) && !Stops(tags)
    ensures tags == PrintItem(item) + rest && Nested(rest, open) && |rest| < |tags|
    decreases |tags|, 0
  {
    var tail := tags[1..];
    assert tags == [tags[0]] + tail;
    match tags[0] {
      case TextTag(text) => item, rest := Text(text), tail;
      case OutputTag(expression) => item, rest := Output(expression), tail;
      case ForTag(header) =>
        var body, after := TakeItems(tail, open + [InFor]);
        EndComes(after, open, InFor);
        item, rest := For(header, body), after[1..];
        Assoc4([ForTag(header)], Print(body), [EndForTag], rest);
      case IfTag(condition) =>
        var yes, after := TakeItems(tail, open + [InIf]);
        var otherwise;
        otherwise, rest := TakeOtherwise(after, open);
        item := If(condition, yes, otherwise);
        Assoc(Print(yes), PrintOtherwise(otherwise), [EndIfTag] + rest);
        Assoc4([IfTag(condition)], Print(yes) + PrintOtherwise(otherwise), [EndIfTag], rest);
    }
  }

  lemma {:induction false} TakeOtherwise(tags: seq<Tag>, open: seq<Frame>) returns (o: Otherwise, rest: seq<Tag>)
    requires Nested(tags, open + [InIf]) && Stops(tags)
    ensures tags == PrintOtherwise(o) + ([EndIfTag] + rest) && Nested(rest, open) && |rest| < |tags|
    decreases |tags|, 1
  {
    var tail := tags[1..];
    Snoc(open, InIf);
    assert tags != [] && tags == [tags[0]] + tail;
    NestedCons(tags[0], tail, open + [InIf]);
    hide Nested, Print;
    match tags[0] {
      case EndIfTag =>
        o, rest := Nothing, tail;
        Empty(tags);
      case ElseTag =>
        var items, after := TakeItems(tail, open + [InElse]);
        EndComes(after, open, InElse);
        o, rest := Else(items), after[1..];
        Assoc([ElseTag], Print(items), after);
      case ElseIfTag(condition) =>
        var yes, after := TakeItems(tail, open + [InIf]);
        var otherwise;
        otherwise, rest := TakeOtherwise(after, open);
        o := ElseIf(condition, yes, otherwise);
        Assoc(Print(yes), PrintOtherwise(otherwise), [EndIfTag] + rest);
        Assoc([ElseIfTag(condition)], Print(yes) + PrintOtherwise(otherwise), [EndIfTag] + rest);
    }
  }

  /** A list of tags is the text of a template if and only if it nests. */
  lemma TemplateExactly(tags: seq<Tag>)
    ensures Nested(tags, []) <==> exists items :: Print(items) == tags
  {
    if Nested(tags, []) {
      var items, rest := TakeItems(tags, []);
      assert rest == [];
      Empty(Print(items));
    }
    forall items | Print(items) == tags ensures Nested(tags, []) {
      PrintedGoes(items, [], []);
      Empty(tags);
    }
  }

  /** A list that nests is accepted as the one template it is. */
  lemma NestedIsAccepted(tags: seq<Tag>) returns (items: seq<Item>, s: State)
    requires Nested(tags, [])
    ensures Print(items) == tags && Parse(tags) == Ok(s) && s.current == 0 && Shows(s, s.blocks[0], items, 1, 0)
  {
    TemplateExactly(tags);
    items :| Print(items) == tags;
    s := TemplateRoundTrip(items);
  }

  /** An if that ends inside a for is accepted too, and is no template. */
  lemma CrossingIsNoTemplate(c: string, h: string, text: string)
    ensures var tags := [IfTag(c), ForTag(h), EndIfTag, EndForTag, TextTag(text)];
            Parse(tags).Ok? && forall items :: Print(items) != tags
  {
    var tags := [IfTag(c), ForTag(h), EndIfTag, EndForTag, TextTag(text)];
    CrossingIsAccepted(c, h, text);
    TemplateExactly(tags);
    assert tags[1..][0] == ForTag(h) && tags[1..][1..][0] == EndIfTag;
    assert Nest(EndIfTag, [InIf] + [InFor]) == None;
    assert [] + [InIf] == [InIf];
    assert Nest(IfTag(c), []) == Some([InIf]) && Nest(ForTag(h), [InIf]) == Some([InIf] + [InFor]);
    assert !Nested(tags[1..][1..], [InIf] + [InFor]);
    assert !Nested(tags[1..], [InIf]);
  }
}
