/** Searching a tree by a path of names (src/xml_tag.cpp:219-387), on values. */
module XmlSearch {
  import opened Wrappers
  import opened XmlTrees

  /** The first of kids[i..] with this name, or |kids|. */
  function Named<I>(kids: seq<Element<I>>, name: string, i: nat): (j: nat)
    requires i <= |kids|
    ensures i <= j <= |kids| && (j < |kids| ==> kids[j].name == name)
    decreases |kids| - i
  {
    if i == |kids| || kids[i].name == name then i else Named(kids, name, i + 1)
  }

  function At<I>(kids: seq<Element<I>>, i: nat): Option<Element<I>> {
    if i < |kids| then Some(kids[i]) else None
  }

  function Find<I>(e: Element<I>, path: seq<string>): Option<Element<I>>
    requires path != []
    decreases |path|, 1, 0
  {
    var kids := Kids(e.nodes);
    if |path| == 1 then At(kids, Named(kids, path[0], 0)) else FindAmong(kids, path, 0)
  }

  /** The loop of find: the children named path[0], from the i-th on. */
  function FindAmong<I>(kids: seq<Element<I>>, path: seq<string>, i: nat): Option<Element<I>>
    requires |path| > 1 && i <= |kids|
    decreases |path|, 0, |kids| - i
  {
    var j := Named(kids, path[0], i);
    if j == |kids| then None
    else
      var r := Find(kids[j], path[1..]);
      if r.Some? then r else FindAmong(kids, path, j + 1)
  }

  /** Where a child sits, or |kids|. */
  function Position<I(==)>(kids: seq<Element<I>>, id: I, i: nat): (j: nat)
    requires i <= |kids|
    ensures i <= j <= |kids|
    decreases |kids| - i
  {
    if i == |kids| || kids[i].id == id then i else Position(kids, id, i + 1)
  }

  /** The first child named name from the i-th on that is an ancestor of the node with the ancestors line. */
  function Holder<I(==)>(kids: seq<Element<I>>, name: string, line: seq<I>, i: nat): (j: nat)
    requires i <= |kids|
    ensures i <= j <= |kids|
    decreases |kids| - i
  {
    if i == |kids| || (kids[i].name == name && kids[i].id in line) then i else Holder(kids, name, line, i + 1)
  }

  /** line: the proper ancestors of from, which hasChild walks through. */
  function FindNext<I(==)>(e: Element<I>, path: seq<string>, from: I, line: seq<I>): Option<Element<I>>
    requires path != []
    decreases |path|
  {
    var kids := Kids(e.nodes);
    if |path| == 1 then
      var i := Position(kids, from, 0);
      if i == |kids| then None else At(kids, Named(kids, path[0], i + 1))
    else
      var i := Holder(kids, path[0], line, 0);
      if i == |kids| then None
      else
        var r := FindNext(kids[i], path[1..], from, line);
        if r.Some? then r else FindAmong(kids, path, i + 1)
  }

  // ----- What the search should enumerate

  /** All nodes whose names along the way from e are the path, in document order. */
  function Matches<I>(e: Element<I>, path: seq<string>): seq<Element<I>>
    requires path != []
    decreases |path|, 1, 0
  {
    MatchesAmong(Kids(e.nodes), path, 0)
  }

  function MatchesAt<I>(kid: Element<I>, path: seq<string>): seq<Element<I>>
    requires path != []
    decreases |path|, 0, 0
  {
    if kid.name != path[0] then [] else if |path| == 1 then [kid] else Matches(kid, path[1..])
  }

  function MatchesAmong<I>(kids: seq<Element<I>>, path: seq<string>, i: nat): seq<Element<I>>
    requires path != [] && i <= |kids|
    decreases |path|, 0, 1 + |kids| - i
  {
    if i == |kids| then [] else MatchesAt(kids[i], path) + MatchesAmong(kids, path, i + 1)
  }

  function First<I>(es: seq<Element<I>>): Option<Element<I>> { if es == [] then None else Some(es[0]) }

  lemma {:induction false} SkipUnnamed<I>(kids: seq<Element<I>>, path: seq<string>, i: nat)
    requires path != [] && i <= |kids|
    ensures MatchesAmong(kids, path, i) == MatchesAmong(kids, path, Named(kids, path[0], i))
    decreases |kids| - i
  {
    if i < |kids| && kids[i].name != path[0] {
      SkipUnnamed(kids, path, i + 1);
    }
  }

  lemma {:induction false} FindIsFirst<I>(e: Element<I>, path: seq<string>)
    requires path != []
    ensures Find(e, path) == First(Matches(e, path))
    decreases |path|, 1, 0
  {
    var kids := Kids(e.nodes);
    if |path| == 1 {
      NamedIsFirst(kids, path, 0);
    } else {
      FindAmongIsFirst(kids, path, 0);
    }
  }

  lemma NamedIsFirst<I>(kids: seq<Element<I>>, path: seq<string>, i: nat)
    requires |path| == 1 && i <= |kids|
    ensures At(kids, Named(kids, path[0], i)) == First(MatchesAmong(kids, path, i))
  {
    SkipUnnamed(kids, path, i);
  }

  lemma {:induction false} FindAmongIsFirst<I>(kids: seq<Element<I>>, path: seq<string>, i: nat)
    requires |path| > 1 && i <= |kids|
    ensures FindAmong(kids, path, i) == First(MatchesAmong(kids, path, i))
    decreases |path|, 0, |kids| - i
  {
    SkipUnnamed(kids, path, i);
    var j := Named(kids, path[0], i);
    if j < |kids| {
      FindIsFirst(kids[j], path[1..]);
      FindAmongIsFirst(kids, path, j + 1);
    }
  }

  // ----- Resuming

  /** The ancestors of from, as far as they lie in these nodes, are exactly the elements that contain it. */
  ghost predicate LineOf<I>(nodes: seq<Node<I>>, from: I, line: seq<I>)
    decreases nodes
  {
    nodes == [] ||
    var n := |nodes| - 1;
    LineOf(nodes[..n], from, line) && NodeLine(nodes[n], from, line)
  }

  ghost predicate NodeLine<I>(node: Node<I>, from: I, line: seq<I>)
    decreases node
  {
    match node
    case Child(k) => (k.id in line <==> from in Below(k.nodes)) && LineOf(k.nodes, from, line)
    case Text(_) => true
  }

  lemma {:induction false} LineOfKid<I>(nodes: seq<Node<I>>, from: I, line: seq<I>, i: nat)
    requires i < |Kids(nodes)| && LineOf(nodes, from, line)
    ensures Kids(nodes)[i].id in line <==> from in Below(Kids(nodes)[i].nodes)
    ensures LineOf(Kids(nodes)[i].nodes, from, line)
  {
    var n := |nodes| - 1;
    if i < |Kids(nodes[..n])| {
      LineOfKid(nodes[..n], from, line, i);
    }
  }

  /** Every match lies below the element, in the part of one child. */
  lemma {:induction false} MatchIsBelow<I>(e: Element<I>, path: seq<string>, m: nat)
    requires path != [] && m < |Matches(e, path)|
    ensures Matches(e, path)[m].id in Below(e.nodes)
    decreases |path|, 1, 0
  {
    var i := MatchAmong(e.nodes, path, 0, m);
  }

  lemma {:induction false} MatchAmong<I>(nodes: seq<Node<I>>, path: seq<string>, i: nat, m: nat) returns (j: nat)
    requires path != [] && i <= |Kids(nodes)| && m < |MatchesAmong(Kids(nodes), path, i)|
    ensures MatchesAmong(Kids(nodes), path, i)[m].id in Below(nodes)
    ensures i <= j < |Kids(nodes)| && Kids(nodes)[j].name == path[0]
    ensures MatchesAmong(Kids(nodes), path, i)[m].id in
            (if |path| == 1 then {Kids(nodes)[j].id} else Below(Kids(nodes)[j].nodes))
    decreases |path|, 0, |Kids(nodes)| - i
  {
    var kids := Kids(nodes);
    var here := MatchesAt(kids[i], path);
    if m < |here| {
      j := i;
      KidIsBelow(nodes, i);
      if |path| > 1 {
        MatchIsBelow(kids[i], path[1..], m);
      }
    } else {
      j := MatchAmong(nodes, path, i + 1, m - |here|);
    }
  }

  /** From a match, findNext gives the match that follows it in document order, or none after the last. */
  lemma {:induction false} FindNextIsNext<I>(e: Element<I>, path: seq<string>, line: seq<I>, m: nat)
    requires path != [] && AllDistinct(e.nodes) && m < |Matches(e, path)|
    requires LineOf(e.nodes, Matches(e, path)[m].id, line)
    ensures FindNext(e, path, Matches(e, path)[m].id, line) == First(Matches(e, path)[m + 1..])
    decreases |path|, 1, 0
  {
    if |path| == 1 {
      ChildIsNext(e.nodes, path, 0, m);
    } else {
      HolderIsNext(e, path, line, 0, m);
    }
  }

  lemma {:induction false} ChildIsNext<I>(nodes: seq<Node<I>>, path: seq<string>, i: nat, m: nat)
    requires |path| == 1 && AllDistinct(nodes) && i <= |Kids(nodes)| && m < |MatchesAmong(Kids(nodes), path, i)|
    ensures var kids, from := Kids(nodes), MatchesAmong(Kids(nodes), path, i)[m].id;
            var j := Position(kids, from, i);
            j < |kids| && At(kids, Named(kids, path[0], j + 1)) == First(MatchesAmong(kids, path, i)[m + 1..])
    decreases |Kids(nodes)| - i
  {
    hide Below, AllDistinct, Kids;
    var kids := Kids(nodes);
    if kids[i].name != path[0] || m > 0 {
      var before := if kids[i].name == path[0] then 1 else 0;
      var from := MatchesAmong(kids, path, i)[m].id;
      var j := MatchAmong(nodes, path, i + 1, m - before);
      KidsApart(nodes, i, j);
      ChildIsNext(nodes, path, i + 1, m - before);
      assert MatchesAmong(kids, path, i)[m + 1..] == MatchesAmong(kids, path, i + 1)[m - before + 1..];
    } else {
      NamedIsFirst(kids, path, i + 1);
      assert MatchesAmong(kids, path, i)[1..] == MatchesAmong(kids, path, i + 1);
    }
  }

  lemma {:induction false} HolderIsNext<I>(e: Element<I>, path: seq<string>, line: seq<I>, i: nat, m: nat)
    requires |path| > 1 && AllDistinct(e.nodes) && i <= |Kids(e.nodes)| && m < |MatchesAmong(Kids(e.nodes), path, i)|
    requires LineOf(e.nodes, MatchesAmong(Kids(e.nodes), path, i)[m].id, line)
    ensures var kids, from := Kids(e.nodes), MatchesAmong(Kids(e.nodes), path, i)[m].id;
            var j := Holder(kids, path[0], line, i);
            && j < |kids|
            && var r := FindNext(kids[j], path[1..], from, line);
               (if r.Some? then r else FindAmong(kids, path, j + 1)) == First(MatchesAmong(kids, path, i)[m + 1..])
    decreases |path|, 0, |Kids(e.nodes)| - i
  {
    hide Below, AllDistinct, Kids, LineOf, FindAmong, FindNext;
    var kids := Kids(e.nodes);
    var from := MatchesAmong(kids, path, i)[m].id;
    var here, later := MatchesAt(kids[i], path), MatchesAmong(kids, path, i + 1);
    LineOfKid(e.nodes, from, line, i);
    KidIsBelow(e.nodes, i);
    if m < |here| {
      MatchIsBelow(kids[i], path[1..], m);
      FindNextIsNext(kids[i], path[1..], line, m);
      FindAmongIsFirst(kids, path, i + 1);
      assert (here + later)[m + 1..] == here[m + 1..] + later;
    } else {
      var j := MatchAmong(e.nodes, path, i + 1, m - |here|);
      KidsApart(e.nodes, i, j);
      HolderIsNext(e, path, line, i + 1, m - |here|);
      assert (here + later)[m + 1..] == later[m - |here| + 1..];
    }
  }

  // ----- The matches, described without the search

  /** x is reached from e by children with the names of the path. */
  ghost predicate Reaches<I>(e: Element<I>, path: seq<string>, x: Element<I>)
    requires path != []
    decreases |path|
  {
    exists i :: 0 <= i < |Kids(e.nodes)| && ReachesBy(Kids(e.nodes)[i], path, x)
  }

  ghost predicate ReachesBy<I>(kid: Element<I>, path: seq<string>, x: Element<I>)
    requires path != []
    decreases |path|, 0
  {
    kid.name == path[0] && if |path| == 1 then x == kid else Reaches(kid, path[1..], x)
  }

  lemma {:induction false} MatchesExactly<I>(e: Element<I>, path: seq<string>, x: Element<I>)
    requires path != []
    ensures x in Matches(e, path) <==> Reaches(e, path, x)
    decreases |path|, 1, 0
  {
    MatchesAmongExactly(Kids(e.nodes), path, 0, x);
  }

  lemma {:induction false} MatchesAmongExactly<I>(kids: seq<Element<I>>, path: seq<string>, i: nat, x: Element<I>)
    requires path != [] && i <= |kids|
    ensures x in MatchesAmong(kids, path, i) <==> exists j :: i <= j < |kids| && ReachesBy(kids[j], path, x)
    decreases |path|, 0, |kids| - i
  {
    if i < |kids| {
      MatchesAmongExactly(kids, path, i + 1, x);
      if |path| > 1 {
        MatchesExactly(kids[i], path[1..], x);
      }
      assert x in MatchesAt(kids[i], path) <==> ReachesBy(kids[i], path, x);
    }
  }

  /** No node is among the matches twice. */
  lemma {:induction false} MatchesOnce<I>(e: Element<I>, path: seq<string>, l: nat, m: nat)
    requires path != [] && AllDistinct(e.nodes) && l < m < |Matches(e, path)|
    ensures Matches(e, path)[l].id != Matches(e, path)[m].id
    decreases |path|, 1, 0
  {
    MatchesAmongOnce(e.nodes, path, 0, l, m);
  }

  lemma {:induction false} MatchesAmongOnce<I>(nodes: seq<Node<I>>, path: seq<string>, i: nat, l: nat, m: nat)
    requires path != [] && AllDistinct(nodes) && i <= |Kids(nodes)| && l < m < |MatchesAmong(Kids(nodes), path, i)|
    ensures MatchesAmong(Kids(nodes), path, i)[l].id != MatchesAmong(Kids(nodes), path, i)[m].id
    decreases |path|, 0, |Kids(nodes)| - i
  {
    hide Kids, AllDistinct, Below;
    var kids := Kids(nodes);
    var here := MatchesAt(kids[i], path);
    KidIsBelow(nodes, i);
    if m < |here| {
      MatchesOnce(kids[i], path[1..], l, m);
    } else if l >= |here| {
      MatchesAmongOnce(nodes, path, i + 1, l - |here|, m - |here|);
    } else {
      var j := MatchAmong(nodes, path, i + 1, m - |here|);
      KidsApart(nodes, i, j);
      if |path| > 1 {
        MatchIsBelow(kids[i], path[1..], l);
      }
    }
  }

  // ----- The ancestors of a node of the tree

  /** The proper ancestors of from inside these nodes, the nearest first. */
  ghost function LineIn<I>(nodes: seq<Node<I>>, from: I): seq<I>
    requires from in Below(nodes)
    decreases nodes, 1
  {
    var n := |nodes| - 1;
    if from in NodeIds(nodes[n]) then LineInNode(nodes[n], from) else LineIn(nodes[..n], from)
  }

  ghost function LineInNode<I>(node: Node<I>, from: I): seq<I>
    requires from in NodeIds(node)
    decreases node, 0
  {
    match node
    case Child(k) =>
      assert from in Ids(k);
      if from == k.id then [] else LineIn(k.nodes, from) + [k.id]
  }

  lemma {:induction false} LineIsBelow<I>(nodes: seq<Node<I>>, from: I)
    requires from in Below(nodes)
    ensures forall t <- LineIn(nodes, from) :: t in Below(nodes)
    decreases nodes, 1
  {
    var n := |nodes| - 1;
    if from in NodeIds(nodes[n]) {
      NodeLineIsBelow(nodes[n], from);
    } else {
      LineIsBelow(nodes[..n], from);
    }
  }

  lemma {:induction false} NodeLineIsBelow<I>(node: Node<I>, from: I)
    requires from in NodeIds(node)
    ensures forall t <- LineInNode(node, from) :: t in NodeIds(node)
    decreases node, 0
  {
    match node
    case Child(k) =>
      if from != k.id {
        LineIsBelow(k.nodes, from);
      }
  }

  lemma {:induction false} LineElsewhere<I>(nodes: seq<Node<I>>, from: I, line: seq<I>)
    requires from !in Below(nodes) && forall t <- line :: t !in Below(nodes)
    ensures LineOf(nodes, from, line)
    decreases nodes, 1
  {
    if nodes != [] {
      var n := |nodes| - 1;
      LineElsewhere(nodes[..n], from, line);
      NodeElsewhere(nodes[n], from, line);
    }
  }

  lemma {:induction false} NodeElsewhere<I>(node: Node<I>, from: I, line: seq<I>)
    requires from !in NodeIds(node) && forall t <- line :: t !in NodeIds(node)
    ensures NodeLine(node, from, line)
    decreases node, 0
  {
    match node
    case Child(k) => LineElsewhere(k.nodes, from, line);
    case Text(_) =>
  }

  /** The ancestors inside, then any outside: they are the line of from. */
  lemma {:induction false} LineInIsLine<I>(nodes: seq<Node<I>>, from: I, up: seq<I>)
    requires AllDistinct(nodes) && from in Below(nodes) && forall t <- up :: t !in Below(nodes)
    ensures LineOf(nodes, from, LineIn(nodes, from) + up)
    decreases nodes, 1
  {
    var n := |nodes| - 1;
    var line := LineIn(nodes, from) + up;
    if from in NodeIds(nodes[n]) {
      NodeLineIsBelow(nodes[n], from);
      LineElsewhere(nodes[..n], from, line);
      NodeLineIsLine(nodes[n], from, up);
    } else {
      LineIsBelow(nodes[..n], from);
      LineInIsLine(nodes[..n], from, up);
      NodeElsewhere(nodes[n], from, line);
    }
  }

  lemma {:induction false} NodeLineIsLine<I>(node: Node<I>, from: I, up: seq<I>)
    requires NodeDistinct(node) && from in NodeIds(node) && forall t <- up :: t !in NodeIds(node)
    ensures NodeLine(node, from, LineInNode(node, from) + up)
    decreases node, 0
  {
    match node
    case Child(k) =>
      if from == k.id {
        LineElsewhere(k.nodes, from, up);
        assert [] + up == up;
      } else {
        LineInIsLine(k.nodes, from, [k.id] + up);
        assert LineIn(k.nodes, from) + [k.id] + up == LineIn(k.nodes, from) + ([k.id] + up);
      }
  }
}
