/** Taking children out of a tree (src/xml_tag.cpp:392-403), on values: what stays, and what a search still finds. */
module XmlRemoval {
  import opened XmlTrees
  import opened XmlSearch
  import opened Seqs

  /** The first of nodes[i..] that is a tag with this name, or |nodes|. */
  function FirstNamed<I>(nodes: seq<Node<I>>, name: string, i: nat): (j: nat)
    requires i <= |nodes|
    ensures i <= j <= |nodes|
    ensures j < |nodes| ==> nodes[j].Child? && nodes[j].element.name == name
    ensures forall l :: i <= l < j ==> nodes[l].Child? ==> nodes[l].element.name != name
    decreases |nodes| - i
  {
    if i == |nodes| || (nodes[i].Child? && nodes[i].element.name == name) then i else FirstNamed(nodes, name, i + 1)
  }

  function Without<I>(nodes: seq<Node<I>>, i: nat): seq<Node<I>>
    requires i < |nodes|
  {
    nodes[..i] + nodes[i + 1..]
  }

  function Removed<I>(nodes: seq<Node<I>>, name: string): seq<Node<I>> {
    var i := FirstNamed(nodes, name, 0);
    if i == |nodes| then nodes else Without(nodes, i)
  }

  // ----- Child lists one after the other

  lemma {:induction false} KidsAppend<I>(a: seq<Node<I>>, b: seq<Node<I>>)
    ensures Kids(a + b) == Kids(a) + Kids(b)
  {
    if b == [] {
      Empty(a);
      Empty(Kids(a));
    } else {
      var n := |b| - 1;
      KidsAppend(a, b[..n]);
      assert (a + b)[..|a| + n] == a + b[..n];
    }
  }

  lemma {:induction false} BelowAppend<I>(a: seq<Node<I>>, b: seq<Node<I>>)
    ensures Below(a + b) == Below(a) + Below(b)
  {
    if b == [] {
      Empty(a);
    } else {
      var n := |b| - 1;
      BelowAppend(a, b[..n]);
      assert (a + b)[..|a| + n] == a + b[..n];
    }
  }

  lemma {:induction false} DistinctAppend<I>(a: seq<Node<I>>, b: seq<Node<I>>)
    ensures AllDistinct(a + b) <==> AllDistinct(a) && AllDistinct(b) && Below(a) !! Below(b)
  {
    if b == [] {
      Empty(a);
    } else {
      var n := |b| - 1;
      DistinctAppend(a, b[..n]);
      BelowAppend(a, b[..n]);
      assert (a + b)[..|a| + n] == a + b[..n];
    }
  }

  /** What is deleted is exactly what the tree has lost: no tag that is kept refers to one that is gone. */
  lemma WithoutLoses<I>(nodes: seq<Node<I>>, i: nat)
    requires i < |nodes| && AllDistinct(nodes)
    ensures AllDistinct(Without(nodes, i))
    ensures Below(Without(nodes, i)) == Below(nodes) - NodeIds(nodes[i])
  {
    var a, x, b := nodes[..i], [nodes[i]], nodes[i + 1..];
    Around(nodes, i);
    DistinctAppend(a, x + b);
    BelowAppend(a, x + b);
    DistinctAppend(x, b);
    BelowAppend(x, b);
    DistinctAppend(a, b);
    BelowAppend(a, b);
    assert x[..0] == [] && Below(x) == NodeIds(nodes[i]);
  }

  lemma WithoutKid<I>(nodes: seq<Node<I>>, i: nat)
    requires i < |nodes| && nodes[i].Child?
    ensures var j := |Kids(nodes[..i])|;
            && j < |Kids(nodes)| && Kids(nodes)[j] == nodes[i].element
            && Kids(nodes[..i]) == Kids(nodes)[..j]
            && Kids(Without(nodes, i)) == Kids(nodes)[..j] + Kids(nodes)[j + 1..]
  {
    var a, x, b := nodes[..i], [nodes[i]], nodes[i + 1..];
    Around(nodes, i);
    KidsAppend(a, x + b);
    KidsAppend(x, b);
    KidsAppend(a, b);
    assert x[..0] == [] && Kids(x) == [nodes[i].element];
  }

  /** The child that goes is the one that firstChild finds. */
  lemma {:induction false} UnnamedKids<I>(nodes: seq<Node<I>>, name: string)
    requires forall l :: 0 <= l < |nodes| ==> nodes[l].Child? ==> nodes[l].element.name != name
    ensures forall l :: 0 <= l < |Kids(nodes)| ==> Kids(nodes)[l].name != name
  {
    if nodes != [] {
      UnnamedKids(nodes[..|nodes| - 1], name);
    }
  }

  lemma {:induction false} NamedIs<I>(kids: seq<Element<I>>, name: string, i: nat, j: nat)
    requires i <= j <= |kids| && (j < |kids| ==> kids[j].name == name)
    requires forall l :: i <= l < j ==> kids[l].name != name
    ensures Named(kids, name, i) == j
    decreases j - i
  {
    if i < j {
      NamedIs(kids, name, i + 1, j);
    }
  }

  lemma RemovedIsFirst<I>(nodes: seq<Node<I>>, name: string)
    ensures var i, j := FirstNamed(nodes, name, 0), Named(Kids(nodes), name, 0);
            && (i == |nodes| <==> j == |Kids(nodes)|)
            && (i < |nodes| ==> nodes[i].element == Kids(nodes)[j])
            && (i < |nodes| ==> Kids(Removed(nodes, name)) == Kids(nodes)[..j] + Kids(nodes)[j + 1..])
  {
    var i := FirstNamed(nodes, name, 0);
    UnnamedKids(nodes[..i], name);
    if i < |nodes| {
      WithoutKid(nodes, i);
      NamedIs(Kids(nodes), name, 0, |Kids(nodes[..i])|);
    } else {
      assert nodes[..i] == nodes;
      NamedIs(Kids(nodes), name, 0, |Kids(nodes)|);
    }
  }

  // ----- Inserting and removing

  /** Removing undoes inserting if and only if there was no child of that name before. */
  lemma InsertThenRemove<I>(nodes: seq<Node<I>>, k: Element<I>)
    requires AllDistinct(nodes + [Child(k)])
    ensures Removed(nodes + [Child(k)], k.name) == nodes <==> Named(Kids(nodes), k.name, 0) == |Kids(nodes)|
  {
    var more := nodes + [Child(k)];
    var i := FirstNamed(more, k.name, 0);
    RemovedIsFirst(nodes, k.name);
    Snoc(nodes, Child(k));
    assert more[|nodes|] == Child(k) && forall l :: 0 <= l < |nodes| ==> more[l] == nodes[l];
    if i < |nodes| {
      var rest := Removed(more, k.name);
      assert rest[|rest| - 1] == Child(k) && |rest| == |nodes|;
      assert k.id in NodeIds(Child(k)) && k.id !in Below(nodes);
      assert nodes[|nodes| - 1] != Child(k);
    } else {
      assert more[..|nodes|] == nodes && more[|nodes| + 1..] == [];
    }
  }

  // ----- Searching what is left

  lemma {:induction false} MatchesInSecond<I>(a: seq<Element<I>>, b: seq<Element<I>>, path: seq<string>, i: nat)
    requires path != [] && i <= |b|
    ensures MatchesAmong(a + b, path, |a| + i) == MatchesAmong(b, path, i)
    decreases |b| - i
  {
    if i < |b| {
      assert (a + b)[|a| + i] == b[i];
      MatchesInSecond(a, b, path, i + 1);
    }
  }

  lemma {:induction false} MatchesAppend<I>(a: seq<Element<I>>, b: seq<Element<I>>, path: seq<string>, i: nat)
    requires path != [] && i <= |a|
    ensures MatchesAmong(a + b, path, i) == MatchesAmong(a, path, i) + MatchesAmong(b, path, 0)
    decreases |a| - i
  {
    if i == |a| {
      MatchesInSecond(a, b, path, 0);
      Empty(MatchesAmong(b, path, 0));
    } else {
      assert (a + b)[i] == a[i];
      MatchesAppend(a, b, path, i + 1);
      Assoc(MatchesAt(a[i], path), MatchesAmong(a, path, i + 1), MatchesAmong(b, path, 0));
    }
  }

  /** After a removal, every path finds what it found before, in the same order, less what the removed child held. */
  lemma MatchesAfterRemoval<I>(e: Element<I>, name: string, path: seq<string>)
    requires path != []
    ensures var j := Named(Kids(e.nodes), name, 0);
            Matches(e, path) ==
            (if j < |Kids(e.nodes)| then MatchesAt(Kids(e.nodes)[j], path) else []) +
            Matches(e.(nodes := Removed(e.nodes, name)), path)
  {
    var kids := Kids(e.nodes);
    var j := Named(kids, name, 0);
    RemovedIsFirst(e.nodes, name);
    if j < |kids| {
      MatchesAfterKid(kids, name, path);
    } else {
      Empty(Matches(e, path));
    }
  }

  lemma MatchesAfterKid<I>(kids: seq<Element<I>>, name: string, path: seq<string>)
    requires path != [] && Named(kids, name, 0) < |kids|
    ensures var j := Named(kids, name, 0);
            MatchesAmong(kids, path, 0) == MatchesAt(kids[j], path) + MatchesAmong(kids[..j] + kids[j + 1..], path, 0)
  {
    hide MatchesAmong, MatchesAt, Named;
    var j := Named(kids, name, 0);
    var a, x, b := kids[..j], kids[j], kids[j + 1..];
    Around(kids, j);
    MatchesAround(a, x, b, path);
    if path[0] == name {
      NothingBefore(kids, name, 0);
      NoMatchAmong(a, path);
    } else {
      assert MatchesAt(x, path) == [] by {
        NoMatchAt(x, path);
      }
      Empty(MatchesAmong(a, path, 0));
    }
    Empty(MatchesAt(x, path));
    Empty(MatchesAmong(a + b, path, 0));
    Empty(MatchesAmong(b, path, 0));
  }

  lemma NoMatchAt<I>(kid: Element<I>, path: seq<string>)
    requires path != [] && kid.name != path[0]
    ensures MatchesAt(kid, path) == []
  {
  }

  lemma NoMatchAmong<I>(kids: seq<Element<I>>, path: seq<string>)
    requires path != [] && forall l :: 0 <= l < |kids| ==> kids[l].name != path[0]
    ensures MatchesAmong(kids, path, 0) == []
  {
    NamedIs(kids, path[0], 0, |kids|);
    SkipUnnamed(kids, path, 0);
  }

  lemma MatchesAround<I>(a: seq<Element<I>>, x: Element<I>, b: seq<Element<I>>, path: seq<string>)
    requires path != []
    ensures MatchesAmong(a + ([x] + b), path, 0) ==
              MatchesAmong(a, path, 0) + MatchesAt(x, path) + MatchesAmong(b, path, 0)
    ensures MatchesAmong(a + b, path, 0) == MatchesAmong(a, path, 0) + MatchesAmong(b, path, 0)
  {
    hide MatchesAt;
    MatchesAppend(a, [x] + b, path, 0);
    MatchesAppend([x], b, path, 0);
    MatchesAppend(a, b, path, 0);
    assert MatchesAmong([x], path, 0) == MatchesAt(x, path) + MatchesAmong([x], path, 1);
    Empty(MatchesAt(x, path));
    Assoc(MatchesAmong(a, path, 0), MatchesAt(x, path), MatchesAmong(b, path, 0));
  }

  lemma {:induction false} NothingBefore<I>(kids: seq<Element<I>>, name: string, i: nat)
    requires i <= |kids|
    ensures forall l :: i <= l < Named(kids, name, i) ==> kids[l].name != name
    decreases |kids| - i
  {
    if i < |kids| && kids[i].name != name {
      NothingBefore(kids, name, i + 1);
    }
  }
}
