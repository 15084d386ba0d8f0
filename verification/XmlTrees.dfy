/** XML trees as values. I is the identity of an element: nothing at all, or the object that holds it. */
module XmlTrees {

  type Attributes = seq<(string, string)>

  datatype Element<+I> = Element(id: I, prefix: string, name: string, attributes: Attributes, nodes: seq<Node<I>>)
  datatype Node<+I> = Child(element: Element<I>) | Text(cdata: string)

  /** The list children: the elements among the child nodes. */
  function Kids<I>(nodes: seq<Node<I>>): seq<Element<I>> {
    if nodes == [] then []
    else
      var n := |nodes| - 1;
      if nodes[n].Child? then Kids(nodes[..n]) + [nodes[n].element] else Kids(nodes[..n])
  }

  // ----- Identities

  ghost function Ids<I>(e: Element<I>): set<I>
    decreases e, 1
  {
    {e.id} + Below(e.nodes)
  }

  ghost function Below<I>(nodes: seq<Node<I>>): set<I>
    decreases nodes, 0
  {
    if nodes == [] then {}
    else
      var n := |nodes| - 1;
      Below(nodes[..n]) + NodeIds(nodes[n])
  }

  ghost function NodeIds<I>(node: Node<I>): set<I>
    decreases node, 0
  {
    match node
    case Child(k) => Ids(k)
    case Text(_) => {}
  }

  /** No identity occurs twice. */
  ghost predicate Distinct<I>(e: Element<I>)
    decreases e, 1
  {
    e.id !in Below(e.nodes) && AllDistinct(e.nodes)
  }

  ghost predicate AllDistinct<I>(nodes: seq<Node<I>>)
    decreases nodes, 0
  {
    nodes == [] ||
    var n := |nodes| - 1;
    AllDistinct(nodes[..n]) && NodeDistinct(nodes[n]) && NodeIds(nodes[n]) !! Below(nodes[..n])
  }

  ghost predicate NodeDistinct<I>(node: Node<I>)
    decreases node, 0
  {
    match node
    case Child(k) => Distinct(k)
    case Text(_) => true
  }

  lemma {:induction false} KidIsBelow<I>(nodes: seq<Node<I>>, i: nat)
    requires i < |Kids(nodes)|
    ensures Ids(Kids(nodes)[i]) <= Below(nodes)
    ensures AllDistinct(nodes) ==> Distinct(Kids(nodes)[i])
  {
    var n := |nodes| - 1;
    if i < |Kids(nodes[..n])| {
      KidIsBelow(nodes[..n], i);
    } else {
      assert AllDistinct(nodes) ==> NodeDistinct(nodes[n]);
    }
  }

  lemma {:induction false} KidsApart<I>(nodes: seq<Node<I>>, i: nat, j: nat)
    requires i < j < |Kids(nodes)| && AllDistinct(nodes)
    ensures Ids(Kids(nodes)[i]) !! Ids(Kids(nodes)[j])
  {
    var n := |nodes| - 1;
    if j < |Kids(nodes[..n])| {
      KidsApart(nodes[..n], i, j);
    } else {
      KidIsBelow(nodes[..n], i);
    }
  }
}
