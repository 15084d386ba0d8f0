/** ATXmlTag: tags that point to their children and to their parent (src/xml_tag.cpp). Each tag of a tree
    stands for an element of a value of XmlTrees, whose identity it is. */
module XmlTags {
  import Strings
  import opened Wrappers
  import opened XmlTrees
  import opened XmlSearch
  import opened XmlRemoval
  import opened XmlText
  import opened Seqs

  datatype TagNode = TagChild(tag: Tag) | TagText(cdata: string)

  type Shape = Element<Tag>

  class Tag {
    var prefix: string
    var name: string
    var attributes: Attributes
    var children: seq<Tag>
    var childNodes: seq<TagNode>
    var parent: Tag?

    constructor (prefix: string, name: string, attributes: Attributes, parent: Tag?)
      ensures this.prefix == prefix && this.name == name && this.attributes == attributes && this.parent == parent
      ensures children == [] && childNodes == []
    {
      this.prefix, this.name, this.attributes, this.parent := prefix, name, attributes, parent;
      children, childNodes := [], [];
    }

    // ----- Building

    method InsertChildElement(tag: Tag)
      modifies this, tag`parent
      ensures tag.parent == this && (tag != this ==> parent == old(parent))
      ensures children == old(children) + [tag] && childNodes == old(childNodes) + [TagChild(tag)]
      ensures prefix == old(prefix) && name == old(name) && attributes == old(attributes)
    {
      tag.parent := this;
      children := children + [tag];
      childNodes := childNodes + [TagChild(tag)];
    }

    method InsertCharacterData(cdata: string)
      modifies `childNodes
      ensures childNodes == old(childNodes) + [TagText(cdata)]
    {
      childNodes := childNodes + [TagText(cdata)];
    }

    // ----- Removing

    /** removeChild: the first child of that name leaves both lists; it is deleted with all below it. */
    method RemoveChild(name: string, ghost s: Shape, ghost region: set<Tag>)
      requires s.id == this && Represents(s, region) && Distinct(s)
      modifies `children, `childNodes
      ensures var left := s.(nodes := Removed(s.nodes, name)); Represents(left, region) && Distinct(left)
    {
      hide AllRepresented, AllDistinct, Below, Kids;
      var i := 0;
      while i < |childNodes|
        invariant i <= |childNodes| == |s.nodes| && FirstNamed(s.nodes, name, i) == FirstNamed(s.nodes, name, 0)
        invariant Represents(s, region)
      {
        if childNodes[i].TagChild? {
          NodeAt(this, s.nodes, region, i);
          var tag := childNodes[i].tag;
          if tag.name == name {
            ChildLeaves(s, region, i);
            childNodes := childNodes[..i] + childNodes[i + 1..];
            children := Others(children, tag);
            WiderRegion(this, Without(s.nodes, i), Below(s.nodes), region);
            return;
          }
        }
        i := i + 1;
      }
    }

    /** clear: everything below is deleted. */
    method Clear(ghost s: Shape, ghost region: set<Tag>)
      requires s.id == this && Represents(s, region)
      modifies `children, `childNodes
      ensures Represents(s.(nodes := []), region)
    {
      children, childNodes := [], [];
    }

    // ----- Searching

    method FirstChild(name: string, ghost s: Shape, ghost region: set<Tag>) returns (r: Tag?)
      requires s.id == this && Represents(s, region)
      ensures r == TagOf(At(Kids(s.nodes), Named(Kids(s.nodes), name, 0)))
    {
      r := FirstFrom(0, name, s, region);
    }

    /** The rest of a loop over the children that looks for a name. */
    method FirstFrom(start: nat, name: string, ghost s: Shape, ghost region: set<Tag>) returns (r: Tag?)
      requires s.id == this && Represents(s, region) && start <= |children|
      ensures r == TagOf(At(Kids(s.nodes), Named(Kids(s.nodes), name, start)))
    {
      ghost var kids := Kids(s.nodes);
      var i := start;
      while i < |children|
        invariant start <= i <= |children|
        invariant Named(kids, name, i) == Named(kids, name, start)
      {
        KidRepresented(s, region, i);
        if children[i].name == name {
          return children[i];
        }
        i := i + 1;
      }
      return null;
    }

    method NextChild(name: string, from: Tag, ghost s: Shape, ghost region: set<Tag>) returns (r: Tag?)
      requires s.id == this && Represents(s, region)
      ensures var kids := Kids(s.nodes);
              var p := Position(kids, from, 0);
              r == if p == |kids| then null else TagOf(At(kids, Named(kids, name, p + 1)))
    {
      ghost var kids := Kids(s.nodes);
      var i := 0;
      while i < |children|
        invariant i <= |children| && Position(kids, from, i) == Position(kids, from, 0)
      {
        if children[i] == from {
          r := FirstFrom(i + 1, name, s, region);
          return;
        }
        i := i + 1;
      }
      return null;
    }

    /** Walks from tag to the root; line lists the ancestors it meets. */
    method HasChild(tag: Tag, ghost line: seq<Tag>) returns (r: bool)
      requires Ancestors(tag, line)
      ensures r == (this in line)
    {
      if tag == this {
        NotOwnAncestor(tag, line);
        return false;
      }
      var t: Tag := tag;
      ghost var i := 0;
      while t.parent != null
        invariant i <= |line| && Ancestors(t, line[i..]) && this !in line[..i]
        decreases |line| - i
      {
        if t.parent == this {
          return true;
        }
        t := t.parent;
        i := i + 1;
      }
      return false;
    }

    method Find(path: string, ghost s: Shape, ghost region: set<Tag>) returns (r: Tag?)
      requires s.id == this && Represents(s, region) && Distinct(s)
      ensures r == TagOf(XmlSearch.Find(s, Segments(path)))
      decreases |path|, 1, 0
    {
      ghost var kids := Kids(s.nodes);
      var slash := Slash(path, 0);
      if slash == |path| {
        r := FirstChild(path, s, region);
        return;
      }
      var child := FirstChild(path[..slash], s, region);
      r := FindAmong(path, slash, child, s, region, 0);
    }

    /** for ( ; child; child = nextChild(name, child)) with find on each child. */
    method FindAmong(path: string, slash: nat, start: Tag?, ghost s: Shape, ghost region: set<Tag>, ghost from: nat)
      returns (r: Tag?)
      requires s.id == this && Represents(s, region) && Distinct(s) && from <= |Kids(s.nodes)|
      requires slash == Slash(path, 0) < |path|
      requires start == TagOf(At(Kids(s.nodes), Named(Kids(s.nodes), path[..slash], from)))
      ensures r == TagOf(XmlSearch.FindAmong(Kids(s.nodes), Segments(path), from))
      decreases |path|, 0, 0
    {
      hide Represents, Distinct, Kids, Slash, Named, Segments, XmlSearch.FindAmong;
      ghost var kids := Kids(s.nodes);
      ghost var j := Named(kids, path[..slash], from);
      AmongFirst(kids, path, slash, from);
      var child := start;
      while child != null
        invariant from <= j <= |kids| && child == TagOf(At(kids, j)) && (j < |kids| ==> kids[j].name == path[..slash])
        invariant XmlSearch.FindAmong(kids, Segments(path), j) == XmlSearch.FindAmong(kids, Segments(path), from)
        decreases |kids| - j
      {
        AmongStep(kids, path, slash, j);
        KidRepresented(s, region, j);
        r := child.Find(path[slash + 1..], kids[j], region);
        if r != null {
          return;
        }
        ChildPosition(s, j);
        child := NextChild(path[..slash], child, s, region);
        j := Named(kids, path[..slash], j + 1);
      }
      return null;
    }

    /** The loop of findNext up to the child that contains from. */
    method FindHolder(name: string, from: Tag, ghost s: Shape, ghost region: set<Tag>, ghost line: seq<Tag>)
      returns (child: Tag?)
      requires s.id == this && Represents(s, region) && Distinct(s) && Ancestors(from, line)
      ensures child == TagOf(At(Kids(s.nodes), Holder(Kids(s.nodes), name, line, 0)))
    {
      hide Represents, Distinct, Kids, Ancestors;
      ghost var kids := Kids(s.nodes);
      ghost var j := Named(kids, name, 0);
      HolderIsNamed(kids, name, line, 0);
      child := FirstChild(name, s, region);
      while child != null
        invariant j <= |kids| && child == TagOf(At(kids, j)) && (j < |kids| ==> kids[j].name == name)
        invariant Holder(kids, name, line, j) == Holder(kids, name, line, 0)
        decreases |kids| - j
      {
        var holds := child.HasChild(from, line);
        if holds {
          return;
        }
        ChildPosition(s, j);
        HolderIsNamed(kids, name, line, j + 1);
        child := NextChild(name, child, s, region);
        j := Named(kids, name, j + 1);
      }
    }

    method FindNext(path: string, from: Tag, ghost s: Shape, ghost region: set<Tag>, ghost line: seq<Tag>)
      returns (r: Tag?)
      requires s.id == this && Represents(s, region) && Distinct(s) && Ancestors(from, line)
      ensures r == TagOf(XmlSearch.FindNext(s, Segments(path), from, line))
      decreases |path|
    {
      hide Represents, Distinct, Kids, Ancestors, XmlSearch.FindAmong;
      ghost var kids := Kids(s.nodes);
      var slash := Slash(path, 0);
      if slash == |path| {
        r := NextChild(path, from, s, region);
        return;
      }
      var child := FindHolder(path[..slash], from, s, region, line);
      ghost var j := Holder(kids, path[..slash], line, 0);
      if child == null {
        return null;
      }
      KidRepresented(s, region, j);
      r := child.FindNext(path[slash + 1..], from, kids[j], region, line);
      if r == null {
        ChildPosition(s, j);
        child := NextChild(path[..slash], child, s, region);
        r := FindAmong(path, slash, child, s, region, j + 1);
      }
    }
  }

  // ----- Serialising

  method AttributesToString(attributes: Attributes) returns (xml: string)
    ensures xml == AttributesText(attributes)
  {
    xml := "";
    var i := 0;
    while i < |attributes|
      invariant i <= |attributes| && xml == AttributesText(attributes[..i])
    {
      assert attributes[..i + 1][..i] == attributes[..i];
      xml := xml + (" " + attributes[i].0 + "=\"" + Escape(attributes[i].1) + "\"");
      i := i + 1;
    }
    assert attributes[..i] == attributes;
  }

  /** toString */
  method ToString(tag: Tag, ghost s: Shape, ghost region: set<Tag>) returns (xml: string)
    requires s.id == tag && Represents(s, region)
    ensures xml == Xml(s)
    decreases s, 2
  {
    var name := if tag.prefix == "" then tag.name else tag.prefix + ":" + tag.name;
    var attributes := AttributesToString(tag.attributes);
    xml := "<" + name + attributes;
    if tag.childNodes == [] {
      xml := xml + " />";
    } else {
      var inner := NodesToString(tag, s.nodes, region);
      xml := xml + (">" + inner + "</" + name + ">");
    }
  }

  method NodesToString(tag: Tag, ghost nodes: seq<Node<Tag>>, ghost region: set<Tag>) returns (xml: string)
    requires Holds(tag.childNodes, nodes) && AllRepresented(tag, nodes, region)
    ensures xml == NodesXml(nodes)
    decreases nodes, 1
  {
    xml := "";
    var i := 0;
    while i < |tag.childNodes|
      invariant i <= |nodes| == |tag.childNodes| && xml == NodesXml(nodes[..i])
    {
      NodeAt(tag, nodes, region, i);
      var text := NodeToString(tag.childNodes[i], tag, nodes[i], region);
      assert nodes[..i + 1][..i] == nodes[..i];
      xml := xml + text;
      i := i + 1;
    }
    assert nodes[..i] == nodes;
  }

  method NodeToString(child: TagNode, ghost owner: Tag, ghost node: Node<Tag>, ghost region: set<Tag>)
    returns (xml: string)
    requires child == TagNodeOf(node) && NodeRepresented(owner, node, region)
    ensures xml == NodeXml(node)
    decreases node, 0
  {
    match child
    case TagChild(tag) => xml := ToString(tag, node.element, region);
    case TagText(cdata) => xml := Escape(cdata);
  }

  lemma {:induction false} NodeAt(owner: Tag, nodes: seq<Node<Tag>>, region: set<Tag>, i: nat)
    requires AllRepresented(owner, nodes, region) && i < |nodes|
    ensures NodeRepresented(owner, nodes[i], region)
  {
    if i < |nodes| - 1 {
      NodeAt(owner, nodes[..|nodes| - 1], region, i);
    }
  }

  // ----- Tags and the values they stand for

  /** The tags of this region hold the tree s. */
  ghost predicate Represents(s: Shape, region: set<Tag>)
    reads region
    decreases s, 1
  {
    && s.id in region
    && s.id.prefix == s.prefix && s.id.name == s.name && s.id.attributes == s.attributes
    && Listed(s.id.children, Kids(s.nodes))
    && Holds(s.id.childNodes, s.nodes)
    && AllRepresented(s.id, s.nodes, region)
  }

  ghost predicate AllRepresented(owner: Tag, nodes: seq<Node<Tag>>, region: set<Tag>)
    reads region
    decreases nodes, 0
  {
    nodes == [] ||
    var n := |nodes| - 1;
    AllRepresented(owner, nodes[..n], region) && NodeRepresented(owner, nodes[n], region)
  }

  ghost predicate NodeRepresented(owner: Tag, node: Node<Tag>, region: set<Tag>)
    reads region
    decreases node, 0
  {
    match node
    case Child(k) => k.id in region && k.id.parent == owner && Represents(k, region)
    case Text(_) => true
  }

  function TagNodeOf(node: Node<Tag>): TagNode {
    match node
    case Child(k) => TagChild(k.id)
    case Text(cdata) => TagText(cdata)
  }

  ghost predicate Holds(childNodes: seq<TagNode>, nodes: seq<Node<Tag>>) {
    |childNodes| == |nodes| && forall i :: 0 <= i < |nodes| ==> childNodes[i] == TagNodeOf(nodes[i])
  }

  ghost predicate Listed(tags: seq<Tag>, es: seq<Shape>) {
    |tags| == |es| && forall i :: 0 <= i < |es| ==> tags[i] == es[i].id
  }

  function TagOf(e: Option<Shape>): Tag? { if e.Some? then e.value.id else null }

  lemma {:induction false} KidOfNodes(owner: Tag, nodes: seq<Node<Tag>>, region: set<Tag>, i: nat)
    requires AllRepresented(owner, nodes, region) && i < |Kids(nodes)|
    ensures Kids(nodes)[i].id in region && Kids(nodes)[i].id.parent == owner && Represents(Kids(nodes)[i], region)
  {
    var n := |nodes| - 1;
    assert NodeRepresented(owner, nodes[n], region);
    if i < |Kids(nodes[..n])| {
      KidOfNodes(owner, nodes[..n], region, i);
    }
  }

  lemma KidRepresented(s: Shape, region: set<Tag>, i: nat)
    requires Represents(s, region) && i < |Kids(s.nodes)|
    ensures s.id.children[i] == Kids(s.nodes)[i].id && Kids(s.nodes)[i].id in region
    ensures Kids(s.nodes)[i].id.parent == s.id
    ensures Represents(Kids(s.nodes)[i], region)
    ensures Distinct(s) ==> Distinct(Kids(s.nodes)[i])
  {
    KidOfNodes(s.id, s.nodes, region, i);
    KidIsBelow(s.nodes, i);
  }

  /** nextChild finds the child it was given where it is. */
  lemma ChildPosition(s: Shape, j: nat)
    requires Distinct(s) && j < |Kids(s.nodes)|
    ensures Position(Kids(s.nodes), Kids(s.nodes)[j].id, 0) == j
  {
    var kids := Kids(s.nodes);
    var p := Position(kids, kids[j].id, 0);
    PositionFinds(kids, j, 0);
    if p < j {
      KidsApart(s.nodes, p, j);
    }
  }

  lemma {:induction false} PositionFinds(kids: seq<Shape>, j: nat, i: nat)
    requires i <= j < |kids|
    ensures var p := Position(kids, kids[j].id, i); p <= j && kids[p].id == kids[j].id
    decreases j - i
  {
    if kids[i].id != kids[j].id {
      PositionFinds(kids, j, i + 1);
    }
  }

  lemma {:induction false} HolderIsNamed(kids: seq<Shape>, name: string, line: seq<Tag>, i: nat)
    requires i <= |kids|
    ensures Holder(kids, name, line, i) == Holder(kids, name, line, Named(kids, name, i))
    decreases |kids| - i
  {
    if i < |kids| && kids[i].name != name {
      HolderIsNamed(kids, name, line, i + 1);
    }
  }

  lemma AmongFirst(kids: seq<Shape>, path: string, slash: nat, i: nat)
    requires slash == Slash(path, 0) < |path| && i <= |kids|
    ensures Segments(path) == [path[..slash]] + Segments(path[slash + 1..]) && |Segments(path)| > 1
    ensures XmlSearch.FindAmong(kids, Segments(path), i) ==
              XmlSearch.FindAmong(kids, Segments(path), Named(kids, path[..slash], i))
    ensures XmlSearch.FindAmong(kids, Segments(path), |kids|) == None
  {
  }

  lemma AmongStep(kids: seq<Shape>, path: string, slash: nat, j: nat)
    requires slash == Slash(path, 0) < |path| && j < |kids| && kids[j].name == path[..slash]
    ensures |Segments(path)| > 1
    ensures var r := XmlSearch.Find(kids[j], Segments(path[slash + 1..]));
            XmlSearch.FindAmong(kids, Segments(path), j) ==
            if r.Some? then r else XmlSearch.FindAmong(kids, Segments(path), Named(kids, path[..slash], j + 1))
  {
    hide Segments, Slash, XmlSearch.Find;
    AmongFirst(kids, path, slash, j);
    AmongFirst(kids, path, slash, j + 1);
  }

  // ----- Regions

  lemma {:induction false} WiderRegion(owner: Tag, nodes: seq<Node<Tag>>, region: set<Tag>, wider: set<Tag>)
    requires AllRepresented(owner, nodes, region) && region <= wider
    ensures AllRepresented(owner, nodes, wider)
    decreases nodes, 1
  {
    if nodes != [] {
      var n := |nodes| - 1;
      WiderRegion(owner, nodes[..n], region, wider);
      WiderNode(owner, nodes[n], region, wider);
    }
  }

  lemma {:induction false} WiderNode(owner: Tag, node: Node<Tag>, region: set<Tag>, wider: set<Tag>)
    requires NodeRepresented(owner, node, region) && region <= wider
    ensures NodeRepresented(owner, node, wider)
    decreases node, 0
  {
    match node
    case Child(k) => WiderRegion(k.id, k.nodes, region, wider);
    case Text(_) =>
  }

  /** A tree is represented by its own tags. */
  lemma {:induction false} OwnRegion(owner: Tag, nodes: seq<Node<Tag>>, region: set<Tag>)
    requires AllRepresented(owner, nodes, region)
    ensures AllRepresented(owner, nodes, Below(nodes)) && Below(nodes) <= region
    decreases nodes, 1
  {
    if nodes != [] {
      var n := |nodes| - 1;
      OwnRegion(owner, nodes[..n], region);
      WiderRegion(owner, nodes[..n], Below(nodes[..n]), Below(nodes));
      OwnNode(owner, nodes[n], region);
      WiderNode(owner, nodes[n], NodeIds(nodes[n]), Below(nodes));
    }
  }

  lemma {:induction false} OwnNode(owner: Tag, node: Node<Tag>, region: set<Tag>)
    requires NodeRepresented(owner, node, region)
    ensures NodeRepresented(owner, node, NodeIds(node)) && NodeIds(node) <= region
    decreases node, 0
  {
    match node
    case Child(k) =>
      OwnRegion(k.id, k.nodes, region);
      WiderRegion(k.id, k.nodes, Below(k.nodes), Ids(k));
    case Text(_) =>
  }

  lemma {:induction false} RepresentedAppend(owner: Tag, a: seq<Node<Tag>>, b: seq<Node<Tag>>, region: set<Tag>)
    ensures AllRepresented(owner, a + b, region) <==>
              AllRepresented(owner, a, region) && AllRepresented(owner, b, region)
  {
    if b == [] {
      Empty(a);
    } else {
      var n := |b| - 1;
      RepresentedAppend(owner, a, b[..n], region);
      assert (a + b)[..|a| + n] == a + b[..n];
    }
  }

  // ----- Taking a child out

  /** std::list::remove */
  function Others(tags: seq<Tag>, tag: Tag): seq<Tag> {
    if tags == [] then [] else (if tags[0] == tag then [] else [tags[0]]) + Others(tags[1..], tag)
  }

  lemma {:induction false} OthersAre(tags: seq<Tag>, tag: Tag)
    requires tag !in tags
    ensures Others(tags, tag) == tags
  {
    if tags != [] {
      OthersAre(tags[1..], tag);
    }
  }

  lemma {:induction false} OthersAround(a: seq<Tag>, tag: Tag, b: seq<Tag>)
    requires tag !in a && tag !in b
    ensures Others(a + ([tag] + b), tag) == a + b
  {
    if a == [] {
      assert (a + ([tag] + b))[1..] == b && a + b == b;
      OthersAre(b, tag);
    } else {
      OthersAround(a[1..], tag, b);
      assert (a + ([tag] + b))[1..] == a[1..] + ([tag] + b);
      assert a + b == [a[0]] + (a[1..] + b);
    }
  }

  /** Both lists of a tag lose the same child. */
  lemma ListsAgree(s: Shape, region: set<Tag>, i: nat)
    requires Represents(s, region) && Distinct(s) && i < |s.nodes| && s.nodes[i].Child?
    ensures Listed(Others(s.id.children, s.nodes[i].element.id), Kids(Without(s.nodes, i)))
    ensures Holds(s.id.childNodes[..i] + s.id.childNodes[i + 1..], Without(s.nodes, i))
  {
    hide AllRepresented, AllDistinct, Kids, Others;
    var kids, tags, j := Kids(s.nodes), s.id.children, |Kids(s.nodes[..i])|;
    WithoutKid(s.nodes, i);
    forall l | 0 <= l < |kids| && l != j ensures kids[l].id != kids[j].id {
      KidsApart(s.nodes, if l < j then l else j, if l < j then j else l);
    }
    OthersListed(tags, kids, j);
  }

  lemma OthersListed(tags: seq<Tag>, kids: seq<Shape>, j: nat)
    requires Listed(tags, kids) && j < |kids|
    requires forall l :: 0 <= l < |kids| && l != j ==> kids[l].id != kids[j].id
    ensures Listed(Others(tags, kids[j].id), kids[..j] + kids[j + 1..])
  {
    hide Others;
    assert tags == tags[..j] + ([kids[j].id] + tags[j + 1..]);
    OthersAround(tags[..j], kids[j].id, tags[j + 1..]);
  }

  lemma ChildLeaves(s: Shape, region: set<Tag>, i: nat)
    requires Represents(s, region) && Distinct(s) && i < |s.nodes| && s.nodes[i].Child?
    ensures Listed(Others(s.id.children, s.nodes[i].element.id), Kids(Without(s.nodes, i)))
    ensures Holds(s.id.childNodes[..i] + s.id.childNodes[i + 1..], Without(s.nodes, i))
    ensures AllRepresented(s.id, Without(s.nodes, i), Below(s.nodes)) && Below(s.nodes) <= region
    ensures Distinct(s.(nodes := Without(s.nodes, i))) && s.id !in Below(s.nodes)
  {
    ListsAgree(s, region, i);
    OwnRegion(s.id, s.nodes, region);
    WithoutLoses(s.nodes, i);
    Around(s.nodes, i);
    var a, x, b := s.nodes[..i], [s.nodes[i]], s.nodes[i + 1..];
    RepresentedAppend(s.id, a, x + b, Below(s.nodes));
    RepresentedAppend(s.id, x, b, Below(s.nodes));
    RepresentedAppend(s.id, a, b, Below(s.nodes));
  }

  // ----- Ancestors

  ghost predicate Ancestors(t: Tag, line: seq<Tag>)
    reads t, line
    decreases |line|
  {
    if line == [] then t.parent == null else t.parent == line[0] && Ancestors(line[0], line[1..])
  }

  lemma {:induction false} OneLine(t: Tag, a: seq<Tag>, b: seq<Tag>)
    requires Ancestors(t, a) && Ancestors(t, b)
    ensures a == b
    decreases |a|
  {
    if a != [] && b != [] {
      OneLine(a[0], a[1..], b[1..]);
      assert a == [a[0]] + a[1..] && b == [b[0]] + b[1..];
    }
  }

  lemma {:induction false} LineTail(t: Tag, line: seq<Tag>, i: nat)
    requires Ancestors(t, line) && i < |line|
    ensures Ancestors(line[i], line[i + 1..])
    decreases |line|
  {
    if i > 0 {
      LineTail(line[0], line[1..], i - 1);
      assert line[1..][i..] == line[i + 1..];
    }
  }

  lemma NotOwnAncestor(t: Tag, line: seq<Tag>)
    requires Ancestors(t, line)
    ensures t !in line
  {
    if t in line {
      var i :| 0 <= i < |line| && line[i] == t;
      LineTail(t, line, i);
      OneLine(t, line, line[i + 1..]);
    }
  }

  // ----- Paths

  function Slash(path: string, i: nat): (j: nat)
    requires i <= |path|
    ensures i <= j <= |path|
    decreases |path| - i
  {
    if i == |path| || path[i] == '/' then i else Slash(path, i + 1)
  }

  function Segments(path: string): (segments: seq<string>)
    ensures segments != []
    decreases |path|
  {
    var j := Slash(path, 0);
    if j == |path| then [path] else [path[..j]] + Segments(path[j + 1..])
  }

  lemma {:induction false} SlashEnds(path: string, i: nat, j: nat)
    requires i <= j <= |path| && '/' !in path[i..j] && (j == |path| || path[j] == '/')
    ensures Slash(path, i) == j
    decreases j - i
  {
    if i < j {
      assert path[i] == path[i..j][0] && path[i + 1..j] == path[i..j][1..];
      SlashEnds(path, i + 1, j);
    }
  }

  /** Names put together with slashes are looked up one after the other. */
  lemma {:induction false} SegmentsAreNames(names: seq<string>)
    requires names != [] && forall name <- names :: '/' !in name
    ensures Segments(Strings.Joined("/", names)) == names
  {
    var path := Strings.Joined("/", names);
    var name := names[0];
    if |names| == 1 {
      assert path[0..|path|] == path == name;
      SlashEnds(path, 0, |path|);
    } else {
      var rest := Strings.Joined("/", names[1..]);
      assert path == name + ("/" + rest);
      assert path[0..|name|] == path[..|name|] == name && path[|name|] == '/' && path[|name| + 1..] == rest;
      SlashEnds(path, 0, |name|);
      SegmentsAreNames(names[1..]);
    }
  }

  lemma {:induction false} AncestorsWithin(owner: Tag, nodes: seq<Node<Tag>>, region: set<Tag>, from: Tag, up: seq<Tag>)
    requires AllRepresented(owner, nodes, region) && Ancestors(owner, up) && from in Below(nodes)
    ensures Ancestors(from, LineIn(nodes, from) + ([owner] + up))
    decreases nodes, 1
  {
    var n := |nodes| - 1;
    assert NodeRepresented(owner, nodes[n], region);
    if from in NodeIds(nodes[n]) {
      AncestorsOfNode(owner, nodes[n], region, from, up);
    } else {
      AncestorsWithin(owner, nodes[..n], region, from, up);
    }
  }

  lemma {:induction false} AncestorsOfNode(owner: Tag, node: Node<Tag>, region: set<Tag>, from: Tag, up: seq<Tag>)
    requires NodeRepresented(owner, node, region) && Ancestors(owner, up) && from in NodeIds(node)
    ensures Ancestors(from, LineInNode(node, from) + ([owner] + up))
    decreases node, 0
  {
    match node
    case Child(k) =>
      var line := [owner] + up;
      assert line[1..] == up;
      if from == k.id {
        assert [] + line == line;
      } else {
        AncestorsWithin(k.id, k.nodes, region, from, line);
        assert LineIn(k.nodes, from) + [k.id] + line == LineIn(k.nodes, from) + ([k.id] + line);
      }
  }

  /** find, then findNext from each result until there is none: exactly the matches, once each and in
      document order. The tag searched may itself have ancestors. */
  method Enumerate(root: Tag, path: string, ghost s: Shape, ghost region: set<Tag>, ghost up: seq<Tag>)
    returns (found: seq<Tag>)
    requires s.id == root && Represents(s, region) && Distinct(s)
    requires Ancestors(root, up) && forall t <- up :: t !in Ids(s)
    ensures Listed(found, Matches(s, Segments(path)))
  {
    hide Represents, Matches, Segments, XmlSearch.FindNext, XmlSearch.Find;
    ghost var matches := Matches(s, Segments(path));
    found := [];
    FindIsFirst(s, Segments(path));
    var r := root.Find(path, s, region);
    while r != null
      invariant |found| <= |matches| && Listed(found, matches[..|found|])
      invariant r == TagOf(First(matches[|found|..]))
      decreases |matches| - |found|
    {
      ghost var m := |found|;
      ghost var line := LineToMatch(s, region, up, Segments(path), m);
      FindNextIsNext(s, Segments(path), line, m);
      found := found + [r];
      r := root.FindNext(path, r, s, region, line);
    }
    assert matches[..|found|] == matches;
  }

  lemma LineToMatch(s: Shape, region: set<Tag>, up: seq<Tag>, path: seq<string>, m: nat) returns (line: seq<Tag>)
    requires Represents(s, region) && Distinct(s) && path != [] && m < |Matches(s, path)|
    requires Ancestors(s.id, up) && forall t <- up :: t !in Ids(s)
    ensures Ancestors(Matches(s, path)[m].id, line) && LineOf(s.nodes, Matches(s, path)[m].id, line)
  {
    var from := Matches(s, path)[m].id;
    MatchIsBelow(s, path, m);
    line := LineIn(s.nodes, from) + ([s.id] + up);
    AncestorsWithin(s.id, s.nodes, region, from, up);
    LineInIsLine(s.nodes, from, [s.id] + up);
  }
}
