/** The text of a tag (src/xml_tag.cpp:168-200, src/xmlwriter.cpp:79-94). */
module XmlText {
  import opened Wrappers
  import opened XmlTrees
  import opened Seqs

  function Escaped(c: char): string {
    match c
    case '<' => "&lt;"
    case '>' => "&gt;"
    case '&' => "&amp;"
    case '"' => "&quot;"
    case _ => [c]
  }

  function Escape(text: string): string {
    if text == "" then "" else Escape(text[..|text| - 1]) + Escaped(text[|text| - 1])
  }

  function FullName<I>(e: Element<I>): string { if e.prefix == "" then e.name else e.prefix + ":" + e.name }

  function AttributesText(attributes: Attributes): string {
    if attributes == [] then ""
    else
      var n := |attributes| - 1;
      AttributesText(attributes[..n]) + AttributeText(attributes[n])
  }

  function AttributeText(a: (string, string)): string { " " + a.0 + "=\"" + Escape(a.1) + "\"" }

  function Xml<I>(e: Element<I>): string
    decreases e, 1
  {
    "<" + FullName(e) + AttributesText(e.attributes) +
    if e.nodes == [] then " />" else ">" + NodesXml(e.nodes) + "</" + FullName(e) + ">"
  }

  function NodesXml<I>(nodes: seq<Node<I>>): string
    decreases nodes, 0
  {
    if nodes == [] then ""
    else
      var n := |nodes| - 1;
      NodesXml(nodes[..n]) + NodeXml(nodes[n])
  }

  function NodeXml<I>(node: Node<I>): string
    decreases node, 0
  {
    match node
    case Child(k) => Xml(k)
    case Text(cdata) => Escape(cdata)
  }

  // ----- Escaping loses nothing

  function Entity(text: string): Option<(char, nat)> {
    if "&lt;" <= text then Some(('<', 4))
    else if "&gt;" <= text then Some(('>', 4))
    else if "&amp;" <= text then Some(('&', 5))
    else if "&quot;" <= text then Some(('"', 6))
    else None
  }

  /** What a reader of XML makes of the text again. */
  function Unescape(text: string): string
    decreases |text|
  {
    if text == "" then ""
    else
      match Entity(text)
      case Some((c, n)) => [c] + Unescape(text[n..])
      case None => [text[0]] + Unescape(text[1..])
  }

  lemma UnescapeOne(c: char, rest: string)
    ensures Unescape(Escaped(c) + rest) == [c] + Unescape(rest)
  {
    var text := Escaped(c) + rest;
    assert text[|Escaped(c)|..] == rest;
    match c {
      case '<' => assert text[..4] == "&lt;" && "&lt;" <= text;
      case '>' => assert text[..4] == "&gt;" && "&gt;" <= text && text[1] == 'g';
      case '&' => assert text[..5] == "&amp;" && "&amp;" <= text && text[1] == 'a';
      case '"' => assert text[..6] == "&quot;" && "&quot;" <= text && text[1] == 'q';
      case _ => assert text[0] == c && Entity(text) == None;
    }
  }

  lemma {:induction false} UnescapeEscape(text: string, rest: string)
    ensures Unescape(Escape(text) + rest) == text + Unescape(rest)
    decreases |text|
  {
    hide Unescape, Escaped;
    if text != "" {
      var n := |text| - 1;
      Assoc(text[..n], [text[n]], Unescape(rest));
      UnescapeEscape(text[..n], Escaped(text[n]) + rest);
      UnescapeOne(text[n], rest);
      Assoc(Escape(text[..n]), Escaped(text[n]), rest);
      assert text == text[..n] + [text[n]];
    } else {
      Empty(rest);
    }
  }

  lemma EscapedHidesMarkup(x: char, c: char)
    requires c in {'<', '>', '"'}
    ensures c !in Escaped(x)
  {
  }

  /** The special characters never come out of escape as themselves. */
  lemma {:induction false} EscapeHidesMarkup(text: string, c: char)
    requires c in {'<', '>', '"'}
    ensures c !in Escape(text)
  {
    hide Escaped;
    if text != "" {
      EscapeHidesMarkup(text[..|text| - 1], c);
      EscapedHidesMarkup(text[|text| - 1], c);
    }
  }

  /** Each character by itself: four of them become entities (section 4.6 of XML 1.0), all others stay. */
  lemma {:induction false} EscapeEach(a: string, c: char, b: string)
    ensures Escape("") == ""
    ensures Escape(a + [c] + b) ==
            Escape(a) +
            (if c == '<' then "&lt;" else if c == '>' then "&gt;" else if c == '&' then "&amp;"
             else if c == '"' then "&quot;" else [c]) +
            Escape(b)
  {
    if b == "" {
      Empty(a + [c]);
      Empty(Escape(a + [c]));
      Snoc(a, c);
    } else {
      var n := |b| - 1;
      EscapeEach(a, c, b[..n]);
      Assoc(a + [c], b[..n], [b[n]]);
      assert b[..n] + [b[n]] == b;
      Snoc(a + [c] + b[..n], b[n]);
      Assoc(Escape(a) + Escaped(c), Escape(b[..n]), Escaped(b[n]));
    }
  }

  // ----- Attributes, sorted by name

  predicate Less(a: string, b: string) {
    b != "" && (a == "" || a[0] < b[0] || (a[0] == b[0] && Less(a[1..], b[1..])))
  }

  /** The strings agree before k, and there a ends, or has the smaller character. */
  predicate Differs(a: string, b: string, k: nat) {
    k <= |a| && k < |b| && a[..k] == b[..k] && (k == |a| || a[k] < b[k])
  }

  lemma {:induction false} WhereLess(a: string, b: string) returns (k: nat)
    requires Less(a, b)
    ensures Differs(a, b, k)
  {
    if a == "" || a[0] < b[0] {
      k := 0;
    } else {
      var i := WhereLess(a[1..], b[1..]);
      k := i + 1;
      assert a[..k] == [a[0]] + a[1..][..i] && b[..k] == [b[0]] + b[1..][..i];
    }
  }

  lemma {:induction false} LessWhere(a: string, b: string, k: nat)
    requires Differs(a, b, k)
    ensures Less(a, b)
  {
    if k > 0 {
      assert a[0] == a[..k][0] == b[..k][0] == b[0];
      assert a[1..][..k - 1] == a[..k][1..] && b[1..][..k - 1] == b[..k][1..];
      LessWhere(a[1..], b[1..], k - 1);
    }
  }

  /** The order of the dictionary. */
  lemma LessExactly(a: string, b: string)
    ensures Less(a, b) <==> exists k: nat :: Differs(a, b, k)
  {
    if Less(a, b) {
      var k := WhereLess(a, b);
    }
    if k: nat :| Differs(a, b, k) {
      LessWhere(a, b, k);
    }
  }

  predicate Sorted(attributes: Attributes) {
    forall i :: 0 < i < |attributes| ==> Less(attributes[i - 1].0, attributes[i].0)
  }

  /** attributes[name] = value */
  function Assign(attributes: Attributes, name: string, value: string): Attributes {
    if attributes == [] then [(name, value)]
    else
      var n := |attributes| - 1;
      if attributes[n].0 == name then attributes[..n] + [(name, value)]
      else if Less(attributes[n].0, name) then attributes + [(name, value)]
      else Assign(attributes[..n], name, value) + [attributes[n]]
  }

  lemma {:induction false} LessTotal(a: string, b: string)
    ensures a == b || Less(a, b) || Less(b, a)
  {
    if a != "" && b != "" && a[0] == b[0] {
      LessTotal(a[1..], b[1..]);
      assert a == [a[0]] + a[1..] && b == [b[0]] + b[1..];
    }
  }

  lemma {:induction false} NeverLess(a: string)
    ensures !Less(a, a)
  {
    if a != "" {
      NeverLess(a[1..]);
    }
  }

  lemma {:induction false} LessTransitive(a: string, b: string, c: string)
    requires Less(a, b) && Less(b, c)
    ensures Less(a, c)
  {
    if a != "" && a[0] == b[0] == c[0] {
      LessTransitive(a[1..], b[1..], c[1..]);
    }
  }

  /** All names before the last are less than it. */
  lemma {:induction false} LastIsGreatest(attributes: Attributes, name: string)
    requires Sorted(attributes) && attributes != []
    requires attributes[|attributes| - 1].0 == name || Less(attributes[|attributes| - 1].0, name)
    ensures forall p <- attributes[..|attributes| - 1] :: Less(p.0, name)
  {
    var n := |attributes| - 1;
    if n > 0 {
      if attributes[n].0 != name {
        LessTransitive(attributes[n - 1].0, attributes[n].0, name);
      }
      LastIsGreatest(attributes[..n], name);
      assert attributes[..n] == attributes[..n][..n - 1] + [attributes[n - 1]];
    }
  }

  /** Assigning keeps the order, gives the name this value only, and leaves every other name alone. */
  lemma {:induction false} AssignSorted(attributes: Attributes, name: string, value: string)
    requires Sorted(attributes)
    ensures var r := Assign(attributes, name, value);
            Sorted(r) && r != [] && (name, value) in r
    ensures var r := Assign(attributes, name, value);
            r[|r| - 1].0 == name || (attributes != [] && r[|r| - 1] == attributes[|attributes| - 1])
    ensures forall p: (string, string) :: p.0 != name ==> (p in Assign(attributes, name, value) <==> p in attributes)
    ensures forall p <- Assign(attributes, name, value) :: p.0 == name ==> p.1 == value
  {
    if attributes != [] {
      var n := |attributes| - 1;
      LessTotal(attributes[n].0, name);
      NeverLess(name);
      assert attributes == attributes[..n] + [attributes[n]];
      if attributes[n].0 == name || Less(attributes[n].0, name) {
        LastIsGreatest(attributes, name);
      } else {
        AssignSorted(attributes[..n], name, value);
      }
    }
  }

  /** Assigning the attributes of a tag one by one, in their order, builds them up again. */
  lemma AssignNext(attributes: Attributes, i: nat)
    requires Sorted(attributes) && i < |attributes|
    ensures Assign(attributes[..i], attributes[i].0, attributes[i].1) == attributes[..i + 1]
  {
    if i > 0 {
      NeverLess(attributes[i].0);
    }
  }
}
