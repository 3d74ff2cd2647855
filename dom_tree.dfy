/** Chapter 14 (The Document Object Model): `talksAbout`, a recursive search
    of a document tree for a text node containing a string. */
module DomTree {
  import opened Wrappers

  /** A document node, by its `nodeType`: an element (code 1) with its
      `childNodes`, a text node (code 3) with its `nodeValue`, or any other
      kind (a comment has code 8) that the search does not look into. */
  datatype DomNode =
    | Element(childNodes: seq<DomNode>)
    | Text(nodeValue: string)
    | Other(nodeType: OtherNodeType)

  /** The `nodeType` codes that are neither an element nor a text node. */
  type OtherNodeType = t: int | t != 1 && t != 3 witness 8

  /** sub occurs in text starting at position i. */
  ghost predicate OccursAt(text: string, sub: string, i: int)
  {
    0 <= i <= |text| - |sub| && text[i..i + |sub|] == sub
  }

  /** `text.indexOf(sub) > -1`: sub occurs somewhere in text (the empty
      string occurs everywhere). */
  function Contains(text: string, sub: string): (r: bool)
    ensures r <==> exists i :: OccursAt(text, sub, i)
    decreases |text|
  {
    if |sub| <= |text| && text[..|sub|] == sub then
      assert OccursAt(text, sub, 0);
      true
    else if |text| <= |sub| then
      assert forall i :: !OccursAt(text, sub, i);
      false
    else
      var rest := Contains(text[1..], sub);
      assert forall i :: OccursAt(text[1..], sub, i) <==> OccursAt(text, sub, i + 1) by {
        forall i ensures OccursAt(text[1..], sub, i) <==> OccursAt(text, sub, i + 1) {
          if 0 <= i <= |text| - 1 - |sub| {
            assert text[1..][i..i + |sub|] == text[i + 1..i + 1 + |sub|];
          }
        }
      }
      assert !OccursAt(text, sub, 0);
      assert forall i :: OccursAt(text, sub, i) && i > 0 ==> OccursAt(text[1..], sub, i - 1);
      rest
  }

  /** `talksAbout(node, string)`: true or false on elements and text nodes;
      on any other node type the function falls off its end and yields
      `undefined`, written None. */
  function TalksAbout(node: DomNode, s: string): (r: Option<bool>)
    ensures node.Element? ==> r == Some(exists i :: 0 <= i < |node.childNodes| && TalksAbout(node.childNodes[i], s) == Some(true))
    ensures node.Text? ==> r == Some(Contains(node.nodeValue, s))
    ensures node.Other? ==> r == None
    decreases node, 1
  {
    match node
    case Element(children) => Some(AnyChildTalksAbout(children, s))
    case Text(value) => Some(Contains(value, s))
    case Other(_) => None
  }

  /** The element branch's `for (let child of node.childNodes)` loop, which
      returns true at the first child that talks about the string; an
      `undefined` from a child is falsy and the loop goes on. */
  function AnyChildTalksAbout(children: seq<DomNode>, s: string): (r: bool)
    ensures r <==> exists i :: 0 <= i < |children| && TalksAbout(children[i], s) == Some(true)
    decreases children, 0
  {
    if children == [] then false
    else if TalksAbout(children[0], s) == Some(true) then true
    else
      var rest := AnyChildTalksAbout(children[1..], s);
      assert forall i :: 1 <= i < |children| ==> children[i] == children[1..][i - 1];
      rest
  }

  /** The text of every text node below a node, in document order: an
      independent description of what the search looks at. */
  function Texts(node: DomNode): seq<string>
    decreases node, 1
  {
    match node
    case Element(children) => ChildTexts(children)
    case Text(value) => [value]
    case Other(_) => []
  }

  function ChildTexts(children: seq<DomNode>): seq<string>
    decreases children, 0
  {
    if children == [] then [] else Texts(children[0]) + ChildTexts(children[1..])
  }

  /** The search finds the string exactly when some text node below the
      node contains it. */
  lemma {:induction false} TalksAboutIffSomeText(node: DomNode, s: string)
    ensures TalksAbout(node, s) == Some(true) <==> exists t :: t in Texts(node) && Contains(t, s)
    decreases node, 1
  {
    match node
    case Element(children) => ChildrenTalkIffSomeText(children, s);
    case Text(value) =>
      assert Texts(node) == [value];
      assert TalksAbout(node, s) == Some(Contains(value, s));
      assert Contains(value, s) ==> value in Texts(node) && Contains(value, s);
    case Other(_) =>
  }

  lemma {:induction false} ChildrenTalkIffSomeText(children: seq<DomNode>, s: string)
    ensures AnyChildTalksAbout(children, s) <==> exists t :: t in ChildTexts(children) && Contains(t, s)
    decreases children, 0
  {
    if children != [] {
      TalksAboutIffSomeText(children[0], s);
      ChildrenTalkIffSomeText(children[1..], s);
      assert ChildTexts(children) == Texts(children[0]) + ChildTexts(children[1..]);
    }
  }

  /** An element with no children yields false; a comment never yields true. */
  lemma NoChildrenNoMention(s: string)
    ensures TalksAbout(Element([]), s) == Some(false)
    ensures TalksAbout(Other(8), s) != Some(true)
  {
  }

  lemma BookExample()
    ensures TalksAbout(Element([Other(8), Element([Text("my book")])]), "book") == Some(true)
    ensures TalksAbout(Element([Other(8), Element([Text("pen")])]), "book") == Some(false)
  {
    assert Contains("my book", "book") by {
      assert OccursAt("my book", "book", 3);
    }
    assert AnyChildTalksAbout([Text("pen")], "book") == false;
  }
}
