/** The document tree of `msodumper/node.py`. One class stands for `NodeBase`
    and its subclasses `Root`, `Element` and `Content`, told apart by their
    node type: each node has a parent link and an ordered list of children;
    an element also has a name and an attribute map, a content node a text.
    `Repr` is the set of nodes of the subtree, and `Valid` says that the
    subtree is a tree: each child's parent link points back to its parent,
    and each child's subtree lies inside its parent's and does not contain
    the parent. */
module DocTree {
  import opened XmlText

  datatype NodeType = Unknown | Root | Element | Content

  class Node {
    const nodeType: NodeType
    const name: string       // an element's tag; empty for other nodes
    const content: string    // a content node's text; empty for other nodes
    var parent: Node?
    var children: seq<Node>
    var hasContent: bool
    var attrs: map<string, AttrValue>
    ghost var Repr: set<object>

    ghost predicate Valid()
      reads this, Repr
      decreases Repr
    {
      this in Repr &&
      forall i :: 0 <= i < |children| ==>
        children[i] in Repr && children[i].Repr <= Repr && this !in children[i].Repr &&
        children[i].parent == this && children[i].Valid()
    }

    /** `Root()`: the document root, with no children yet. */
    constructor Root()
      ensures Valid() && fresh(Repr) && Repr == {this}
      ensures nodeType == NodeType.Root && parent == null && children == [] && !hasContent && attrs == map[]
    {
      nodeType, name, content := NodeType.Root, "", "";
      parent, children, hasContent, attrs := null, [], false, map[];
      Repr := {this};
    }

    /** `Element(name, attrs)`; an element made without attributes starts with
        an empty map. */
    constructor Element(tag: string, initial: map<string, AttrValue>)
      ensures Valid() && fresh(Repr) && Repr == {this}
      ensures nodeType == NodeType.Element && name == tag && attrs == initial
      ensures parent == null && children == [] && !hasContent
    {
      nodeType, name, content := NodeType.Element, tag, "";
      parent, children, hasContent, attrs := null, [], false, initial;
      Repr := {this};
    }

    /** `Content(content)`: a text node. */
    constructor Content(text: string)
      ensures Valid() && fresh(Repr) && Repr == {this}
      ensures nodeType == NodeType.Content && content == text
      ensures parent == null && children == [] && !hasContent && attrs == map[]
    {
      nodeType, name, content := NodeType.Content, "", text;
      parent, children, hasContent, attrs := null, [], false, map[];
      Repr := {this};
    }

    /** `appendChild`: the node becomes the last child and its parent is this
        node; the earlier children and everything else stay as they were. The
        node must not already belong to this subtree, which keeps it a tree. */
    method AppendChild(node: Node)
      requires Valid() && node.Valid() && Repr !! node.Repr
      modifies this, node
      ensures Valid() && node.Valid() && Repr == old(Repr) + node.Repr
      ensures children == old(children) + [node] && node.parent == this
      ensures parent == old(parent) && hasContent == old(hasContent) && attrs == old(attrs)
      ensures node.children == old(node.children) && node.Repr == old(node.Repr)
      ensures node.hasContent == old(node.hasContent) && node.attrs == old(node.attrs)
    {
      children := children + [node];
      node.parent := this;
      Repr := Repr + node.Repr;
      assert children[|children| - 1] == node;
    }

    /** `appendElement`: a new element with the given name and no attributes
        becomes the last child, and is returned. */
    method AppendElement(tag: string) returns (node: Node)
      requires Valid()
      modifies this
      ensures Valid() && fresh(node) && Repr == old(Repr) + {node}
      ensures node.nodeType == NodeType.Element && node.name == tag && node.attrs == map[]
      ensures node.children == [] && node.parent == this && node.Valid() && node.Repr == {node}
      ensures children == old(children) + [node]
      ensures parent == old(parent) && hasContent == old(hasContent) && attrs == old(attrs)
    {
      node := new Node.Element(tag, map[]);
      AppendChild(node);
    }

    /** `appendContent`: a new text node becomes the last child, is returned,
        and this node now reports that it has content. */
    method AppendContent(text: string) returns (node: Node)
      requires Valid()
      modifies this
      ensures Valid() && fresh(node) && Repr == old(Repr) + {node}
      ensures node.nodeType == NodeType.Content && node.content == text
      ensures node.children == [] && node.parent == this && node.Valid() && node.Repr == {node}
      ensures children == old(children) + [node] && hasContent
      ensures parent == old(parent) && attrs == old(attrs)
    {
      node := new Node.Content(text);
      AppendChild(node);
      hasContent := true;
    }

    /** `firstChildByName`: the first element child with the given name, or
        null when there is none. */
    method FirstChildByName(tag: string) returns (r: Node?)
      ensures r == null <==> forall k :: 0 <= k < |children| ==> !Matches(children[k], tag)
      ensures r != null ==>
        exists k :: 0 <= k < |children| && children[k] == r && Matches(r, tag) &&
                    (forall j :: 0 <= j < k ==> !Matches(children[j], tag))
    {
      var i := 0;
      while i < |children|
        invariant 0 <= i <= |children|
        invariant forall j :: 0 <= j < i ==> !Matches(children[j], tag)
      {
        var child := children[i];
        if child.nodeType == NodeType.Element && child.name == tag {
          return child;
        }
        i := i + 1;
      }
      r := null;
    }

    /** `getChildByName`: the element children with the given name. */
    method GetChildByName(tag: string) returns (r: seq<Node>)
      ensures r == Named(children, tag)
    {
      r := [];
      var i := 0;
      while i < |children|
        invariant 0 <= i <= |children|
        invariant r == Named(children[..i], tag)
      {
        var child := children[i];
        if child.nodeType == NodeType.Element && child.name == tag {
          r := r + [child];
        }
        assert children[..i + 1][..i] == children[..i];
        i := i + 1;
      }
      assert children[..i] == children;
    }

    /** `Element.getContent`: the children's texts joined by single spaces. */
    method GetContent() returns (text: string)
      requires Valid() && nodeType == NodeType.Element
      ensures text == ContentOf(this)
      decreases Repr
    {
      text := "";
      var first := true;
      var i := 0;
      while i < |children|
        invariant 0 <= i <= |children|
        invariant first <==> i == 0
        invariant text == JoinSpace(Pieces(this, i))
      {
        var child := children[i];
        if first {
          first := false;
        } else {
          text := text + " ";
        }
        var piece := "";
        if child.nodeType == NodeType.Content {
          piece := child.content;
        } else if child.nodeType == NodeType.Element {
          piece := child.GetContent();
        }
        text := text + piece;
        JoinSnoc(Pieces(this, i), piece);
        i := i + 1;
      }
    }

    /** `getAttr`: the value stored under the name, or `None` when absent. */
    method GetAttr(key: string) returns (r: AttrValue)
      requires nodeType == NodeType.Element
      ensures key in attrs ==> r == attrs[key]
      ensures key !in attrs ==> r == AttrNone
    {
      if key !in attrs {
        return AttrNone;
      }
      r := attrs[key];
    }

    /** `setAttr`: stores the value under the name, replacing any earlier one. */
    method SetAttr(key: string, val: AttrValue)
      requires Valid() && nodeType == NodeType.Element
      modifies this
      ensures Valid() && attrs == old(attrs)[key := val]
      ensures children == old(children) && parent == old(parent) && hasContent == old(hasContent) && Repr == old(Repr)
    {
      attrs := attrs[key := val];
    }

    /** `hasAttr`. */
    method HasAttr(key: string) returns (r: bool)
      requires nodeType == NodeType.Element
      ensures r <==> key in attrs
    {
      r := key in attrs;
    }
  }

  /** An element child with the given name. */
  predicate Matches(n: Node, tag: string)
  {
    n.nodeType == NodeType.Element && n.name == tag
  }

  /** The nodes of `cs` that are elements with the given name, in order. */
  function Named(cs: seq<Node>, tag: string): seq<Node>
  {
    if |cs| == 0 then []
    else Named(cs[..|cs| - 1], tag) + (if Matches(cs[|cs| - 1], tag) then [cs[|cs| - 1]] else [])
  }

  /** Exactly the matching children are kept, in their order: the matches
      among the first k children are always a prefix of the result, and the
      first match, if any, is the first matching child. */
  lemma {:induction false} NamedSpec(cs: seq<Node>, tag: string)
    ensures forall x :: x in Named(cs, tag) <==> x in cs && Matches(x, tag)
    ensures forall k :: 0 <= k <= |cs| ==> Named(cs[..k], tag) <= Named(cs, tag)
    decreases |cs|
  {
    if |cs| > 0 {
      var init := cs[..|cs| - 1];
      NamedSpec(init, tag);
      assert cs == init + [cs[|cs| - 1]];
      forall k | 0 <= k <= |cs|
        ensures Named(cs[..k], tag) <= Named(cs, tag)
      {
        if k < |cs| {
          assert cs[..k] == init[..k];
        } else {
          assert cs[..k] == cs;
        }
      }
    }
  }

  /** `firstChildByName` returns the head of what `getChildByName` returns. */
  lemma FirstIsNamedHead(cs: seq<Node>, tag: string, k: nat)
    requires k < |cs| && Matches(cs[k], tag) && forall j :: 0 <= j < k ==> !Matches(cs[j], tag)
    ensures |Named(cs, tag)| > 0 && Named(cs, tag)[0] == cs[k]
  {
    NamedSpec(cs, tag);
    NoneNamed(cs[..k], tag);
    assert cs[..k + 1][..k] == cs[..k];
    assert Named(cs[..k + 1], tag) == [cs[k]];
  }

  lemma {:induction false} NoneNamed(cs: seq<Node>, tag: string)
    requires forall j :: 0 <= j < |cs| ==> !Matches(cs[j], tag)
    ensures Named(cs, tag) == []
    decreases |cs|
  {
    if |cs| > 0 {
      NoneNamed(cs[..|cs| - 1], tag);
    }
  }

  // ---------------------------------------------------------------------
  // getContent

  /** Texts joined by single spaces. */
  function JoinSpace(ps: seq<string>): string
  {
    if |ps| == 0 then ""
    else if |ps| == 1 then ps[0]
    else JoinSpace(ps[..|ps| - 1]) + " " + ps[|ps| - 1]
  }

  lemma JoinSnoc(ps: seq<string>, p: string)
    ensures JoinSpace(ps + [p]) == if |ps| == 0 then p else JoinSpace(ps) + " " + p
  {
    assert (ps + [p])[..|ps|] == ps;
  }

  /** What one child contributes: a text node its text, an element its own
      content, any other node nothing. */
  ghost function Piece(c: Node): string
    requires c.Valid()
    reads c.Repr
    decreases c.Repr, |c.children| + 2
  {
    if c.nodeType == NodeType.Content then c.content
    else if c.nodeType == NodeType.Element then ContentOf(c)
    else ""
  }

  /** The contributions of the first j children. */
  ghost function Pieces(n: Node, j: nat): (r: seq<string>)
    requires n.Valid() && j <= |n.children|
    reads n.Repr
    ensures |r| == j
    decreases n.Repr, j
  {
    if j == 0 then []
    else Pieces(n, j - 1) + [Piece(n.children[j - 1])]
  }

  ghost function ContentOf(n: Node): string
    requires n.Valid()
    reads n.Repr
    decreases n.Repr, |n.children| + 1
  {
    JoinSpace(Pieces(n, |n.children|))
  }

  /** The position of the last space, or the length when there is none. */
  function LastSpace(t: string): (r: nat)
    ensures r <= |t|
    ensures r < |t| ==> t[r] == ' ' && forall k :: r < k < |t| ==> t[k] != ' '
    ensures r == |t| ==> forall k :: 0 <= k < |t| ==> t[k] != ' '
  {
    if |t| == 0 then 0
    else if t[|t| - 1] == ' ' then |t| - 1
    else
      var k := LastSpace(t[..|t| - 1]);
      if k == |t| - 1 then |t| else k
  }

  /** Cuts a text at every space. */
  function SplitSpace(t: string): seq<string>
    decreases |t|
  {
    var k := LastSpace(t);
    if k == |t| then [t] else SplitSpace(t[..k]) + [t[k + 1..]]
  }

  /** Joining is undone by cutting at spaces, when no text holds a space. */
  lemma {:induction false} SplitJoin(ps: seq<string>)
    requires |ps| > 0
    requires forall i, k :: 0 <= i < |ps| && 0 <= k < |ps[i]| ==> ps[i][k] != ' '
    ensures SplitSpace(JoinSpace(ps)) == ps
    decreases |ps|
  {
    if |ps| == 1 {
      assert LastSpace(ps[0]) == |ps[0]|;
    } else {
      var init, last := ps[..|ps| - 1], ps[|ps| - 1];
      var j := JoinSpace(init);
      SplitJoin(init);
      var t := j + " " + last;
      assert JoinSpace(ps) == t;
      assert forall k :: |j| < k < |t| ==> t[k] == last[k - |j| - 1];
      var k := LastSpace(t);
      assert t[|j|] == ' ';
      assert k == |j|;
      assert t[..|j|] == j && t[|j| + 1..] == last;
      assert init + [last] == ps;
    }
  }
}
