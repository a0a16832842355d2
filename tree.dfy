/** The element tree of dom.js: elements as values, and the arena in which
    the reader builds them with parent back-links. */
module Tree {
  import opened Base

  /** One item of an element's content: a text run or a child. */
  datatype Item<C> = Text(text: string) | Child(child: C)

  /** An element as a value (dom.js:8-39): a name and its content. */
  datatype Element = Element(name: string, content: seq<Item<Element>>)

  /** A Document (dom.js:41-45) is the unnamed root; as a value it is its content. */
  type Document = seq<Item<Element>>

  /** The content invariant appendText keeps: text runs are non-empty and no
      two of them are adjacent. */
  ghost predicate Coalesced<C>(content: seq<Item<C>>) {
    && (forall k :: 0 <= k < |content| && content[k].Text? ==> content[k].text != "")
    && (forall k :: 0 < k < |content| && content[k].Text? ==> content[k - 1].Child?)
  }

  /** All text of a content sequence, in order. */
  function Texts<C>(content: seq<Item<C>>): string {
    if content == [] then ""
    else Texts(content[..|content| - 1]) +
         (match content[|content| - 1] case Text(t) => t case Child(_) => "")
  }

  /** Element.appendText (dom.js:23-33): an empty string is dropped; otherwise
      the text is added to a trailing text run, or becomes a new run. */
  function AppendText<C>(content: seq<Item<C>>, text: string): (r: seq<Item<C>>)
    ensures |r| == |content| || r == content + [Text(text)]
    ensures text == "" ==> r == content
    ensures text != "" && (content == [] || content[|content| - 1].Child?) ==> r == content + [Text(text)]
    ensures text != "" && |content| > 0 && content[|content| - 1].Text? ==>
              r == content[..|content| - 1] + [Text(content[|content| - 1].text + text)]
    ensures Texts(r) == Texts(content) + text
    ensures |content| > 0 ==> r[..|content| - 1] == content[..|content| - 1]
    ensures forall k :: 0 <= k < |r| && r[k].Child? ==> k < |content| && r[k] == content[k]
    ensures Coalesced(content) ==> Coalesced(r)
  {
    if text == "" then content
    else if |content| > 0 && content[|content| - 1].Text? then
      var r := content[..|content| - 1] + [Text(content[|content| - 1].text + text)];
      assert r[..|content| - 1] == content[..|content| - 1];
      r
    else
      var r := content + [Text(text)];
      assert r[..|content|] == content;
      r
  }

  /** Appending to empty content: nothing for the empty text, else one run. */
  lemma AppendTextFresh<C>(text: string)
    ensures AppendText<C>([], text) == if text == "" then [] else [Text(text)]
  {
  }

  /** Appending in two steps is appending the concatenation: the reader may
      flush a text run piecewise without changing the content. */
  lemma AppendTextTwice<C>(content: seq<Item<C>>, x: string, y: string)
    ensures AppendText(AppendText(content, x), y) == AppendText(content, x + y)
  {
    if x != "" && y != "" {
      var n := |content|;
      if n > 0 && content[n - 1].Text? {
        AppendTextTwiceGrown(content, x, y);
      } else {
        AppendTextTwiceAdded(content, x, y);
      }
    } else if x == "" {
      assert x + y == y;
    } else {
      assert x + y == x;
    }
  }

  lemma AppendTextTwiceGrown<C>(content: seq<Item<C>>, x: string, y: string)
    requires x != "" && y != ""
    requires |content| > 0 && content[|content| - 1].Text?
    ensures AppendText(AppendText(content, x), y) == AppendText(content, x + y)
  {
    var front, t := content[..|content| - 1], content[|content| - 1].text;
    var once := front + [Text(t + x)];
    assert AppendText(content, x) == once;
    assert once[..|front|] == front;
    assert AppendText(once, y) == front + [Text(t + x + y)];
    assert AppendText(content, x + y) == front + [Text(t + (x + y))];
    assert (t + x) + y == t + (x + y);
  }

  lemma AppendTextTwiceAdded<C>(content: seq<Item<C>>, x: string, y: string)
    requires x != "" && y != ""
    requires |content| == 0 || content[|content| - 1].Child?
    ensures AppendText(AppendText(content, x), y) == AppendText(content, x + y)
  {
    var once := content + [Text(x)];
    assert AppendText(content, x) == once;
    assert once[..|content|] == content;
    assert AppendText(once, y) == content + [Text(x + y)];
  }

  /** A node of the arena: `parent` is the back-link that Element.appendChild
      sets (dom.js:37); a child item holds the index of the child node. */
  datatype Node = Node(name: Option<string>, content: seq<Item<nat>>, parent: Option<nat>)

  type Arena = seq<Node>

  /** `new Document()`: the unnamed, parentless, empty root. */
  const ROOT: Node := Node(None, [], None)

  /** Node i is linked correctly: only the root is unnamed and parentless,
      a parent precedes its child, and each child item points forward to a
      node whose back-link points here. */
  ghost predicate LinkedAt(a: Arena, i: nat)
    requires i < |a|
  {
    && (i == 0 ==> a[i].name.None? && a[i].parent.None?)
    && (i > 0 ==> a[i].name.Some? && a[i].parent.Some? && a[i].parent.value < i)
    && Coalesced(a[i].content)
    && forall k :: 0 <= k < |a[i].content| && a[i].content[k].Child? ==>
         i < a[i].content[k].child < |a| && a[a[i].content[k].child].parent == Some(i)
  }

  /** The arena invariant: node 0 is the root and every node is linked. */
  ghost predicate WellFormed(a: Arena) {
    |a| > 0 && forall i :: 0 <= i < |a| ==> LinkedAt(a, i)
  }

  /** Element.appendText on node e. */
  function AppendTextAt(a: Arena, e: nat, text: string): (r: Arena)
    requires e < |a|
    ensures |r| == |a| && r[e].content == AppendText(a[e].content, text)
    ensures r[e].name == a[e].name && r[e].parent == a[e].parent
    ensures forall i :: 0 <= i < |a| && i != e ==> r[i] == a[i]
    ensures WellFormed(a) ==> WellFormed(r)
  {
    var r := a[e := a[e].(content := AppendText(a[e].content, text))];
    AppendTextAtLinked(a, e, text, r);
    r
  }

  lemma AppendTextAtLinked(a: Arena, e: nat, text: string, r: Arena)
    requires e < |a|
    requires r == a[e := a[e].(content := AppendText(a[e].content, text))]
    ensures WellFormed(a) ==> WellFormed(r)
  {
    if !WellFormed(a) { return; }
    forall i | 0 <= i < |r|
      ensures LinkedAt(r, i)
    {
      AppendTextAtLinkedAt(a, e, text, r, i);
    }
  }

  lemma AppendTextAtLinkedAt(a: Arena, e: nat, text: string, r: Arena, i: nat)
    requires e < |a| && WellFormed(a) && i < |a|
    requires r == a[e := a[e].(content := AppendText(a[e].content, text))]
    ensures LinkedAt(r, i)
  {
    if i != e {
      AppendTextAtLinkedOther(a, e, text, r, i);
    } else {
      AppendTextAtLinkedSame(a, e, text, r);
    }
  }

  lemma AppendTextAtLinkedOther(a: Arena, e: nat, text: string, r: Arena, i: nat)
    requires e < |a| && WellFormed(a) && i < |a| && i != e
    requires r == a[e := a[e].(content := AppendText(a[e].content, text))]
    ensures LinkedAt(r, i)
  {
    assert LinkedAt(a, i);
    assert r[i] == a[i];
    forall k | 0 <= k < |r[i].content| && r[i].content[k].Child?
      ensures i < r[i].content[k].child < |r| && r[r[i].content[k].child].parent == Some(i)
    {
      var c := a[i].content[k].child;
      assert r[c].parent == a[c].parent;
    }
  }

  lemma AppendTextAtLinkedSame(a: Arena, e: nat, text: string, r: Arena)
    requires e < |a| && WellFormed(a)
    requires r == a[e := a[e].(content := AppendText(a[e].content, text))]
    ensures LinkedAt(r, e)
  {
    assert LinkedAt(a, e);
    forall k | 0 <= k < |r[e].content| && r[e].content[k].Child?
      ensures e < r[e].content[k].child < |r| && r[r[e].content[k].child].parent == Some(e)
    {
      assert r[e].content[k] == a[e].content[k];
      var c := a[e].content[k].child;
      assert r[c] == a[c];
    }
  }

  /** Appending no text leaves the arena as it is. */
  lemma AppendTextAtEmpty(a: Arena, e: nat)
    requires e < |a|
    ensures AppendTextAt(a, e, "") == a
  {
    assert AppendTextAt(a, e, "")[e] == a[e];
  }

  /** Two texts appended to one node one after the other are their
      concatenation appended at once. */
  lemma AppendTextAtTwice(a: Arena, e: nat, x: string, y: string)
    requires e < |a|
    ensures AppendTextAt(AppendTextAt(a, e, x), e, y) == AppendTextAt(a, e, x + y)
  {
    AppendTextTwice(a[e].content, x, y);
    assert AppendTextAt(AppendTextAt(a, e, x), e, y)[e] == AppendTextAt(a, e, x + y)[e];
  }

  /** `new Element(name)` followed by Element.appendChild on node p
      (dom.js:35-38): the fresh node becomes the last item of p and its
      parent link is p. */
  function AppendChildAt(a: Arena, p: nat, name: string): (r: Arena)
    requires p < |a|
    ensures |r| == |a| + 1 && r[|a|] == Node(Some(name), [], Some(p))
    ensures r[p].content == a[p].content + [Child(|a|)]
    ensures r[p].name == a[p].name && r[p].parent == a[p].parent
    ensures forall i :: 0 <= i < |a| && i != p ==> r[i] == a[i]
    ensures WellFormed(a) ==> WellFormed(r)
  {
    var r := a[p := a[p].(content := a[p].content + [Child(|a|)])] + [Node(Some(name), [], Some(p))];
    AppendChildAtLinked(a, p, name, r);
    r
  }

  lemma AppendChildAtLinked(a: Arena, p: nat, name: string, r: Arena)
    requires p < |a|
    requires r == a[p := a[p].(content := a[p].content + [Child(|a|)])] + [Node(Some(name), [], Some(p))]
    ensures WellFormed(a) ==> WellFormed(r)
  {
    if !WellFormed(a) { return; }
    forall i | 0 <= i < |r|
      ensures LinkedAt(r, i)
    {
      if i == |a| {
      } else if i == p {
        AppendChildAtLinkedParent(a, p, name, r);
      } else {
        AppendChildAtLinkedOther(a, p, name, r, i);
      }
    }
  }

  lemma AppendChildAtLinkedParent(a: Arena, p: nat, name: string, r: Arena)
    requires p < |a| && WellFormed(a)
    requires r == a[p := a[p].(content := a[p].content + [Child(|a|)])] + [Node(Some(name), [], Some(p))]
    ensures LinkedAt(r, p)
  {
    assert LinkedAt(a, p);
    assert r[p].content == a[p].content + [Child(|a|)];
    forall k | 0 <= k < |r[p].content| && r[p].content[k].Child?
      ensures p < r[p].content[k].child < |r| && r[r[p].content[k].child].parent == Some(p)
    {
      if k < |a[p].content| {
        assert r[p].content[k] == a[p].content[k];
        var c := a[p].content[k].child;
        assert r[c] == a[c];
      }
    }
  }

  lemma AppendChildAtLinkedOther(a: Arena, p: nat, name: string, r: Arena, i: nat)
    requires p < |a| && WellFormed(a) && i < |a| && i != p
    requires r == a[p := a[p].(content := a[p].content + [Child(|a|)])] + [Node(Some(name), [], Some(p))]
    ensures LinkedAt(r, i)
  {
    assert LinkedAt(a, i);
    assert r[i] == a[i];
    forall k | 0 <= k < |r[i].content| && r[i].content[k].Child?
      ensures i < r[i].content[k].child < |r| && r[r[i].content[k].child].parent == Some(i)
    {
      var c := a[i].content[k].child;
      assert r[c].parent == a[c].parent;
    }
  }

  /** The element held by node i, read through its child indices. */
  function UnfoldElement(a: Arena, i: nat): (e: Element)
    requires WellFormed(a) && 0 < i < |a|
    ensures Some(e.name) == a[i].name && |e.content| == |a[i].content|
    decreases |a| - i, 1
  {
    assert LinkedAt(a, i);
    Element(a[i].name.value, UnfoldContent(a, i, |a[i].content|))
  }

  /** The first n items of node i, with each child index replaced by the
      element it points to. */
  function UnfoldContent(a: Arena, i: nat, n: nat): (d: Document)
    requires WellFormed(a) && i < |a| && n <= |a[i].content|
    ensures |d| == n
    ensures forall k :: 0 <= k < n && a[i].content[k].Text? ==> d[k] == Text(a[i].content[k].text)
    ensures forall k :: 0 <= k < n && a[i].content[k].Child? ==>
              i < a[i].content[k].child < |a| && d[k] == Child(UnfoldElement(a, a[i].content[k].child))
    decreases |a| - i, 0, n
  {
    if n == 0 then []
    else
      assert LinkedAt(a, i);
      var last := match a[i].content[n - 1]
        case Text(t) => Text(t)
        case Child(c) => Child(UnfoldElement(a, c));
      UnfoldContent(a, i, n - 1) + [last]
  }

  /** The document held by the arena: the root's content. */
  function DocumentOf(a: Arena): (d: Document)
    requires WellFormed(a)
    ensures |d| == |a[0].content|
  {
    UnfoldContent(a, 0, |a[0].content|)
  }

  /** The content d once the items of x are appended to it one by one, texts
      by appendText and elements by appendChild of a fresh element that is
      filled the same way: what building a tree item by item gives. */
  function Appended(d: Document, x: Document): Document
    decreases x, 1
  {
    if x == [] then d
    else AppendedItem(Appended(d, x[..|x| - 1]), x[|x| - 1])
  }

  /** One item appended to the content d. */
  function AppendedItem(d: Document, item: Item<Element>): Document
    decreases item
  {
    match item
    case Text(t) => AppendText(d, t)
    case Child(e) => d + [Child(Element(e.name, Appended([], e.content)))]
  }

  /** The same building done in the arena, below node p. */
  function Build(a: Arena, p: nat, x: Document): (r: Arena)
    requires p < |a|
    ensures |a| <= |r|
    ensures r[p].name == a[p].name && r[p].parent == a[p].parent
    ensures forall j :: 0 <= j < |a| && j != p ==> r[j] == a[j]
    ensures WellFormed(a) ==> WellFormed(r)
    decreases x, 1
  {
    if x == [] then a
    else BuildItem(Build(a, p, x[..|x| - 1]), p, x[|x| - 1])
  }

  /** One item built below node p. */
  function BuildItem(a: Arena, p: nat, item: Item<Element>): (r: Arena)
    requires p < |a|
    ensures |a| <= |r|
    ensures r[p].name == a[p].name && r[p].parent == a[p].parent
    ensures forall j :: 0 <= j < |a| && j != p ==> r[j] == a[j]
    ensures WellFormed(a) ==> WellFormed(r)
    decreases item
  {
    match item
    case Text(t) => AppendTextAt(a, p, t)
    case Child(e) => Build(AppendChildAt(a, p, e.name), |a|, e.content)
  }

  /** Node i reads back the same in two arenas that agree on its first m
      items and on every node after it. */
  lemma {:induction false} UnfoldContentFrame(a: Arena, b: Arena, i: nat, m: nat)
    requires WellFormed(a) && WellFormed(b) && i < |a| <= |b|
    requires m <= |a[i].content| && m <= |b[i].content| && a[i].content[..m] == b[i].content[..m]
    requires forall j :: i < j < |a| ==> b[j] == a[j]
    ensures UnfoldContent(a, i, m) == UnfoldContent(b, i, m)
    decreases |a| - i, 0, m
  {
    if m > 0 {
      assert a[i].content[..m - 1] == a[i].content[..m][..m - 1];
      assert b[i].content[..m - 1] == b[i].content[..m][..m - 1];
      UnfoldContentFrame(a, b, i, m - 1);
      assert a[i].content[m - 1] == a[i].content[..m][m - 1];
      assert b[i].content[m - 1] == b[i].content[..m][m - 1];
      assert LinkedAt(a, i);
      if a[i].content[m - 1].Child? {
        UnfoldElementFrame(a, b, a[i].content[m - 1].child);
      }
    }
  }

  /** Node c reads back the same in two arenas that agree from c on. */
  lemma {:induction false} UnfoldElementFrame(a: Arena, b: Arena, c: nat)
    requires WellFormed(a) && WellFormed(b) && 0 < c < |a| <= |b|
    requires forall j :: c <= j < |a| ==> b[j] == a[j]
    ensures UnfoldElement(a, c) == UnfoldElement(b, c)
    decreases |a| - c, 1
  {
    assert b[c] == a[c];
    UnfoldContentFrame(a, b, c, |a[c].content|);
  }

  /** appendText on node p, read back, is appendText on p's content. */
  lemma UnfoldAppendText(a: Arena, p: nat, t: string)
    requires WellFormed(a) && p < |a|
    ensures UnfoldContent(AppendTextAt(a, p, t), p, |AppendTextAt(a, p, t)[p].content|) ==
            AppendText(UnfoldContent(a, p, |a[p].content|), t)
  {
    var n := |a[p].content|;
    if t == "" {
      AppendTextAtEmpty(a, p);
    } else if n > 0 && a[p].content[n - 1].Text? {
      UnfoldGrown(a, p, t);
    } else {
      UnfoldAdded(a, p, t);
    }
  }

  lemma UnfoldGrown(a: Arena, p: nat, t: string)
    requires WellFormed(a) && p < |a| && t != ""
    requires |a[p].content| > 0 && a[p].content[|a[p].content| - 1].Text?
    ensures UnfoldContent(AppendTextAt(a, p, t), p, |AppendTextAt(a, p, t)[p].content|) ==
            AppendText(UnfoldContent(a, p, |a[p].content|), t)
  {
    var b := AppendTextAt(a, p, t);
    var n := |a[p].content|;
    var u := a[p].content[n - 1].text;
    assert b[p].content[..n - 1] == a[p].content[..n - 1];
    assert b[p].content[n - 1] == Text(u + t);
    assert |b[p].content| == n;
    UnfoldContentFrame(a, b, p, n - 1);
    var d := UnfoldContent(a, p, n - 1);
    assert UnfoldContent(a, p, n) == d + [Text(u)];
    assert UnfoldContent(b, p, n) == d + [Text(u + t)];
    AppendTextGrows(d, u, t);
  }

  lemma UnfoldAdded(a: Arena, p: nat, t: string)
    requires WellFormed(a) && p < |a| && t != ""
    requires |a[p].content| == 0 || a[p].content[|a[p].content| - 1].Child?
    ensures UnfoldContent(AppendTextAt(a, p, t), p, |AppendTextAt(a, p, t)[p].content|) ==
            AppendText(UnfoldContent(a, p, |a[p].content|), t)
  {
    var b := AppendTextAt(a, p, t);
    var n := |a[p].content|;
    assert b[p].content[..n] == a[p].content[..n];
    assert b[p].content[n] == Text(t);
    assert |b[p].content| == n + 1;
    UnfoldContentFrame(a, b, p, n);
    var d := UnfoldContent(a, p, n);
    assert UnfoldContent(b, p, n + 1) == d + [Text(t)];
    assert n > 0 ==> d[n - 1].Child?;
  }

  lemma AppendTextGrows(d: Document, u: string, t: string)
    requires t != ""
    ensures AppendText(d + [Text(u)], t) == d + [Text(u + t)]
  {
    assert (d + [Text(u)])[..|d|] == d;
  }

  /** Building below node p and reading p back appends the items to what p
      held. */
  lemma {:induction false} BuildUnfolds(a: Arena, p: nat, x: Document)
    requires WellFormed(a) && p < |a|
    ensures UnfoldContent(Build(a, p, x), p, |Build(a, p, x)[p].content|) ==
            Appended(UnfoldContent(a, p, |a[p].content|), x)
    decreases x, 1
  {
    if x != [] {
      BuildUnfolds(a, p, x[..|x| - 1]);
      BuildItemUnfolds(Build(a, p, x[..|x| - 1]), p, x[|x| - 1]);
    }
  }

  /** The one-item step of BuildUnfolds. */
  lemma {:induction false} BuildItemUnfolds(a: Arena, p: nat, item: Item<Element>)
    requires WellFormed(a) && p < |a|
    ensures UnfoldContent(BuildItem(a, p, item), p, |BuildItem(a, p, item)[p].content|) ==
            AppendedItem(UnfoldContent(a, p, |a[p].content|), item)
    decreases item
  {
    match item
    case Text(t) =>
      UnfoldAppendText(a, p, t);
    case Child(e) =>
      var c := |a|;
      var a1 := AppendChildAt(a, p, e.name);
      var b := Build(a1, c, e.content);
      var n := |a[p].content|;
      assert b[p] == a1[p];
      assert b[p].content[..n] == a[p].content[..n];
      UnfoldContentFrame(a, b, p, n);
      assert b[p].content[n] == Child(c);
      BuildUnfolds(a1, c, e.content);
      assert UnfoldContent(a1, c, |a1[c].content|) == [];
  }

  /** Building x and then y is building x + y. */
  lemma {:induction false} BuildConcat(a: Arena, p: nat, x: Document, y: Document)
    requires p < |a|
    ensures Build(a, p, x + y) == Build(Build(a, p, x), p, y)
    decreases |y|
  {
    if y == [] {
      assert x + y == x;
    } else {
      var y' := y[..|y| - 1];
      assert (x + y)[..|x + y| - 1] == x + y';
      assert (x + y)[|x + y| - 1] == y[|y| - 1];
      BuildConcat(a, p, x, y');
    }
  }

  lemma BuildOne(a: Arena, p: nat, i: Item<Element>)
    requires p < |a|
    ensures Build(a, p, [i]) == BuildItem(a, p, i)
  {
    assert [i][..0] == [];
  }

  lemma BuildThree(a: Arena, p: nat, z: Document, i1: Item<Element>, i2: Item<Element>, i3: Item<Element>)
    requires p < |a|
    ensures Build(a, p, z + [i1, i2, i3]) == BuildItem(BuildItem(BuildItem(Build(a, p, z), p, i1), p, i2), p, i3)
  {
    var w := z + [i1, i2, i3];
    assert w[..|w| - 1] == z + [i1, i2];
    assert (z + [i1, i2])[..|z| + 1] == z + [i1];
    assert (z + [i1])[..|z|] == z;
    assert Build(a, p, z + [i1]) == BuildItem(Build(a, p, z), p, i1);
    assert Build(a, p, z + [i1, i2]) == BuildItem(Build(a, p, z + [i1]), p, i2);
  }

  /** Appending x and then y is appending x + y. */
  lemma {:induction false} AppendedConcat(d: Document, x: Document, y: Document)
    ensures Appended(d, x + y) == Appended(Appended(d, x), y)
    decreases |y|
  {
    if y == [] {
      assert x + y == x;
    } else {
      var y' := y[..|y| - 1];
      assert (x + y)[..|x + y| - 1] == x + y';
      assert (x + y)[|x + y| - 1] == y[|y| - 1];
      AppendedConcat(d, x, y');
    }
  }

  lemma AppendedThree(d: Document, z: Document, i1: Item<Element>, i2: Item<Element>, i3: Item<Element>)
    ensures Appended(d, z + [i1, i2, i3]) == AppendedItem(AppendedItem(AppendedItem(Appended(d, z), i1), i2), i3)
  {
    var w := z + [i1, i2, i3];
    assert w[..|w| - 1] == z + [i1, i2];
    assert (z + [i1, i2])[..|z| + 1] == z + [i1];
    assert (z + [i1])[..|z|] == z;
    assert Appended(d, z + [i1]) == AppendedItem(Appended(d, z), i1);
    assert Appended(d, z + [i1, i2]) == AppendedItem(Appended(d, z + [i1]), i2);
  }

  /** Content whose texts are coalesced at every depth. */
  ghost predicate Canonical(x: Document)
    decreases x, 1
  {
    Coalesced(x) && forall k :: 0 <= k < |x| ==> CanonicalItem(x[k])
  }

  ghost predicate CanonicalItem(item: Item<Element>)
    decreases item
  {
    match item
    case Text(_) => true
    case Child(e) => Canonical(e.content)
  }

  /** Appending canonical content item by item to nothing gives it back:
      every canonical document is one that building can produce. */
  lemma {:induction false} AppendedCanonical(x: Document)
    requires Canonical(x)
    ensures Appended([], x) == x
    decreases x, 1
  {
    if x != [] {
      var x', last := x[..|x| - 1], x[|x| - 1];
      CanonicalFront(x);
      AppendedCanonical(x');
      assert CanonicalItem(x[|x| - 1]);
      match last
      case Text(t) =>
        assert t != "";
        assert |x'| > 0 ==> x'[|x'| - 1] == x[|x| - 2];
        assert x == x' + [Text(t)];
      case Child(e) =>
        AppendedCanonicalChild(x[|x| - 1]);
        assert x == x' + [Child(e)];
    }
  }

  lemma CanonicalFront(x: Document)
    requires Canonical(x) && x != []
    ensures Canonical(x[..|x| - 1])
  {
    var x' := x[..|x| - 1];
    forall k | 0 <= k < |x'| ensures CanonicalItem(x'[k]) && (x'[k].Text? ==> x'[k].text != "") {
      assert x'[k] == x[k];
    }
    forall k | 0 < k < |x'| && x'[k].Text? ensures x'[k - 1].Child? {
      assert x'[k] == x[k] && x'[k - 1] == x[k - 1];
    }
  }

  lemma {:induction false} AppendedCanonicalChild(item: Item<Element>)
    requires item.Child? && CanonicalItem(item)
    ensures Element(item.child.name, Appended([], item.child.content)) == item.child
    decreases item
  {
    AppendedCanonical(item.child.content);
  }
}
