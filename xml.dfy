/** An already-parsed XML document as the two XML interfaces the pipeline uses
    see it: an element has a name, attributes, its own text and child elements.
    Apps Script's `XmlService` reads an element's own text (`getText`) and its
    direct children (`getChild`, `getChildren`); the browser's DOM reads the
    text of the whole subtree (`textContent`) and searches descendants in
    document order (`querySelector`, `querySelectorAll`). */
module Xml {
  import opened Wrappers

  datatype Node = Element(name: string, attrs: seq<(string, string)>, text: string, children: seq<Node>)

  /** The value of the first attribute called `key` (`getAttribute`), None when
      there is none. */
  function Attribute(attrs: seq<(string, string)>, key: string): (r: Option<string>)
    ensures r.None? <==> forall i :: 0 <= i < |attrs| ==> attrs[i].0 != key
  {
    if attrs == [] then None
    else if attrs[0].0 == key then Some(attrs[0].1)
    else Attribute(attrs[1..], key)
  }

  /** `getChild(name)`: the first direct child with that name. */
  function Child(n: Node, name: string): (r: Option<Node>)
    ensures r.Some? ==> r.value in n.children && r.value.name == name
    ensures r.None? ==> forall i :: 0 <= i < |n.children| ==> n.children[i].name != name
  {
    FirstNamed(n.children, name)
  }

  function FirstNamed(ns: seq<Node>, name: string): (r: Option<Node>)
    ensures r.Some? ==> r.value in ns && r.value.name == name
    ensures r.None? ==> forall i :: 0 <= i < |ns| ==> ns[i].name != name
  {
    if ns == [] then None
    else if ns[0].name == name then Some(ns[0])
    else FirstNamed(ns[1..], name)
  }

  /** The nodes of `ns` with the given name, in order. */
  function Named(ns: seq<Node>, name: string): (r: seq<Node>)
    ensures |r| <= |ns|
    ensures forall i :: 0 <= i < |r| ==> r[i].name == name && r[i] in ns
    ensures forall i :: 0 <= i < |ns| && ns[i].name == name ==> ns[i] in r
  {
    if ns == [] then []
    else (if ns[0].name == name then [ns[0]] else []) + Named(ns[1..], name)
  }

  /** `getChildren(name)`: the direct children with that name, in order. */
  function Children(n: Node, name: string): seq<Node> {
    Named(n.children, name)
  }

  /** `getChild(name)?.getText()`, with a missing child read as the empty text
      (both are falsy to the `||` defaulting that follows every such call). */
  function ChildText(n: Node, name: string): string {
    match Child(n, name)
    case None => []
    case Some(c) => c.text
  }

  /** All elements strictly below `n`, in document order (pre-order):
      `getDescendants` and `querySelectorAll('*')`. */
  function Descendants(n: Node): seq<Node>
    decreases n, 1
  {
    DescendantsOfAll(n.children)
  }

  function DescendantsOfAll(cs: seq<Node>): seq<Node>
    decreases cs, 0
  {
    if cs == [] then [] else [cs[0]] + Descendants(cs[0]) + DescendantsOfAll(cs[1..])
  }

  /** `textContent`: the element's text followed by that of its subtree. */
  function TextContent(n: Node): string
    decreases n, 1
  {
    n.text + TextOfAll(n.children)
  }

  function TextOfAll(cs: seq<Node>): string
    decreases cs, 0
  {
    if cs == [] then [] else TextContent(cs[0]) + TextOfAll(cs[1..])
  }

  /** `querySelector(name)`: the first descendant with that name. */
  function Select(n: Node, name: string): Option<Node> {
    FirstNamed(Descendants(n), name)
  }

  /** `querySelector(name)?.textContent?.trim()` before the trim: the text of
      the first descendant with that name, if there is one. */
  function SelectText(n: Node, name: string): (r: Option<string>)
    ensures r.Some? <==> Select(n, name).Some?
  {
    match Select(n, name)
    case None => None
    case Some(d) => Some(TextContent(d))
  }

  /** The `coordinates` elements of `cs` and their subtrees that lie below a
      `Point` element, in document order; `inPoint` says whether the list
      itself lies below one. */
  function CoordinatesUnderPoint(cs: seq<Node>, inPoint: bool): seq<Node>
    decreases cs
  {
    if cs == [] then []
    else
      var c := cs[0];
      (if inPoint && c.name == "coordinates" then [c] else []) +
      CoordinatesUnderPoint(c.children, inPoint || c.name == "Point") +
      CoordinatesUnderPoint(cs[1..], inPoint)
  }

  /** `querySelector('Point coordinates')`: the first descendant called
      `coordinates` with an ancestor called `Point` inside the subtree. */
  function SelectPointCoordinates(n: Node): Option<Node> {
    var found := CoordinatesUnderPoint(n.children, n.name == "Point");
    if found == [] then None else Some(found[0])
  }

  /** Outside any `Point` element no `coordinates` element is selected. */
  lemma {:induction false} NoPointNoCoordinates(cs: seq<Node>)
    requires forall i :: 0 <= i < |DescendantsOfAll(cs)| ==> DescendantsOfAll(cs)[i].name != "Point"
    requires forall i :: 0 <= i < |cs| ==> cs[i].name != "Point"
    ensures CoordinatesUnderPoint(cs, false) == []
    decreases cs
  {
    if cs != [] {
      var all := DescendantsOfAll(cs);
      assert all == [cs[0]] + Descendants(cs[0]) + DescendantsOfAll(cs[1..]);
      forall i | 0 <= i < |DescendantsOfAll(cs[0].children)|
        ensures DescendantsOfAll(cs[0].children)[i].name != "Point"
      {
        assert DescendantsOfAll(cs[0].children)[i] == all[1 + i];
      }
      forall i | 0 <= i < |cs[0].children|
        ensures cs[0].children[i].name != "Point"
      {
        ChildIsDescendant(cs[0].children, i);
        assert all[1 + IndexInDescendants(cs[0].children, i)] == cs[0].children[i];
      }
      NoPointNoCoordinates(cs[0].children);
      forall i | 0 <= i < |DescendantsOfAll(cs[1..])|
        ensures DescendantsOfAll(cs[1..])[i].name != "Point"
      {
        assert DescendantsOfAll(cs[1..])[i] == all[1 + |Descendants(cs[0])| + i];
      }
      NoPointNoCoordinates(cs[1..]);
    }
  }

  /** The position of the `i`-th node of `cs` in the pre-order of `cs`. */
  function IndexInDescendants(cs: seq<Node>, i: nat): nat
    requires i < |cs|
    decreases i
  {
    if i == 0 then 0 else 1 + |Descendants(cs[0])| + IndexInDescendants(cs[1..], i - 1)
  }

  /** Every node of a list appears in its pre-order at the position counted by
      `IndexInDescendants`. */
  lemma {:induction false} ChildIsDescendant(cs: seq<Node>, i: nat)
    requires i < |cs|
    ensures IndexInDescendants(cs, i) < |DescendantsOfAll(cs)|
    ensures DescendantsOfAll(cs)[IndexInDescendants(cs, i)] == cs[i]
    decreases i
  {
    if i > 0 {
      ChildIsDescendant(cs[1..], i - 1);
      var all := DescendantsOfAll(cs);
      assert all == [cs[0]] + Descendants(cs[0]) + DescendantsOfAll(cs[1..]);
    }
  }

  /** Filtering by name distributes over concatenation. */
  lemma {:induction false} NamedAppend(a: seq<Node>, b: seq<Node>, name: string)
    ensures Named(a + b, name) == Named(a, name) + Named(b, name)
    decreases |a|
  {
    if a == [] {
      assert a + b == b;
    } else {
      assert (a + b)[0] == a[0] && (a + b)[1..] == a[1..] + b;
      NamedAppend(a[1..], b, name);
    }
  }

  /** The pre-order of a list with one more node at the end: that node and
      its subtree follow. */
  lemma {:induction false} DescendantsOfAllAppend(cs: seq<Node>, c: Node)
    ensures DescendantsOfAll(cs + [c]) == DescendantsOfAll(cs) + [c] + Descendants(c)
    decreases |cs|
  {
    if cs == [] {
      assert ([c])[1..] == [];
    } else {
      assert (cs + [c])[1..] == cs[1..] + [c];
      DescendantsOfAllAppend(cs[1..], c);
    }
  }

  /** The nodes with a name in the pre-order of a list with one more node at
      the end: that node if it has the name, then those of its subtree. */
  lemma NamedDescendantsAppend(cs: seq<Node>, c: Node, name: string)
    ensures Named(DescendantsOfAll(cs + [c]), name) ==
            Named(DescendantsOfAll(cs), name) + (if c.name == name then [c] else []) + Named(Descendants(c), name)
  {
    var before := DescendantsOfAll(cs);
    DescendantsOfAllAppend(cs, c);
    NamedAppend(before + [c], Descendants(c), name);
    NamedAppend(before, [c], name);
    NamedSingle(c, name);
  }

  lemma NamedSingle(c: Node, name: string)
    ensures Named([c], name) == if c.name == name then [c] else []
  {
    assert [c][1..] == [];
  }
}
