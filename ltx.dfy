/**
 * The element tree the avatar module builds and reads (the `ltx` library's
 * `Element`), reduced to what the module uses: a name, the namespace the
 * element resolves to, an attribute bag, and children that are elements or text.
 */
module Ltx {
  import opened Wrappers
  import opened JsValues

  /** `ns` is the resolved namespace (`getNS()`): `undefined` when neither the element nor an ancestor declares one. */
  datatype Element = Element(name: string, ns: JsValue, attrs: map<string, JsValue>, children: seq<Node>)

  datatype Node = Child(elem: Element) | Text(text: string)

  /**
   * A new element with attributes `attrs`, attached below a parent whose
   * namespace is `inherited`: its namespace is its own `xmlns` attribute when
   * that is truthy, otherwise the parent's.
   */
  function Make(name: string, attrs: map<string, JsValue>, inherited: JsValue, children: seq<Node>): Element
  {
    Element(name, if Truthy(Get(attrs, "xmlns")) then attrs["xmlns"] else inherited, attrs, children)
  }

  /** The attribute `e.attrs[key]`, `undefined` when absent. */
  function Attr(e: Element, key: string): JsValue
  {
    Get(e.attrs, key)
  }

  /**
   * `is(name, xmlns)` on a child node: text never matches; an empty `xmlns`
   * is falsy in JavaScript and matches any namespace.
   */
  predicate Matches(n: Node, name: string, xmlns: string)
  {
    n.Child? && n.elem.name == name && (xmlns == "" || n.elem.ns == Str(xmlns))
  }

  /** The first of `nodes` that matches, as `getChild(name, xmlns)` returns it. */
  function FirstMatch(nodes: seq<Node>, name: string, xmlns: string): (r: Option<Element>)
    ensures r.Some? <==> exists i :: 0 <= i < |nodes| && Matches(nodes[i], name, xmlns)
    ensures r.Some? ==>
      exists i :: 0 <= i < |nodes| && nodes[i] == Child(r.value) && Matches(nodes[i], name, xmlns) &&
        forall j :: 0 <= j < i ==> !Matches(nodes[j], name, xmlns)
  {
    if nodes == [] then None
    else if Matches(nodes[0], name, xmlns) then Some(nodes[0].elem)
    else
      var r := FirstMatch(nodes[1..], name, xmlns);
      assert forall i :: 0 < i < |nodes| ==> nodes[i] == nodes[1..][i - 1];
      r
  }

  function FirstChild(e: Element, name: string, xmlns: string): Option<Element>
  {
    FirstMatch(e.children, name, xmlns)
  }

  /** One `getChild(name, xmlns)` link of a navigation chain. */
  datatype Step = Step(name: string, xmlns: string)

  /** `e.getChild(..).getChild(..)...`: None as soon as a link is missing. */
  function Follow(e: Element, path: seq<Step>): Option<Element>
    decreases |path|
  {
    if path == [] then Some(e)
    else
      match FirstChild(e, path[0].name, path[0].xmlns)
      case None => None
      case Some(c) => Follow(c, path[1..])
  }

  /** A chain of four links, unfolded: each link looks below the element the previous one found. */
  lemma FollowFour(e: Element, path: seq<Step>)
    requires |path| == 4
    ensures Follow(e, path) ==
      match FirstChild(e, path[0].name, path[0].xmlns)
      case None => None
      case Some(c1) =>
        match FirstChild(c1, path[1].name, path[1].xmlns)
        case None => None
        case Some(c2) =>
          match FirstChild(c2, path[2].name, path[2].xmlns)
          case None => None
          case Some(c3) => FirstChild(c3, path[3].name, path[3].xmlns)
  {
    var p1, p2, p3 := path[1..], path[2..], path[3..];
    assert p1[0] == path[1] && p2[0] == path[2] && p3[0] == path[3];
    assert p1[1..] == p2 && p2[1..] == p3 && p3[1..] == [];
    match FirstChild(e, path[0].name, path[0].xmlns)
    case None =>
    case Some(c1) =>
      assert Follow(e, path) == Follow(c1, p1);
      match FirstChild(c1, path[1].name, path[1].xmlns)
      case None =>
      case Some(c2) =>
        assert Follow(c1, p1) == Follow(c2, p2);
        match FirstChild(c2, path[2].name, path[2].xmlns)
        case None =>
        case Some(c3) =>
          assert Follow(c2, p2) == Follow(c3, p3);
          match FirstChild(c3, path[3].name, path[3].xmlns)
          case None =>
          case Some(c4) =>
            assert Follow(c3, p3) == Follow(c4, []);
  }

  /** A chain of two links, unfolded. */
  lemma FollowTwo(e: Element, path: seq<Step>)
    requires |path| == 2
    ensures Follow(e, path) ==
      match FirstChild(e, path[0].name, path[0].xmlns)
      case None => None
      case Some(c1) => FirstChild(c1, path[1].name, path[1].xmlns)
  {
    var p1 := path[1..];
    assert p1[0] == path[1] && p1[1..] == [];
    match FirstChild(e, path[0].name, path[0].xmlns)
    case None =>
    case Some(c1) =>
      assert Follow(e, path) == Follow(c1, p1);
      match FirstChild(c1, path[1].name, path[1].xmlns)
      case None =>
      case Some(c2) =>
        assert Follow(c1, p1) == Follow(c2, []);
  }

  /** Following `p + q` is following `p`, then `q` from where `p` ended. */
  lemma {:induction false} FollowAppend(e: Element, p: seq<Step>, q: seq<Step>)
    ensures Follow(e, p + q) == (match Follow(e, p) case None => None case Some(m) => Follow(m, q))
    decreases |p|
  {
    if p == [] {
      assert p + q == q;
    } else {
      assert (p + q)[0] == p[0];
      assert (p + q)[1..] == p[1..] + q;
      match FirstChild(e, p[0].name, p[0].xmlns)
      case None =>
      case Some(c) => FollowAppend(c, p[1..], q);
    }
  }

  /** The element children named `name`, in document order (`getChildren(name)`). */
  function Named(nodes: seq<Node>, name: string): (r: seq<Element>)
    ensures |r| <= |nodes|
    ensures forall x :: x in r ==> x.name == name
  {
    if nodes == [] then []
    else (if nodes[0].Child? && nodes[0].elem.name == name then [nodes[0].elem] else []) + Named(nodes[1..], name)
  }

  /** When every child is an element named `name`, `getChildren(name)` returns them all, in order. */
  lemma {:induction false} NamedKeepsAll(nodes: seq<Node>, name: string)
    requires forall i :: 0 <= i < |nodes| ==> nodes[i].Child? && nodes[i].elem.name == name
    ensures |Named(nodes, name)| == |nodes|
    ensures forall i :: 0 <= i < |nodes| ==> Named(nodes, name)[i] == nodes[i].elem
  {
    if nodes != [] {
      NamedKeepsAll(nodes[1..], name);
    }
  }

  /** `getChildren(name)` keeps exactly the element children named `name`. */
  lemma {:induction false} NamedMembers(nodes: seq<Node>, name: string)
    ensures forall x :: x in Named(nodes, name) <==> Child(x) in nodes && x.name == name
  {
    if nodes != [] {
      NamedMembers(nodes[1..], name);
      assert nodes == [nodes[0]] + nodes[1..];
    }
  }

  /** `getChildren(name)` keeps document order: it distributes over concatenation. */
  lemma {:induction false} NamedAppend(a: seq<Node>, b: seq<Node>, name: string)
    ensures Named(a + b, name) == Named(a, name) + Named(b, name)
  {
    if a == [] {
      assert a + b == b;
    } else {
      assert (a + b)[0] == a[0];
      assert (a + b)[1..] == a[1..] + b;
      NamedAppend(a[1..], b, name);
    }
  }

  /** `getText()`: the text children concatenated, element children skipped. */
  function TextOf(nodes: seq<Node>): string
  {
    if nodes == [] then ""
    else (if nodes[0].Text? then nodes[0].text else "") + TextOf(nodes[1..])
  }

  /** `getChildText(name)`: the text of the first child named `name` (any namespace), None for ltx's `null`. */
  function ChildText(e: Element, name: string): Option<string>
  {
    match FirstChild(e, name, "")
    case None => None
    case Some(c) => Some(TextOf(c.children))
  }
}
