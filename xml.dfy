/** The parsed input tree that the fulltext formats read.

    A SimpleXML element is modelled as an element node carrying its resolved
    (namespace, local name) pair, its attributes without a namespace, and its
    children in document order.  Text children are kept only so that the
    selection functions can be seen to skip them. */
module Xml {

  /** The namespace of ALTO 2.x documents. */
  const AltoNs: string := "http://www.loc.gov/standards/alto/ns-v2#"

  datatype Name = Name(ns: string, local: string)

  datatype Node =
    | Element(name: Name, attrs: map<string, string>, children: seq<Node>)
    | Text(text: string)

  /** `(string) $attributes['key']`: the attribute's value, or "" when it is missing. */
  function Attr(n: Node, key: string): string
  {
    if n.Element? && key in n.attrs then n.attrs[key] else ""
  }

  /** The children an element iterates over; a text node has none. */
  function ChildrenOf(n: Node): seq<Node>
  {
    if n.Element? then n.children else []
  }

  /** An XPath name test `alto:local`: the ALTO namespace and the local name. */
  predicate IsAlto(n: Node, local: string)
  {
    n.Element? && n.name == Name(AltoNs, local)
  }

  /** The key under which `children()` yields an element: its local name. */
  predicate HasKey(n: Node, key: string)
  {
    n.Element? && n.name.local == key
  }

  /** Every element of the subtree is in the ALTO namespace (the usual shape
      of an ALTO file, which declares the namespace as its default). */
  ghost predicate AllAlto(n: Node)
    decreases n
  {
    match n
    case Text(_) => true
    case Element(name, _, kids) =>
      name.ns == AltoNs && forall k :: k in kids ==> AllAlto(k)
  }
}
