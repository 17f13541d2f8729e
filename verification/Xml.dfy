/** The parsed XML document as the compilers see it: elements with attributes
    and sub-nodes, CDATA sections and text, each with the start of its code
    range. The parser itself is not part of this model. */
module Xml {
  import opened Basics

  /** A position in the resource text; `NoPos` is an unset position. */
  datatype Pos = NoPos | At(row: int, column: int)

  /** `position.column += n`, used to step over an opening quote or `<![CDATA[`. */
  function Shift(p: Pos, n: int): (r: Pos)
    ensures p.At? ==> r.At? && r.row == p.row && r.column == p.column + n
    ensures p.NoPos? ==> r.NoPos?
  {
    match p
    case NoPos => NoPos
    case At(row, column) => At(row, column + n)
  }

  /** `pos` is the start of the whole attribute, `valuePos` the start of its quoted value. */
  datatype Attribute = Attribute(name: string, value: string, pos: Pos, valuePos: Pos)

  datatype Node =
    | Element(name: string, namePos: Pos, attributes: seq<Attribute>, subNodes: seq<Node>, pos: Pos)
    | CData(content: string, pos: Pos)
    | Text(content: string, pos: Pos)

  /** `XmlGetAttribute`: the first attribute with the given name. */
  function GetAttribute(attributes: seq<Attribute>, name: string): (r: Option<Attribute>)
    ensures r.Some? ==> r.value.name == name
  {
    if attributes == [] then None
    else if attributes[0].name == name then Some(attributes[0])
    else GetAttribute(attributes[1..], name)
  }

  /** The element children of a node list, in document order (`XmlGetElements(e)`). */
  function Elements(nodes: seq<Node>): (r: seq<Node>)
    ensures forall i :: 0 <= i < |r| ==> r[i].Element?
  {
    if nodes == [] then []
    else (if nodes[0].Element? then [nodes[0]] else []) + Elements(nodes[1..])
  }

  /** The element children with the given name, in document order (`XmlGetElements(e, name)`). */
  function ElementsNamed(nodes: seq<Node>, name: string): (r: seq<Node>)
    ensures forall i :: 0 <= i < |r| ==> r[i].Element? && r[i].name == name
  {
    if nodes == [] then []
    else (if nodes[0].Element? && nodes[0].name == name then [nodes[0]] else []) + ElementsNamed(nodes[1..], name)
  }

  /** `XmlGetElement(e, name)`: the first element child with the given name. */
  function GetElement(nodes: seq<Node>, name: string): (r: Option<Node>)
    ensures r.Some? ==> r.value.Element? && r.value.name == name
  {
    if nodes == [] then None
    else if nodes[0].Element? && nodes[0].name == name then Some(nodes[0])
    else GetElement(nodes[1..], name)
  }
}
