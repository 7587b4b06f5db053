/** The parsed XML the decoder walks, in place of the AEXML library: an
    element has a tag name, attributes, an optional text value and ordered
    children. */
module Xml {
  import opened Wrappers
  import opened Lookups

  datatype Element = Element(
    name: string,
    attributes: map<string, string>,
    value: Option<string>,
    children: seq<Element>)

  /** `e[name]`: the first child with that tag name. AEXML answers with an
      empty placeholder element when there is none; `None` stands for it. */
  function Child(e: Element, name: string): (r: Option<Element>)
    ensures r.Some? ==> r.value in e.children && r.value.name == name
    ensures r.None? <==> forall i :: 0 <= i < |e.children| ==> e.children[i].name != name
  {
    First(e.children, (x: Element) => x.name == name)
  }

  /** The child found is the first with the name: none before it has it. */
  lemma ChildIsFirst(e: Element, name: string)
    ensures Child(e, name).Some? ==>
              exists i :: 0 <= i < |e.children| && e.children[i] == Child(e, name).value
                          && forall j :: 0 <= j < i ==> e.children[j].name != name
  {
  }

  /** `e[name]` followed by a further subscript, for chains like
      `e["navLabel"]["text"]`. */
  function ChildOf(e: Option<Element>, name: string): Option<Element> {
    if e.None? then None else Child(e.value, name)
  }

  /** `.attributes[a]` of an element or of AEXML's placeholder, which has none. */
  function AttributeOf(e: Option<Element>, a: string): Option<string> {
    if e.Some? && a in e.value.attributes then Some(e.value.attributes[a]) else None
  }

  /** `.value` of an element or of the placeholder, which has none. */
  function ValueOf(e: Option<Element>): Option<string> {
    if e.Some? then e.value.value else None
  }

  /** `e[name].all`: all children of `e` with the tag name, or `None` when
      there is none (the placeholder has no parent). */
  function All(e: Option<Element>, name: string): (r: Option<seq<Element>>)
    ensures r.Some? ==> e.Some? && r.value != []
    ensures r.Some? ==> forall i :: 0 <= i < |r.value| ==> r.value[i] in e.value.children && r.value[i].name == name
  {
    if e.None? || Child(e.value, name).None? then None
    else Some(ChildrenNamed(e.value.children, name))
  }

  /** `.all` read with `?? []`: the named children, or none at all
      under the placeholder. */
  lemma AllOrNothing(e: Option<Element>, name: string)
    ensures All(e, name).GetOr([]) == if e.None? then [] else ChildrenNamed(e.value.children, name)
  {
    if e.Some? && Child(e.value, name).None? {
      FilterNone(e.value.children, (x: Element) => x.name == name);
    }
  }

  function ChildrenNamed(elements: seq<Element>, name: string): (r: seq<Element>)
    ensures forall i :: 0 <= i < |r| ==> r[i] in elements && r[i].name == name
    ensures forall i :: 0 <= i < |elements| && elements[i].name == name ==> elements[i] in r
  {
    Filter(elements, (x: Element) => x.name == name)
  }
}
