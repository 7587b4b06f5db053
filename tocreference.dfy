/** A node of the table of contents. */
module TableOfContents {
  import opened Wrappers
  import opened ResourceModel

  /** `fragmentID` is the part of the target after `#`; `children` are the
      nested entries in document order. */
  datatype TocReference = TocReference(
    title: string,
    resource: Option<Resource>,
    fragmentID: string,
    children: seq<TocReference>)

  /** The convenience initialiser: no fragment unless one is given, and no
      children. */
  function NewTocReference(title: string, resource: Option<Resource>, fragmentID: string := ""): (t: TocReference)
    ensures t.title == title && t.resource == resource && t.fragmentID == fragmentID
    ensures t.children == []
  {
    TocReference(title, resource, fragmentID, [])
  }

  lemma NewTocReferenceDefaults(title: string, resource: Option<Resource>)
    ensures NewTocReference(title, resource).fragmentID == ""
    ensures NewTocReference(title, resource).children == []
  {
  }

  /** Swift's `==` on entries: same title and same fragment. */
  predicate SameEntry(a: TocReference, b: TocReference): (r: bool)
    ensures a == b ==> r
  {
    a.title == b.title && a.fragmentID == b.fragmentID
  }

  /** The target resource and the children take no part in identity. */
  lemma SameEntryIgnoresResourceAndChildren(a: TocReference, resource: Option<Resource>, children: seq<TocReference>)
    ensures SameEntry(a, a.(resource := resource, children := children))
  {
  }

  lemma SameEntryIsEquivalence(a: TocReference, b: TocReference, c: TocReference)
    ensures SameEntry(a, a)
    ensures SameEntry(a, b) ==> SameEntry(b, a)
    ensures SameEntry(a, b) && SameEntry(b, c) ==> SameEntry(a, c)
  {
  }
}
