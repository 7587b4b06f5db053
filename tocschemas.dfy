/** The two table-of-contents schemas `readTOCReference` reads, an NCX
    `navMap` of nested `navPoint`s and an EPUB 3 navigation document's nested
    `ol`/`li` lists, written out for one abstract outline, read to the same
    entries. */
module TocSchemas {
  import opened Wrappers
  import opened Lookups
  import opened Xml
  import opened ResourceModel
  import opened TableOfContents
  import opened TocReader

  /** A table-of-contents entry as both schemas write it down: a label, a
      target `href[#fragment]` and the nested entries. */
  datatype Outline = Outline(title: string, target: string, children: seq<Outline>)

  function LabelOf(o: Outline): Element {
    Element("navLabel", map[], None, [Element("text", map[], Some(o.title), [])])
  }

  function ContentOf(o: Outline): Element {
    Element("content", map["src" := o.target], None, [])
  }

  /** `<navPoint><navLabel><text>title</text></navLabel><content src="target"/>…</navPoint>` */
  function NcxPoint(o: Outline): Element
    decreases o
  {
    Element("navPoint", map[], None,
            [LabelOf(o), ContentOf(o)]
            + seq(|o.children|, i requires 0 <= i < |o.children| => NcxPoint(o.children[i])))
  }

  function NcxPoints(os: seq<Outline>): (r: seq<Element>)
    ensures |r| == |os| && forall i :: 0 <= i < |os| ==> r[i] == NcxPoint(os[i])
  {
    seq(|os|, i requires 0 <= i < |os| => NcxPoint(os[i]))
  }

  function AnchorOf(o: Outline): Element {
    Element("a", map["href" := o.target], Some(o.title), [])
  }

  /** `<li><a href="target">title</a><ol>…</ol></li>` */
  function NavItem(o: Outline): Element
    decreases o
  {
    Element("li", map[], None,
            [AnchorOf(o),
             Element("ol", map[], None,
                     seq(|o.children|, i requires 0 <= i < |o.children| => NavItem(o.children[i])))])
  }

  function NavItems(os: seq<Outline>): (r: seq<Element>)
    ensures |r| == |os| && forall i :: 0 <= i < |os| ==> r[i] == NavItem(os[i])
  {
    seq(|os|, i requires 0 <= i < |os| => NavItem(os[i]))
  }

  function NavList(os: seq<Outline>): Element {
    Element("ol", map[], None, NavItems(os))
  }

  /** An NCX document whose `navMap` holds the outlines. */
  function NcxDocument(roots: seq<Outline>): Element {
    Element("ncx", map[], None, [Element("navMap", map[], None, NcxPoints(roots))])
  }

  /** A navigation document whose `body` has a `nav` holding the outlines. */
  function NavDocument(roots: seq<Outline>): Element {
    Element("html", map[], None,
            [Element("body", map[], None, [Element("nav", map[], None, [NavList(roots)])])])
  }

  lemma {:induction false} NcxPointShape(o: Outline)
    ensures Reference(true, NcxPoint(o)) == Some(o.target)
    ensures Label(true, NcxPoint(o)) == o.title
    ensures Items(true, NcxPoint(o)) == NcxPoints(o.children)
  {
    var p := NcxPoint(o);
    assert p.children == [LabelOf(o), ContentOf(o)] + NcxPoints(o.children);
    assert p.children[0] == LabelOf(o) && p.children[1] == ContentOf(o);
    FirstAt(p.children, (x: Element) => x.name == "content", 1);
    FirstAt(p.children, (x: Element) => x.name == "navLabel", 0);
    FirstAt(LabelOf(o).children, (x: Element) => x.name == "text", 0);
    FilterPrefixDropped([LabelOf(o), ContentOf(o)], NcxPoints(o.children), (x: Element) => x.name == "navPoint");
  }

  lemma {:induction false} NavItemShape(o: Outline)
    ensures Reference(false, NavItem(o)) == Some(o.target)
    ensures Label(false, NavItem(o)) == o.title
    ensures Child(NavItem(o), "ol") == Some(NavList(o.children))
    ensures Items(false, NavList(o.children)) == NavItems(o.children)
  {
    var li := NavItem(o);
    assert li.children[1].children == NavItems(o.children);
    assert li.children == [AnchorOf(o), NavList(o.children)];
    FirstAt(li.children, (x: Element) => x.name == "a", 0);
    FirstAt(li.children, (x: Element) => x.name == "ol", 1);
    FilterPrefixDropped([], NavItems(o.children), (x: Element) => x.name == "li");
    assert [] + NavItems(o.children) == NavItems(o.children);
  }

  /** One outline written as a `navPoint` and as an `li` reads to the same
      entry, with the outline's label and the fragment of its target. */
  lemma {:induction false} SameEntry(o: Outline, m: map<string, Resource>)
    ensures TocEntryOf(true, NcxPoint(o), m) == TocEntryOf(false, NavItem(o), m)
    ensures TocEntryOf(true, NcxPoint(o), m).Some?
    ensures TocEntryOf(true, NcxPoint(o), m).value.title == o.title
    ensures TocEntryOf(true, NcxPoint(o), m).value.fragmentID == SplitHref(o.target).1
    decreases o, 1
  {
    NcxPointShape(o);
    NavItemShape(o);
    SameEntries(o, NcxPoint(o), NavList(o.children), m, 0);
  }

  /** The children of `parent` held by an NCX holder and by a navigation
      list read to the same entries, from the `i`-th on. */
  lemma {:induction false} SameEntries(parent: Outline, ncxHolder: Element, navHolder: Element,
                                      m: map<string, Resource>, i: nat)
    requires Items(true, ncxHolder) == NcxPoints(parent.children)
    requires Items(false, navHolder) == NavItems(parent.children)
    requires i <= |parent.children|
    ensures EntriesFrom(true, ncxHolder, m, i) == EntriesFrom(false, navHolder, m, i)
    decreases parent, 0, |parent.children| - i
  {
    if i < |parent.children| {
      var child := parent.children[i];
      assert Items(true, ncxHolder)[i] == NcxPoint(child);
      assert Items(false, navHolder)[i] == NavItem(child);
      SameEntry(child, m);
      SameEntries(parent, ncxHolder, navHolder, m, i + 1);
      EntriesFromStep(true, ncxHolder, m, i);
      EntriesFromStep(false, navHolder, m, i);
    }
  }

  /** The holder of an NCX document's top-level entries is its `navMap`. */
  lemma {:induction false} NcxDocumentHolder(roots: seq<Outline>)
    ensures TocHolder(true, NcxDocument(roots)) == Some(Element("navMap", map[], None, NcxPoints(roots)))
    ensures Items(true, TocHolder(true, NcxDocument(roots)).value) == NcxPoints(roots)
  {
    FirstAt(NcxDocument(roots).children, (x: Element) => x.name == "navMap", 0);
    FilterPrefixDropped([], NcxPoints(roots), (x: Element) => x.name == "navPoint");
    assert [] + NcxPoints(roots) == NcxPoints(roots);
  }

  /** The holder of a navigation document's top-level entries is the list in
      its `nav`; a list without entries is not taken, and having no other
      `nav` the document then has none. */
  lemma {:induction false} NavDocumentHolder(roots: seq<Outline>)
    ensures roots != [] ==> TocHolder(false, NavDocument(roots)) == Some(NavList(roots))
    ensures roots == [] ==> TocHolder(false, NavDocument(roots)).None?
    ensures Items(false, NavList(roots)) == NavItems(roots)
  {
    var nav := Element("nav", map[], None, [NavList(roots)]);
    var body := Element("body", map[], None, [nav]);
    FirstAt(NavDocument(roots).children, (x: Element) => x.name == "body", 0);
    FirstAt(body.children, (x: Element) => x.name == "nav", 0);
    FirstAt(nav.children, (x: Element) => x.name == "ol", 0);
    FilterPrefixDropped([], NavItems(roots), (x: Element) => x.name == "li");
    assert [] + NavItems(roots) == NavItems(roots);
    if roots == [] {
      EmptyNavHasNoHolder(nav, body);
    } else {
      assert NavList(roots).children[0].name == "li";
      assert All(Child(nav, "ol"), "li").Some?;
    }
  }

  /** A `body` whose only child is a `nav` holding an empty list has no
      `nav` grandchild for `findNavTag` to find. */
  lemma EmptyNavHasNoHolder(nav: Element, body: Element)
    requires nav == Element("nav", map[], None, [NavList([])])
    requires body == Element("body", map[], None, [nav])
    ensures NavTag(body) == None
  {
    assert nav.children[0].name == "ol";
    assert Child(nav, "nav") == None;
    assert body.children[1..] == [];
    assert NavTagIn(body.children[1..]) == None;
  }

  /** The same outlines written as an NCX document and as a navigation
      document give the same table of contents. */
  lemma {:induction false} SameTableOfContents(roots: seq<Outline>, m: map<string, Resource>)
    ensures TableOfContentsOf(true, NcxDocument(roots), m) == TableOfContentsOf(false, NavDocument(roots), m)
  {
    NcxDocumentHolder(roots);
    NavDocumentHolder(roots);
    var navMap := TocHolder(true, NcxDocument(roots)).value;
    if roots == [] {
      assert Items(true, navMap) == [];
    } else {
      SameEntries(Outline("", "", roots), navMap, NavList(roots), m, 0);
    }
  }
}
