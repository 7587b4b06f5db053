/** `findTableOfContents`, `readTOCReference` and `findNavTag`: the table of
    contents read either from an NCX document (`navMap` of `navPoint`
    entries, each with `navLabel/text` and `content@src`) or from an EPUB 3
    navigation document (`nav/ol/li`, each with an `a` whose text is the
    label and whose `href` the target). */
module TocReader {
  import opened Wrappers
  import opened Strings
  import opened Lookups
  import opened Xml
  import opened ResourceModel
  import opened ResourceRegistry
  import opened TableOfContents

  /** A target cut at `#` with empty pieces dropped: the href is the first
      piece and the fragment the second, or empty. A target made only of
      `#`s (or empty) leaves no piece and the Swift code crashes on it; the
      reader requires that this does not happen (`Splittable`), so the pair
      of empty strings given for it here is never used. */
  function SplitHref(reference: string): (r: (string, string))
    ensures HasNonSeparator(reference, '#') ==> r.0 != []
    ensures '#' !in r.0 && '#' !in r.1
  {
    SplitNonEmpty(reference, '#');
    var pieces := Split(reference, '#');
    if pieces == [] then ("", "") else (pieces[0], if |pieces| > 1 then pieces[1] else "")
  }

  /** The name of an entry element. */
  function ItemName(ncx: bool): string {
    if ncx then "navPoint" else "li"
  }

  /** `content@src` of a `navPoint`, `a@href` of an `li`. */
  function Reference(ncx: bool, el: Element): Option<string> {
    if ncx then AttributeOf(Child(el, "content"), "src") else AttributeOf(Child(el, "a"), "href")
  }

  /** `navLabel/text` of a `navPoint`, the `a` text of an `li`; `""` when
      missing. */
  function Label(ncx: bool, el: Element): string {
    (if ncx then ValueOf(ChildOf(Child(el, "navLabel"), "text")) else ValueOf(Child(el, "a"))).GetOr("")
  }

  /** The element whose entry-named children hold the sub-entries of an
      entry: the entry itself (NCX) or its first `ol` (navigation document). */
  function Holder(ncx: bool, el: Element): (h: Option<Element>)
    ensures !ncx && h.Some? ==> h.value in el.children
  {
    if ncx then Some(el) else Child(el, "ol")
  }

  /** The entry-named children of a holder, in order: `["navPoint"].all`
      or `["li"].all`, read as empty when there is none. */
  function Items(ncx: bool, holder: Element): (items: seq<Element>)
    ensures forall x :: x in items ==> x in holder.children && x.name == ItemName(ncx)
  {
    ChildrenNamed(holder.children, ItemName(ncx))
  }

  /** Every entry the reader reaches from `el` has a target with a piece, so
      the Swift code's `hrefSplit[0]` does not fail on it. */
  predicate Splittable(ncx: bool, el: Element)
    decreases el, 1
  {
    Reference(ncx, el).Some? ==>
      && HasNonSeparator(Reference(ncx, el).value, '#')
      && (ncx ==> HolderSplittable(ncx, el))
      && (!ncx && Child(el, "ol").Some? ==> HolderSplittable(ncx, Child(el, "ol").value))
  }

  predicate HolderSplittable(ncx: bool, holder: Element)
    decreases holder, 0
  {
    forall x :: x in holder.children && x.name == ItemName(ncx) ==> Splittable(ncx, x)
  }

  /** The entry for an element with a target, given its sub-entries: its
      label, the registered resource its href finds (none if unresolved) and
      the fragment. */
  function Entry(ncx: bool, el: Element, m: map<string, Resource>, children: seq<TocReference>): (t: TocReference)
    requires Reference(ncx, el).Some?
    ensures t.title == Label(ncx, el) && t.children == children
    ensures t.fragmentID == SplitHref(Reference(ncx, el).value).1
    ensures t.resource.Some? <==> SplitHref(Reference(ncx, el).value).0 != ""
                                  && StripParentRefs(SplitHref(Reference(ncx, el).value).0) in m
    ensures t.resource.Some? ==> t.resource.value in m.Values
  {
    var target := SplitHref(Reference(ncx, el).value);
    TocReference(Label(ncx, el), LookupHref(m, target.0), target.1, children)
  }

  /** `readTOCReference`: no entry without a target; otherwise the entry
      with the entries of the entry-named children of its holder. */
  function TocEntryOf(ncx: bool, el: Element, m: map<string, Resource>): (r: Option<TocReference>)
    ensures r.None? <==> Reference(ncx, el).None?
    decreases el, 1, 0
  {
    if Reference(ncx, el).None? then None
    else
      var children := if ncx then EntriesFrom(ncx, el, m, 0)
                      else if Child(el, "ol").Some? then EntriesFrom(ncx, Child(el, "ol").value, m, 0)
                      else [];
      Some(Entry(ncx, el, m, children))
  }

  /** The entries of the entry-named children of `holder`, from the `i`-th
      on, that have targets, in order. */
  function EntriesFrom(ncx: bool, holder: Element, m: map<string, Resource>, i: nat): (r: seq<TocReference>)
    requires i <= |Items(ncx, holder)|
    ensures |r| <= |Items(ncx, holder)| - i
    decreases holder, 0, |Items(ncx, holder)| - i
  {
    var items := Items(ncx, holder);
    if i == |items| then []
    else
      var e := TocEntryOf(ncx, items[i], m);
      (if e.Some? then [e.value] else []) + EntriesFrom(ncx, holder, m, i + 1)
  }

  /** The sub-entries of an entry: those of its holder, or none. */
  function SubEntries(ncx: bool, el: Element, m: map<string, Resource>): seq<TocReference>
    requires Reference(ncx, el).Some?
  {
    TocEntryOf(ncx, el, m).value.children
  }

  function HasTarget(ncx: bool): Element -> bool {
    (x: Element) => Reference(ncx, x).Some?
  }

  /** One step of `EntriesFrom`: the `i`-th item's entry, if any, then the
      rest. */
  lemma EntriesFromStep(ncx: bool, holder: Element, m: map<string, Resource>, i: nat)
    requires i < |Items(ncx, holder)|
    ensures var e := TocEntryOf(ncx, Items(ncx, holder)[i], m);
            EntriesFrom(ncx, holder, m, i) == (if e.Some? then [e.value] else []) + EntriesFrom(ncx, holder, m, i + 1)
  {
  }

  function EntryFor(ncx: bool, m: map<string, Resource>): Element -> Option<TocReference> {
    (x: Element) => TocEntryOf(ncx, x, m)
  }

  /** Entry-named children without a target are skipped; the others give
      the entries, in document order. */
  lemma {:induction false} EntriesAreTargetedItems(ncx: bool, holder: Element, m: map<string, Resource>, i: nat)
    requires i <= |Items(ncx, holder)|
    ensures KeptValues(EntriesFrom(ncx, holder, m, i), Items(ncx, holder)[i..], HasTarget(ncx), EntryFor(ncx, m))
    decreases |Items(ncx, holder)| - i
  {
    var items := Items(ncx, holder);
    if i < |items| {
      EntriesAreTargetedItems(ncx, holder, m, i + 1);
      EntriesFromStep(ncx, holder, m, i);
      KeptValuesCons(items[i], items[i + 1..], HasTarget(ncx), EntryFor(ncx, m), EntriesFrom(ncx, holder, m, i + 1));
      assert [items[i]] + items[i + 1..] == items[i..];
    } else {
      assert items[i..] == [];
    }
  }

  /** The sub-entries of an NCX entry are its own `navPoint` children that
      have targets; those of a navigation-document entry are the `li`
      children of its first `ol`, and there are none without an `ol`. */
  lemma SubEntriesOfHolder(ncx: bool, el: Element, m: map<string, Resource>)
    requires Reference(ncx, el).Some?
    ensures ncx ==> SubEntries(ncx, el, m) == EntriesFrom(ncx, el, m, 0)
    ensures !ncx && Child(el, "ol").None? ==> SubEntries(ncx, el, m) == []
    ensures !ncx && Child(el, "ol").Some? ==> SubEntries(ncx, el, m) == EntriesFrom(ncx, Child(el, "ol").value, m, 0)
  {
  }

  /** Every item of a splittable holder is splittable. */
  lemma ItemSplittable(ncx: bool, holder: Element, i: nat)
    requires HolderSplittable(ncx, holder) && i < |Items(ncx, holder)|
    ensures Splittable(ncx, Items(ncx, holder)[i])
  {
    assert Items(ncx, holder)[i] in holder.children && Items(ncx, holder)[i].name == ItemName(ncx);
  }

  lemma AppendAssociates(a: seq<TocReference>, x: TocReference, b: seq<TocReference>)
    ensures (a + [x]) + b == a + ([x] + b)
  {
  }

  /** The loop `for item in items { guard let ref = readTOCReference(item)
      else { continue }; list.append(ref) }`, over the entry-named children
      of `holder`. */
  method ReadEntries(ncx: bool, ghost holder: Element, items: seq<Element>, resources: Resources)
    returns (entries: seq<TocReference>)
    requires HolderSplittable(ncx, holder) && items == Items(ncx, holder)
    ensures entries == EntriesFrom(ncx, holder, resources.resources, 0)
    decreases holder, 0
  {
    entries := [];
    ghost var m := resources.resources;
    for i := 0 to |items|
      invariant entries + EntriesFrom(ncx, holder, m, i) == EntriesFrom(ncx, holder, m, 0)
    {
      EntriesFromStep(ncx, holder, m, i);
      ItemSplittable(ncx, holder, i);
      var ref := ReadTocReference(ncx, items[i], resources);
      ghost var rest := EntriesFrom(ncx, holder, m, i + 1);
      if ref.None? {
        assert [] + rest == rest;
        continue;
      }
      AppendAssociates(entries, ref.value, rest);
      entries := entries + [ref.value];
    }
  }

  /** `readTOCReference(_:)` for the schema `ncx` selects (the Swift code reads
      it off the chosen TOC resource's media type). */
  method ReadTocReference(ncx: bool, navpointElement: Element, resources: Resources) returns (r: Option<TocReference>)
    requires Splittable(ncx, navpointElement)
    ensures r == TocEntryOf(ncx, navpointElement, resources.resources)
    decreases navpointElement, 1
  {
    var title := Label(ncx, navpointElement);
    var reference := Reference(ncx, navpointElement);
    if reference.None? {
      return None;
    }
    SplitNonEmpty(reference.value, '#');
    var hrefSplit := Split(reference.value, '#');
    var fragmentID := if |hrefSplit| > 1 then hrefSplit[1] else "";
    var href := hrefSplit[0];
    var resource := resources.FindByHref(href);
    assert (href, fragmentID) == SplitHref(reference.value);
    ghost var m := resources.resources;
    var children: seq<TocReference> := [];
    var holder := if ncx then Some(navpointElement) else Child(navpointElement, "ol");
    assert holder.Some? ==> HolderSplittable(ncx, holder.value);
    ghost var expected := if holder.Some? then EntriesFrom(ncx, holder.value, m, 0) else [];
    var navPoints := All(holder, ItemName(ncx));
    AllOrNothing(holder, ItemName(ncx));
    if navPoints.Some? {
      children := ReadEntries(ncx, holder.value, navPoints.value, resources);
    } else {
      assert holder.Some? ==> Items(ncx, holder.value) == [];
    }
    assert children == expected;
    assert TocEntryOf(ncx, navpointElement, m) == Some(Entry(ncx, navpointElement, m, expected));
    r := Some(TocReference(title, resource, fragmentID, children));
  }

  /** A target without `#` is all href. */
  lemma SplitHrefWithoutFragment(href: string)
    requires href != "" && '#' !in href
    ensures HasNonSeparator(href, '#') && SplitHref(href) == (href, "")
  {
    assert href[0] != '#';
    SplitWithoutSeparator(href, '#');
  }

  /** `href#fragment` splits into its two parts, and anything after a
      second `#` is ignored. */
  lemma SplitHrefWithFragment(href: string, fragment: string, more: string)
    requires href != "" && '#' !in href && fragment != "" && '#' !in fragment
    ensures HasNonSeparator(href + "#" + fragment, '#')
    ensures SplitHref(href + "#" + fragment) == (href, fragment)
    ensures HasNonSeparator(href + "#" + fragment + "#" + more, '#')
    ensures SplitHref(href + "#" + fragment + "#" + more) == (href, fragment)
  {
    assert (href + "#" + fragment)[0] == href[0] != '#';
    assert (href + "#" + fragment + "#" + more)[0] == href[0];
    SplitAtSeparator(href, '#', fragment);
    SplitWithoutSeparator(fragment, '#');
    SplitAtSeparator(href, '#', fragment + "#" + more);
    SplitAtSeparator(fragment, '#', more);
    assert href + "#" + fragment + "#" + more == href + "#" + (fragment + "#" + more);
  }

  /** Empty pieces are dropped: `#fragment` reads the fragment as the href,
      and `href##fragment` reads like `href#fragment`. */
  lemma SplitHrefDropsEmptyPieces(href: string, fragment: string)
    requires href != "" && '#' !in href && fragment != "" && '#' !in fragment
    ensures HasNonSeparator("#" + fragment, '#') && SplitHref("#" + fragment) == (fragment, "")
    ensures HasNonSeparator(href + "##" + fragment, '#') && SplitHref(href + "##" + fragment) == (href, fragment)
  {
    assert ("#" + fragment)[1] == fragment[0];
    assert (href + "##" + fragment)[0] == href[0];
    SplitAtSeparator("", '#', fragment);
    assert "" + "#" + fragment == "#" + fragment;
    SplitWithoutSeparator(fragment, '#');
    SplitAtSeparator(href, '#', "#" + fragment);
    assert href + "##" + fragment == href + "#" + ("#" + fragment);
  }

  /** `findNavTag`'s answer for a list of children: the first `nav` child
      of the first of them that has one. */
  function NavTagIn(elements: seq<Element>): (r: Option<Element>)
    ensures r.Some? ==> r.value.name == "nav"
                        && exists i :: 0 <= i < |elements| && r.value in elements[i].children
    ensures r.None? <==> forall i :: 0 <= i < |elements| ==> Child(elements[i], "nav").None?
    ensures r.Some? ==> exists i :: 0 <= i < |elements| && r == Child(elements[i], "nav")
                                    && forall j :: 0 <= j < i ==> Child(elements[j], "nav").None?
  {
    if elements == [] then None
    else if Child(elements[0], "nav").Some? then Child(elements[0], "nav")
    else
      var r := NavTagIn(elements[1..]);
      NavTagInRest(elements[0], elements[1..], r);
      assert elements == [elements[0]] + elements[1..];
      r
  }

  /** The answer for the rest of a list whose head has no `nav` child is the
      answer for the whole list. */
  lemma NavTagInRest(head: Element, rest: seq<Element>, r: Option<Element>)
    requires Child(head, "nav").None?
    requires r.Some? ==> r.value.name == "nav"
    requires r.None? <==> forall i :: 0 <= i < |rest| ==> Child(rest[i], "nav").None?
    requires r.Some? ==> exists i :: 0 <= i < |rest| && r == Child(rest[i], "nav")
                                     && forall j :: 0 <= j < i ==> Child(rest[j], "nav").None?
    ensures var elements := [head] + rest;
            && (r.Some? ==> r.value.name == "nav" && exists i :: 0 <= i < |elements| && r.value in elements[i].children)
            && (r.None? <==> forall i :: 0 <= i < |elements| ==> Child(elements[i], "nav").None?)
            && (r.Some? ==> exists i :: 0 <= i < |elements| && r == Child(elements[i], "nav")
                                        && forall j :: 0 <= j < i ==> Child(elements[j], "nav").None?)
  {
    var elements := [head] + rest;
    assert forall i :: 1 <= i < |elements| ==> elements[i] == rest[i - 1];
    if r.Some? {
      var k :| 0 <= k < |rest| && r == Child(rest[k], "nav")
               && forall j :: 0 <= j < k ==> Child(rest[j], "nav").None?;
      assert elements[k + 1] == rest[k];
      assert r.value in elements[k + 1].children;
    }
  }

  function NavTag(e: Element): Option<Element> {
    NavTagIn(e.children)
  }

  /** `findNavTag(_:)`: the loop over the children returns the first `nav`
      grandchild; the recursive call on a child without one is made but its
      answer is dropped, so a deeper `nav` is never returned. */
  method FindNavTag(element: Element) returns (r: Option<Element>)
    ensures r == NavTag(element)
    decreases element
  {
    for i := 0 to |element.children|
      invariant NavTagIn(element.children[i..]) == NavTag(element)
    {
      var child := element.children[i];
      assert element.children[i..][0] == child && element.children[i..][1..] == element.children[i + 1..];
      var nav := Child(child, "nav");
      if nav.Some? {
        return nav;
      } else {
        var ignored := FindNavTag(child);
      }
    }
    assert element.children[|element.children|..] == [];
    return None;
  }

  /** A `nav` three levels down is not found, though one level up the same
      `nav` is. */
  lemma NestedNavIsMissed(nav: Element, section: Element, div: Element, body: Element)
    requires nav == Element("nav", map[], None, [])
    requires section == Element("section", map[], None, [nav])
    requires div == Element("div", map[], None, [section])
    requires body == Element("body", map[], None, [div])
    ensures NavTag(div) == Some(nav)
    ensures NavTag(body) == None
  {
    assert Child(section, "nav") == Some(nav);
    assert div.children[0] == section;
    assert body.children[0] == div && div.name != "nav";
    assert Child(div, "nav") == None;
  }

  /** The element whose entry-named children are the top-level entries:
      `navMap` in an NCX document; in a navigation document the `ol` of
      `body`'s first `nav` child when that has `li` entries, and otherwise
      the `ol` of the `nav` that `findNavTag` finds under `body`. */
  function TocHolder(ncx: bool, root: Element): (r: Option<Element>)
    ensures r.Some? ==> r.value.name == if ncx then "navMap" else "ol"
  {
    if ncx then Child(root, "navMap")
    else
      var body := Child(root, "body");
      var nav := ChildOf(body, "nav");
      if nav.Some? && All(Child(nav.value, "ol"), "li").Some? then Child(nav.value, "ol")
      else if body.Some? && NavTag(body.value).Some? then Child(NavTag(body.value).value, "ol")
      else None
  }

  predicate TocSplittable(ncx: bool, root: Element) {
    TocHolder(ncx, root).Some? ==> HolderSplittable(ncx, TocHolder(ncx, root).value)
  }

  /** The table of contents of a parsed TOC document. */
  function TableOfContentsOf(ncx: bool, root: Element, m: map<string, Resource>): seq<TocReference>
  {
    if TocHolder(ncx, root).None? then [] else EntriesFrom(ncx, TocHolder(ncx, root).value, m, 0)
  }

  /** The TOC resource is read as NCX exactly when its media type is NCX's. */
  predicate IsNcx(tocResource: Resource) {
    tocResource.mediaType == Some(Ncx)
  }

  /** `findTableOfContents()`. `document` is the parsed TOC resource, or
      `None` when it could not be read or parsed (the Swift code then prints a
      message and returns no entries). */
  method FindTableOfContents(tocResource: Option<Resource>, document: Option<Element>, resources: Resources)
    returns (tableOfContent: seq<TocReference>)
    requires tocResource.Some? && document.Some? ==> TocSplittable(IsNcx(tocResource.value), document.value)
    ensures tocResource.None? || document.None? ==> tableOfContent == []
    ensures tocResource.Some? && document.Some? ==>
              tableOfContent == TableOfContentsOf(IsNcx(tocResource.value), document.value, resources.resources)
  {
    tableOfContent := [];
    if tocResource.None? || document.None? {
      return;
    }
    var root := document.value;
    var ncx := IsNcx(tocResource.value);
    var tocItems: Option<seq<Element>> := None;
    ghost var holder: Option<Element> := None;
    if ncx {
      tocItems := All(Child(root, "navMap"), "navPoint");
      holder := Child(root, "navMap");
    } else {
      var first := ChildOf(Child(root, "body"), "nav");
      if first.Some? && All(Child(first.value, "ol"), "li").Some? {
        tocItems := All(Child(first.value, "ol"), "li");
        holder := Child(first.value, "ol");
      } else if Child(root, "body").Some? {
        var nav := FindNavTag(Child(root, "body").value);
        if nav.Some? {
          tocItems := All(Child(nav.value, "ol"), "li");
          holder := Child(nav.value, "ol");
        }
      }
    }
    assert holder == TocHolder(ncx, root);
    AllOrNothing(holder, ItemName(ncx));
    if tocItems.None? {
      assert holder.Some? ==> Items(ncx, holder.value) == [];
      return;
    }
    tableOfContent := ReadEntries(ncx, holder.value, tocItems.value, resources);
  }
}
