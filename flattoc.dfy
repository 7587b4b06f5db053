/** `flatTOC` and `countTocChild`: the table of contents flattened one level
    deep, each top-level entry followed by its direct children. */
module FlatToc {
  import opened TableOfContents

  /** The top-level entries, each followed by its direct children; deeper
      entries are not included. */
  function ShallowFlatten(toc: seq<TocReference>): seq<TocReference> {
    if toc == [] then []
    else
      var last := toc[|toc| - 1];
      ShallowFlatten(toc[..|toc| - 1]) + [last] + last.children
  }

  /** The number of entries the flattening holds: one per top-level entry
      plus one per direct child. */
  function ShallowSize(toc: seq<TocReference>): nat {
    if toc == [] then 0 else 1 + |toc[0].children| + ShallowSize(toc[1..])
  }

  lemma {:induction false} ShallowSizeSnoc(toc: seq<TocReference>, t: TocReference)
    ensures ShallowSize(toc + [t]) == ShallowSize(toc) + 1 + |t.children|
  {
    if toc == [] {
      assert toc + [t] == [t];
      assert ShallowSize([t]) == 1 + |t.children| + ShallowSize([]);
    } else {
      assert (toc + [t])[0] == toc[0];
      assert (toc + [t])[1..] == toc[1..] + [t];
      ShallowSizeSnoc(toc[1..], t);
    }
  }

  /** The flat list's length is the sum of 1 + |children| over the
      top-level entries. */
  lemma {:induction false} FlatLength(toc: seq<TocReference>)
    ensures |ShallowFlatten(toc)| == ShallowSize(toc)
  {
    if toc != [] {
      var init := toc[..|toc| - 1];
      FlatLength(init);
      ShallowSizeSnoc(init, toc[|toc| - 1]);
      assert init + [toc[|toc| - 1]] == toc;
    }
  }

  /** An entry is in the flat list exactly when it is a top-level entry or
      a direct child of one. */
  lemma {:induction false} FlatMembership(toc: seq<TocReference>, x: TocReference)
    ensures x in ShallowFlatten(toc) <==>
              x in toc || exists i :: 0 <= i < |toc| && x in toc[i].children
  {
    if toc != [] {
      var init := toc[..|toc| - 1];
      var last := toc[|toc| - 1];
      FlatMembership(init, x);
      assert toc == init + [last];
      if exists i :: 0 <= i < |init| && x in init[i].children {
        var i :| 0 <= i < |init| && x in init[i].children;
        assert toc[i] == init[i];
      }
      if exists i :: 0 <= i < |toc| && x in toc[i].children {
        var i :| 0 <= i < |toc| && x in toc[i].children;
        if i < |init| {
          assert init[i] == toc[i];
        }
      }
    }
  }

  /** A grandchild that is neither a top-level entry nor a direct child is
      left out. */
  lemma GrandchildrenLeftOut(top: TocReference, child: TocReference, grandchild: TocReference)
    requires top.children == [child] && child.children == [grandchild]
    requires grandchild != top && grandchild != child
    ensures ShallowFlatten([top]) == [top, child]
    ensures grandchild !in ShallowFlatten([top])
  {
    assert ShallowFlatten([top]) == ShallowFlatten([]) + [top] + [child];
  }

  /** `countTocChild(_:)`: a copy of the entry's direct children. */
  method CountTocChild(item: TocReference) returns (tocItems: seq<TocReference>)
    ensures tocItems == item.children
  {
    tocItems := [];
    for i := 0 to |item.children|
      invariant tocItems == item.children[..i]
    {
      assert item.children[..i + 1] == item.children[..i] + [item.children[i]];
      tocItems := tocItems + [item.children[i]];
    }
    assert item.children[..|item.children|] == item.children;
  }

  /** `flatTOC`. */
  method FlatTocOf(tableOfContents: seq<TocReference>) returns (tocItems: seq<TocReference>)
    ensures tocItems == ShallowFlatten(tableOfContents)
  {
    tocItems := [];
    for i := 0 to |tableOfContents|
      invariant tocItems == ShallowFlatten(tableOfContents[..i])
    {
      var item := tableOfContents[i];
      assert tableOfContents[..i + 1][..i] == tableOfContents[..i];
      tocItems := tocItems + [item];
      var children := CountTocChild(item);
      tocItems := tocItems + children;
    }
    assert tableOfContents[..|tableOfContents|] == tableOfContents;
  }
}
