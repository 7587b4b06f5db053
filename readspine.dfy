/** `readSpine`: the reading order built from the package's `spine` items,
    each naming a manifest item by `idref`. */
module SpineReader {
  import opened Wrappers
  import opened Lookups
  import opened Xml
  import opened ResourceModel
  import opened ResourceRegistry
  import opened ReadingOrder

  /** An item is kept when it has an `idref` naming a registered resource. */
  predicate Kept(m: map<string, Resource>, tag: Element) {
    "idref" in tag.attributes && HasId(m, tag.attributes["idref"])
  }

  function KeptIn(m: map<string, Resource>): Element -> bool {
    (tag: Element) => Kept(m, tag)
  }

  /** `linear` is true unless the attribute is present and is not `yes`. */
  function Linear(tag: Element): (linear: bool)
    ensures !linear <==> "linear" in tag.attributes && tag.attributes["linear"] != "yes"
  {
    if "linear" in tag.attributes then tag.attributes["linear"] == "yes" else true
  }

  /** The spine entry for item `tag` is one for a resource with the item's
      `idref`, with the item's linear flag. */
  predicate EntryFor(m: map<string, Resource>, tag: Element, entry: BaseSpine)
    requires "idref" in tag.attributes
  {
    && entry.resource in m.Values
    && entry.resource.id == Some(tag.attributes["idref"])
    && entry.linear == Linear(tag)
  }

  /** The items of a fresh spine correspond one to one, in order, to the kept
      items; the direction is left unset. */
  method ReadSpine(tags: seq<Element>, resources: Resources) returns (spine: Spine)
    ensures fresh(spine)
    ensures spine.pageProgressionDirection.None?
    ensures var kept := Filter(tags, KeptIn(resources.resources));
            && |spine.spineReferences| == |kept|
            && forall i :: 0 <= i < |kept| ==> EntryFor(resources.resources, kept[i], spine.spineReferences[i])
  {
    spine := new Spine();
    for i := 0 to |tags|
      invariant var kept := Filter(tags[..i], KeptIn(resources.resources));
                && |spine.spineReferences| == |kept|
                && forall j :: 0 <= j < |kept| ==> EntryFor(resources.resources, kept[j], spine.spineReferences[j])
      invariant spine.pageProgressionDirection.None?
    {
      var tag := tags[i];
      FilterSnoc(tags[..i], tag, KeptIn(resources.resources));
      assert tags[..i + 1] == tags[..i] + [tag];
      if "idref" !in tag.attributes {
        continue;
      }
      var idref := tag.attributes["idref"];
      var linear := true;
      if "linear" in tag.attributes {
        linear := if tag.attributes["linear"] == "yes" then true else false;
      }
      var known := resources.ContainsById(Some(idref));
      if known {
        var resource := resources.FindById(Some(idref));
        if resource.None? {
          continue;
        }
        spine.spineReferences := spine.spineReferences + [BaseSpine(resource.value, linear)];
      }
    }
    assert tags[..|tags|] == tags;
  }

  /** The spine read from the package's `spine` element: the reading order of
      its items, and the element's `page-progression-direction` when it has
      one. */
  method ReadSpineElement(spineElement: Element, resources: Resources) returns (spine: Spine)
    ensures fresh(spine)
    ensures var attributes := spineElement.attributes;
            spine.pageProgressionDirection
              == if "page-progression-direction" in attributes then Some(attributes["page-progression-direction"]) else None
    ensures spine.IsRtl() <==> "page-progression-direction" in spineElement.attributes
                               && spineElement.attributes["page-progression-direction"] == "rtl"
    ensures var kept := Filter(spineElement.children, KeptIn(resources.resources));
            && |spine.spineReferences| == |kept|
            && forall i :: 0 <= i < |kept| ==> EntryFor(resources.resources, kept[i], spine.spineReferences[i])
  {
    spine := ReadSpine(spineElement.children, resources);
    if "page-progression-direction" in spineElement.attributes {
      spine.pageProgressionDirection := Some(spineElement.attributes["page-progression-direction"]);
    }
  }
}
