/** The reading order: spine items with their linear flag, the page
    progression direction, and the successor lookup. */
module ReadingOrder {
  import opened Wrappers
  import opened ResourceModel

  /** A spine item; `linear` defaults to true as in the initialiser. */
  datatype BaseSpine = BaseSpine(resource: Resource, linear: bool := true)

  lemma BaseSpineLinearByDefault(r: Resource)
    ensures BaseSpine(r).linear && BaseSpine(r).resource == r
  {
  }

  /** The index of the first item whose resource has href `href`, or the
      number of items when there is none. */
  function FirstWithHref(refs: seq<BaseSpine>, href: string): (i: nat)
    ensures i <= |refs|
    ensures i < |refs| ==> refs[i].resource.href == Some(href)
    ensures forall j :: 0 <= j < i ==> refs[j].resource.href != Some(href)
  {
    if refs == [] then 0
    else if refs[0].resource.href == Some(href) then 0
    else 1 + FirstWithHref(refs[1..], href)
  }

  class Spine {
    var pageProgressionDirection: Option<string>
    var spineReferences: seq<BaseSpine>

    constructor()
      ensures pageProgressionDirection == None && spineReferences == []
    {
      pageProgressionDirection := None;
      spineReferences := [];
    }

    /** `isRtl`: the package declared `page-progression-direction="rtl"`. */
    predicate IsRtl()
      reads this
      ensures IsRtl() <==> pageProgressionDirection == Some("rtl")
    {
      match pageProgressionDirection
      case Some(direction) => direction == "rtl"
      case None => false
    }

    /** `nextChapter`: the item after the first one whose href is `href`;
        nothing when no item has that href or when that item is the last. */
    method NextChapter(href: string) returns (r: Option<Resource>)
      ensures var i := FirstWithHref(spineReferences, href);
              r == if i + 1 < |spineReferences| then Some(spineReferences[i + 1].resource) else None
    {
      var found := false;
      for k := 0 to |spineReferences|
        invariant found <==> FirstWithHref(spineReferences, href) < k
        invariant found ==> FirstWithHref(spineReferences, href) == k - 1
      {
        var item := spineReferences[k];
        if found {
          return Some(item.resource);
        }
        if item.resource.href == Some(href) {
          found := true;
        }
      }
      return None;
    }
  }
}
