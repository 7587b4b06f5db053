/** `readSmilFile` and `readSmilFileElements`: a media-overlay document's
    `body` copied into a tree of SMIL elements, which is stored in the
    book's SMIL registry. */
module SmilReader {
  import opened Wrappers
  import opened Xml
  import opened ResourceModel
  import opened SmilElements
  import opened SmilFiles

  /** The SMIL element mirroring an XML element: same name, same
      attributes, the children mirrored in order; the text value is not
      kept. */
  function ToSmil(e: Element): (s: SmilElement)
    ensures s.name == e.name && s.attributes == e.attributes && |s.children| == |e.children|
    decreases e
  {
    SmilElement(e.name, e.attributes,
                seq(|e.children|, i requires 0 <= i < |e.children| => ToSmil(e.children[i])))
  }

  /** The XML element a SMIL element mirrors, one without text values. */
  function ToXml(s: SmilElement): (e: Element)
    ensures e.name == s.name && e.attributes == s.attributes && e.value.None? && |e.children| == |s.children|
    decreases s
  {
    Element(s.name, s.attributes, None,
            seq(|s.children|, i requires 0 <= i < |s.children| => ToXml(s.children[i])))
  }

  /** No element of the tree carries a text value. */
  predicate ValueFree(e: Element)
    decreases e
  {
    e.value.None? && forall i :: 0 <= i < |e.children| ==> ValueFree(e.children[i])
  }

  /** Mirroring loses nothing of a SMIL tree. */
  lemma {:induction false} ToSmilOfToXml(s: SmilElement)
    ensures ToSmil(ToXml(s)) == s
    decreases s
  {
    forall i | 0 <= i < |s.children|
      ensures ToSmil(ToXml(s).children[i]) == s.children[i]
    {
      ToSmilOfToXml(s.children[i]);
    }
    assert ToSmil(ToXml(s)).children == s.children;
  }

  /** An XML tree without text values is recovered from its mirror. */
  lemma {:induction false} ToXmlOfToSmil(e: Element)
    requires ValueFree(e)
    ensures ToXml(ToSmil(e)) == e
    decreases e
  {
    forall i | 0 <= i < |e.children|
      ensures ToXml(ToSmil(e).children[i]) == e.children[i]
    {
      ToXmlOfToSmil(e.children[i]);
    }
    assert ToXml(ToSmil(e)).children == e.children;
  }

  /** `readSmilFileElements(_:)`: each element becomes a SMIL element with
      its name and attributes, and its children are read the same way when
      it has any. `parent` is the element whose children are read; it only
      measures the recursion. */
  method ReadSmilFileElements(ghost parent: Element, children: seq<Element>) returns (data: seq<SmilElement>)
    requires children == parent.children
    ensures |data| == |children|
    ensures forall i :: 0 <= i < |children| ==> data[i] == ToSmil(children[i])
    decreases parent
  {
    data := [];
    for i := 0 to |children|
      invariant |data| == i
      invariant forall j :: 0 <= j < i ==> data[j] == ToSmil(children[j])
    {
      var element := children[i];
      var smilChildren: seq<SmilElement> := [];
      if |element.children| > 0 {
        smilChildren := ReadSmilFileElements(element, element.children);
      }
      assert smilChildren == ToSmil(element).children;
      data := data + [SmilElement(element.name, element.attributes, smilChildren)];
    }
  }

  /** The overlay data of a parsed SMIL document: its `body`'s children,
      mirrored; none when there is no `body`. */
  function SmilDataOf(root: Element): (data: seq<SmilElement>)
    ensures Child(root, "body").None? ==> data == []
    ensures Child(root, "body").Some? ==>
              |data| == |Child(root, "body").value.children|
              && forall i :: 0 <= i < |data| ==> data[i] == ToSmil(Child(root, "body").value.children[i])
  {
    var body := Child(root, "body");
    if body.None? then []
    else seq(|body.value.children|, i requires 0 <= i < |body.value.children| => ToSmil(body.value.children[i]))
  }

  /** `readSmilFile(_:)`. `document` is the parsed file, or `None` when it
      could not be read or parsed, in which case the Swift code prints a
      message and stores nothing. */
  method ReadSmilFile(resource: Resource, document: Option<Element>, smils: Smils)
    requires document.Some? ==> resource.href.Some?
    modifies smils
    ensures document.None? ==> smils.smils == old(smils.smils)
    ensures document.Some? ==>
              smils.smils == old(smils.smils)[resource.href.value := SmilFile(resource, SmilDataOf(document.value))]
    ensures smils.basePath == old(smils.basePath)
    ensures old(smils.Valid()) ==> smils.Valid()
  {
    if document.None? {
      return;
    }
    var root := document.value;
    var smilFile := SmilFile(resource, []);
    var body := Child(root, "body");
    if body.Some? && |body.value.children| > 0 {
      var elements := ReadSmilFileElements(body.value, body.value.children);
      smilFile := smilFile.(data := smilFile.data + elements);
    }
    assert smilFile.data == SmilDataOf(root);
    smils.Add(smilFile);
  }
}
