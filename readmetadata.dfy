/** `readMetadata`: the decoder's pass over the children of the package's
    `metadata` element, dispatching on each tag's name. */
module MetadataReader {
  import opened Wrappers
  import opened Xml
  import opened MetadataStore

  function Attr(tag: Element, a: string): Option<string> {
    if a in tag.attributes then Some(tag.attributes[a]) else None
  }

  /** `tag.value ?? ""` */
  function Text(tag: Element): string {
    tag.value.GetOr("")
  }

  function AuthorOf(tag: Element): Author {
    Author(Text(tag), Attr(tag, "opf:role").GetOr(""), Attr(tag, "opf:file-as").GetOr(""))
  }

  /** The records a `meta` tag contributes, in this order: name and content
      if it has a `name`; id, property and value if it has both `property`
      and `id`; property, value and `refines` if it has a `property`. */
  function MetaRecordsOf(tag: Element): seq<Meta> {
    (if Attr(tag, "name").Some? then [Meta(name := Attr(tag, "name"), content := Attr(tag, "content"))] else [])
    + (if Attr(tag, "property").Some? && Attr(tag, "id").Some?
       then [Meta(id := Attr(tag, "id"), property := Attr(tag, "property"), value := tag.value)] else [])
    + (if Attr(tag, "property").Some?
       then [Meta(property := Attr(tag, "property"), value := tag.value, refinedId := Attr(tag, "refines"))] else [])
  }

  /** The effect of one tag on the store. */
  function RecordTag(acc: Records, tag: Element): Records {
    if tag.name == "dc:title" then acc.(titles := acc.titles + [Text(tag)])
    else if tag.name == "dc:identifier" then
      acc.(identifiers := acc.identifiers + [Identifier(Attr(tag, "id"), Attr(tag, "opf:scheme"), tag.value)])
    else if tag.name == "dc:language" then
      var language := tag.value.GetOr(acc.language);
      acc.(language := if language != "en" then language else acc.language)
    else if tag.name == "dc:creator" || tag.name == "dc:contributor" then
      acc.(creators := acc.creators + [AuthorOf(tag)])
    else if tag.name == "dc:publisher" then acc.(publishers := acc.publishers + [Text(tag)])
    else if tag.name == "dc:description" then acc.(descriptions := acc.descriptions + [Text(tag)])
    else if tag.name == "dc:subject" then acc.(subjects := acc.subjects + [Text(tag)])
    else if tag.name == "dc:rights" then acc.(rights := acc.rights + [Text(tag)])
    else if tag.name == "dc:date" then
      acc.(dates := acc.dates + [EventDate(Text(tag), Some(Attr(tag, "opf:event").GetOr("")))])
    else if tag.name == "meta" then acc.(metaAttributes := acc.metaAttributes + MetaRecordsOf(tag))
    else acc
  }

  /** The store after the tags, in document order, starting from a fresh one. */
  function MetadataOf(tags: seq<Element>): Records
    decreases |tags|
  {
    if tags == [] then NoRecords else RecordTag(MetadataOf(tags[..|tags| - 1]), tags[|tags| - 1])
  }

  method ReadMetadata(tags: seq<Element>) returns (metadata: Metadata)
    ensures fresh(metadata)
    ensures metadata.Snapshot() == MetadataOf(tags)
  {
    metadata := new Metadata();
    for i := 0 to |tags|
      invariant metadata.Snapshot() == MetadataOf(tags[..i])
    {
      assert tags[..i + 1][..i] == tags[..i];
      RecordInto(metadata, tags[i]);
    }
    assert tags[..|tags|] == tags;
  }

  /** The body of the loop: one tag's effect on the store. */
  method RecordInto(metadata: Metadata, tag: Element)
    modifies metadata
    ensures metadata.Snapshot() == RecordTag(old(metadata.Snapshot()), tag)
  {
    if tag.name == "dc:title" {
      metadata.titles := metadata.titles + [Text(tag)];
    }
    if tag.name == "dc:identifier" {
      metadata.identifiers := metadata.identifiers + [Identifier(Attr(tag, "id"), Attr(tag, "opf:scheme"), tag.value)];
    }
    if tag.name == "dc:language" {
      var language := tag.value.GetOr(metadata.language);
      metadata.language := if language != "en" then language else metadata.language;
    }
    if tag.name == "dc:creator" {
      metadata.creators := metadata.creators + [AuthorOf(tag)];
    }
    if tag.name == "dc:contributor" {
      metadata.creators := metadata.creators + [AuthorOf(tag)];
    }
    if tag.name == "dc:publisher" {
      metadata.publishers := metadata.publishers + [Text(tag)];
    }
    if tag.name == "dc:description" {
      metadata.descriptions := metadata.descriptions + [Text(tag)];
    }
    if tag.name == "dc:subject" {
      metadata.subjects := metadata.subjects + [Text(tag)];
    }
    if tag.name == "dc:rights" {
      metadata.rights := metadata.rights + [Text(tag)];
    }
    if tag.name == "dc:date" {
      metadata.dates := metadata.dates + [EventDate(Text(tag), Some(Attr(tag, "opf:event").GetOr("")))];
    }
    if tag.name == "meta" {
      if Attr(tag, "name").Some? {
        metadata.metaAttributes := metadata.metaAttributes + [Meta(name := Attr(tag, "name"), content := Attr(tag, "content"))];
      }
      if Attr(tag, "property").Some? && Attr(tag, "id").Some? {
        metadata.metaAttributes := metadata.metaAttributes + [Meta(id := Attr(tag, "id"), property := Attr(tag, "property"), value := tag.value)];
      }
      if Attr(tag, "property").Some? {
        metadata.metaAttributes := metadata.metaAttributes + [Meta(property := Attr(tag, "property"), value := tag.value, refinedId := Attr(tag, "refines"))];
      }
    }
  }

  /** The values (or `""`) of the tags with the name, in document order. */
  function TextsNamed(tags: seq<Element>, name: string): seq<string>
    decreases |tags|
  {
    if tags == [] then []
    else
      var last := tags[|tags| - 1];
      TextsNamed(tags[..|tags| - 1], name) + (if last.name == name then [Text(last)] else [])
  }

  /** The authors of the `dc:creator` and `dc:contributor` tags, in document
      order. */
  function AuthorsOf(tags: seq<Element>): seq<Author>
    decreases |tags|
  {
    if tags == [] then []
    else
      var last := tags[|tags| - 1];
      AuthorsOf(tags[..|tags| - 1]) + (if last.name == "dc:creator" || last.name == "dc:contributor" then [AuthorOf(last)] else [])
  }

  /** The text lists collect the values of their own tag, in order;
      creators and contributors both land in `creators`, and `contributors`
      stays empty. */
  lemma {:induction false} TextListsInDocumentOrder(tags: seq<Element>)
    ensures MetadataOf(tags).titles == TextsNamed(tags, "dc:title")
    ensures MetadataOf(tags).publishers == TextsNamed(tags, "dc:publisher")
    ensures MetadataOf(tags).descriptions == TextsNamed(tags, "dc:description")
    ensures MetadataOf(tags).subjects == TextsNamed(tags, "dc:subject")
    ensures MetadataOf(tags).rights == TextsNamed(tags, "dc:rights")
    ensures MetadataOf(tags).creators == AuthorsOf(tags)
    ensures MetadataOf(tags).contributors == []
    ensures MetadataOf(tags).format == ResourceModel.Epub.name
    decreases |tags|
  {
    if tags != [] {
      TextListsInDocumentOrder(tags[..|tags| - 1]);
    }
  }

  /** The last `dc:language` value other than `en`, or `en-US` when there
      is none. */
  function LanguageOf(tags: seq<Element>): string
    decreases |tags|
  {
    if tags == [] then "en-US"
    else
      var last := tags[|tags| - 1];
      if last.name == "dc:language" && last.value.Some? && last.value.value != "en" then last.value.value
      else LanguageOf(tags[..|tags| - 1])
  }

  /** The language is the last one declared, except that `en` never
      replaces the current one (nor does a `dc:language` without a value);
      so it is never `en`. */
  lemma {:induction false} LanguageIsLastNonEn(tags: seq<Element>)
    ensures MetadataOf(tags).language == LanguageOf(tags)
    ensures MetadataOf(tags).language != "en"
    decreases |tags|
  {
    if tags != [] {
      LanguageIsLastNonEn(tags[..|tags| - 1]);
    }
  }

  /** A `meta` tag yields at most three records; with `property` and `id`
      but no `name` it yields exactly two, the first keeping the id and the
      second the `refines` target. */
  lemma MetaRecordCount(tag: Element)
    ensures |MetaRecordsOf(tag)| <= 3
    ensures |MetaRecordsOf(tag)| == 0 <==> "name" !in tag.attributes && "property" !in tag.attributes
    ensures "name" !in tag.attributes && "property" in tag.attributes && "id" in tag.attributes ==>
              && MetaRecordsOf(tag) == [Meta(id := Attr(tag, "id"), property := Attr(tag, "property"), value := tag.value),
                                        Meta(property := Attr(tag, "property"), value := tag.value, refinedId := Attr(tag, "refines"))]
  {
  }

  /** Every recorded date has an event, `""` when the tag gives none. */
  lemma {:induction false} DatesHaveEvents(tags: seq<Element>)
    ensures forall i :: 0 <= i < |MetadataOf(tags).dates| ==> MetadataOf(tags).dates[i].event.Some?
    decreases |tags|
  {
    if tags != [] {
      DatesHaveEvents(tags[..|tags| - 1]);
    }
  }

  /** A tag the decoder does not know changes nothing. */
  lemma UnknownTagIgnored(acc: Records, tag: Element)
    requires tag.name !in {"dc:title", "dc:identifier", "dc:language", "dc:creator", "dc:contributor",
                           "dc:publisher", "dc:description", "dc:subject", "dc:rights", "dc:date", "meta"}
    ensures RecordTag(acc, tag) == acc
  {
  }
}
