/** The bibliographic records of a package and their first-match lookups. */
module MetadataStore {
  import opened Wrappers
  import opened Lookups
  import ResourceModel

  datatype Author = Author(name: string, role: string, fileAs: string)

  datatype Identifier = Identifier(id: Option<string>, scheme: Option<string>, value: Option<string>)

  datatype EventDate = EventDate(date: string, event: Option<string>)

  /** One `meta` record; every field the initialiser is not given is `nil`. */
  datatype Meta = Meta(
    name: Option<string> := None,
    content: Option<string> := None,
    id: Option<string> := None,
    property: Option<string> := None,
    value: Option<string> := None,
    refinedId: Option<string> := None)  // `refines` in the Swift code

  /** The initialiser keeps each argument in its own field and leaves the
      omitted ones empty. */
  lemma MetaInitialiser(name: Option<string>, content: Option<string>, id: Option<string>,
                        property: Option<string>, value: Option<string>, refinedId: Option<string>)
    ensures var m := Meta(name, content, id, property, value, refinedId);
            m.name == name && m.content == content && m.id == id
            && m.property == property && m.value == value && m.refinedId == refinedId
    ensures Meta(name := name, content := content) == Meta(name, content, None, None, None, None)
    ensures Meta(property := property, value := value, refinedId := refinedId) == Meta(None, None, None, property, value, refinedId)
  {
  }

  /** The `refinedBy` filter of `find(byProperty:refinedBy:)`: without one
      only the property is compared, with one `refines` must match too. */
  predicate MatchesProperty(m: Meta, property: string, refinedBy: Option<string>) {
    match refinedBy
    case Some(r) => m.property == Some(property) && m.refinedId == Some(r)
    case None => m.property == Some(property)
  }

  /** The contents of a `Metadata` store as one value. */
  datatype Records = Records(
    creators: seq<Author>,
    contributors: seq<Author>,
    dates: seq<EventDate>,
    language: string,
    titles: seq<string>,
    identifiers: seq<Identifier>,
    subjects: seq<string>,
    descriptions: seq<string>,
    publishers: seq<string>,
    format: string,
    rights: seq<string>,
    metaAttributes: seq<Meta>)

  /** What a fresh store holds. */
  const NoRecords := Records([], [], [], "en-US", [], [], [], [], [], ResourceModel.Epub.name, [], [])

  class Metadata {
    var creators: seq<Author>
    var contributors: seq<Author>
    var dates: seq<EventDate>
    var language: string
    var titles: seq<string>
    var identifiers: seq<Identifier>
    var subjects: seq<string>
    var descriptions: seq<string>
    var publishers: seq<string>
    var format: string
    var rights: seq<string>
    var metaAttributes: seq<Meta>

    function Snapshot(): Records
      reads this
    {
      Records(creators, contributors, dates, language, titles, identifiers,
              subjects, descriptions, publishers, format, rights, metaAttributes)
    }

    /** A fresh store: language `en-US`, the EPUB format name and no records. */
    constructor()
      ensures language == "en-US" && format == ResourceModel.Epub.name
      ensures creators == [] && contributors == [] && dates == [] && titles == []
      ensures identifiers == [] && subjects == [] && descriptions == [] && publishers == []
      ensures rights == [] && metaAttributes == []
      ensures Snapshot() == NoRecords
    {
      creators, contributors, dates := [], [], [];
      language := "en-US";
      titles, identifiers, subjects, descriptions, publishers := [], [], [], [], [];
      format := ResourceModel.Epub.name;
      rights, metaAttributes := [], [];
    }

    /** `find(identifierById:)`: the first identifier, in list order, with this id. */
    function FindIdentifierById(id: string): (r: Option<Identifier>)
      reads this
      ensures r.None? <==> forall i :: 0 <= i < |identifiers| ==> identifiers[i].id != Some(id)
      ensures r.Some? ==> exists i :: 0 <= i < |identifiers| && identifiers[i] == r.value
                                      && r.value.id == Some(id)
                                      && forall j :: 0 <= j < i ==> identifiers[j].id != Some(id)
    {
      First(identifiers, (x: Identifier) => x.id == Some(id))
    }

    /** `find(byName:)`: the first meta record, in list order, with this name. */
    function FindByName(name: string): (r: Option<Meta>)
      reads this
      ensures r.None? <==> forall i :: 0 <= i < |metaAttributes| ==> metaAttributes[i].name != Some(name)
      ensures r.Some? ==> exists i :: 0 <= i < |metaAttributes| && metaAttributes[i] == r.value
                                      && r.value.name == Some(name)
                                      && forall j :: 0 <= j < i ==> metaAttributes[j].name != Some(name)
    {
      First(metaAttributes, (x: Meta) => x.name == Some(name))
    }

    /** `find(byProperty:refinedBy:)`: the first meta record, in list order,
        with this property and, when `refinedBy` is given, refining it. */
    function FindByProperty(property: string, refinedBy: Option<string>): (r: Option<Meta>)
      reads this
      ensures r.None? <==> forall i :: 0 <= i < |metaAttributes| ==> !MatchesProperty(metaAttributes[i], property, refinedBy)
      ensures r.Some? ==> r.value.property == Some(property)
      ensures r.Some? && refinedBy.Some? ==> r.value.refinedId == refinedBy
      ensures r.Some? ==> exists i :: 0 <= i < |metaAttributes| && metaAttributes[i] == r.value
                                      && forall j :: 0 <= j < i ==> !MatchesProperty(metaAttributes[j], property, refinedBy)
    {
      First(metaAttributes, (x: Meta) => MatchesProperty(x, property, refinedBy))
    }
  }
}
