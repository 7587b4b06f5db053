/** The choices `readOpf` makes once the manifest and the metadata are read:
    the book's unique identifier, its cover image and the resource holding
    its table of contents. */
module ResourceSelection {
  import opened Wrappers
  import opened ResourceModel
  import opened ResourceRegistry
  import opened MetadataStore

  /** Why a package cannot be decoded. The Swift code stops with a failed
      precondition when no table of contents resource is found. */
  datatype DecodeError = TocResourceMissing

  /** The identifier named by the package's `unique-identifier`: the value
      of the first identifier with that id, when there is one. The value
      itself may be missing. */
  function SelectUniqueIdentifier(identifier: Option<string>, metadata: Metadata): (r: Option<string>)
    reads metadata
    ensures identifier.None? ==> r.None?
    ensures r.Some? ==> exists i :: 0 <= i < |metadata.identifiers|
                                    && metadata.identifiers[i].id == identifier
                                    && metadata.identifiers[i].value == r
                                    && forall j :: 0 <= j < i ==> metadata.identifiers[j].id != identifier
    ensures identifier.Some? && (forall i :: 0 <= i < |metadata.identifiers| ==> metadata.identifiers[i].id != identifier) ==> r.None?
    ensures identifier.Some? ==>
              forall i :: 0 <= i < |metadata.identifiers| && metadata.identifiers[i].id == identifier
                          && (forall j :: 0 <= j < i ==> metadata.identifiers[j].id != identifier)
                          ==> r == metadata.identifiers[i].value
  {
    if identifier.None? then None
    else
      var found := metadata.FindIdentifierById(identifier.value);
      if found.Some? then found.value.value else None
  }

  /** The content of the first `meta name="cover"`. */
  function CoverId(metadata: Metadata): (r: Option<string>)
    reads metadata
    ensures r.Some? ==> exists i :: 0 <= i < |metadata.metaAttributes|
                                    && metadata.metaAttributes[i].name == Some("cover")
                                    && metadata.metaAttributes[i].content == r
                                    && forall j :: 0 <= j < i ==> metadata.metaAttributes[j].name != Some("cover")
    ensures forall i :: 0 <= i < |metadata.metaAttributes| && metadata.metaAttributes[i].name == Some("cover")
                        && (forall j :: 0 <= j < i ==> metadata.metaAttributes[j].name != Some("cover"))
                        ==> r == metadata.metaAttributes[i].content
    ensures (forall i :: 0 <= i < |metadata.metaAttributes| ==> metadata.metaAttributes[i].name != Some("cover")) ==> r.None?
  {
    var meta := metadata.FindByName("cover");
    if meta.Some? then meta.value.content else None
  }

  /** The cover: the resource whose id the `cover` meta names, if it is
      registered; otherwise a resource with `properties="cover-image"`. */
  method SelectCoverImage(metadata: Metadata, resources: Resources) returns (r: Option<Resource>)
    ensures r.Some? ==> r.value in resources.resources.Values
    ensures var id := CoverId(metadata);
            if id.Some? && HasId(resources.resources, id.value) then r.Some? && r.value.id == id
            else (r.Some? ==> r.value.properties == Some("cover-image"))
                 && (r.None? ==> forall k :: k in resources.resources ==> resources.resources[k].properties != Some("cover-image"))
  {
    var coverImageId := CoverId(metadata);
    if coverImageId.Some? {
      var coverResource := resources.FindById(coverImageId);
      if coverResource.Some? {
        return coverResource;
      }
    }
    r := resources.FindByProperty("cover-image");
  }

  predicate HasMediaType(m: map<string, Resource>, t: MediaType) {
    exists k :: k in m && m[k].mediaType == Some(t)
  }

  predicate HasExtension(m: map<string, Resource>, ext: string) {
    exists k :: k in m && m[k].mediaType.Some? && m[k].mediaType.value.defaultExtension == ext
  }

  predicate HasProperties(m: map<string, Resource>, p: string) {
    exists k :: k in m && m[k].properties == Some(p)
  }

  /** The table of contents: an NCX document by media type, else a resource
      whose media type has the NCX extension, else the resource with
      `properties="nav"`; no candidate at all is an error. */
  method SelectTocResource(resources: Resources) returns (r: Result<Resource, DecodeError>)
    ensures r.Ok? ==> r.value in resources.resources.Values
    ensures var m := resources.resources;
            if HasMediaType(m, Ncx) then r.Ok? && r.value.mediaType == Some(Ncx)
            else if HasExtension(m, Ncx.defaultExtension) then
              r.Ok? && r.value.mediaType.Some? && r.value.mediaType.value.defaultExtension == Ncx.defaultExtension
            else if HasProperties(m, "nav") then r.Ok? && r.value.properties == Some("nav")
            else r == Err(TocResourceMissing)
  {
    var byType := resources.FindByMediaType(Ncx);
    if byType.Some? {
      return Ok(byType.value);
    }
    var byExtension := resources.FindByExtension(Ncx.defaultExtension);
    if byExtension.Some? {
      return Ok(byExtension.value);
    }
    var byProperty := resources.FindByProperty("nav");
    if byProperty.Some? {
      return Ok(byProperty.value);
    }
    return Err(TocResourceMissing);
  }
}
