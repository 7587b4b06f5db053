/** A package resource (a manifest item) and the two things the core asks of
    one: its base directory and its identity. */
module ResourceModel {
  import opened Wrappers
  import opened Strings

  /** A classified media type: its MIME name and its usual file extension.
      The MediaType enumeration itself is not part of this model; the three
      values the core refers to are given below. */
  datatype MediaType = MediaType(name: string, defaultExtension: string)

  const Ncx := MediaType("application/x-dtbncx+xml", "ncx")
  const Smil := MediaType("application/smil+xml", "smil")
  const Epub := MediaType("application/epub+zip", "epub")

  /** A manifest item. `id`, `href` and `mediaType` are implicitly unwrapped
      optionals in the Swift code, so each may be missing; `fullHref` is the
      resolved path, taken as given. */
  datatype Resource = Resource(
    id: Option<string>,
    properties: Option<string>,
    mediaType: Option<MediaType>,
    mediaOverlay: Option<string>,
    href: Option<string>,
    fullHref: string)

  /** The last `/`-separated component of a path. */
  function LastComponent(path: string): (last: string)
    ensures '/' !in last
  {
    var pieces := Components(path, '/');
    pieces[|pieces| - 1]
  }

  /** `basePath()`: nothing for a resource without an href; otherwise the
      full path with its last component removed. */
  function BasePath(r: Resource): (b: Option<string>)
    ensures b.None? <==> r.href.None? || r.href.value == ""
  {
    if r.href.None? || r.href.value == "" then None
    else
      var pieces := Components(r.fullHref, '/');
      Some(Join(pieces[..|pieces| - 1], "/"))
  }

  /** A full path without a `/` has the empty base path. */
  lemma BasePathWithoutSlash(r: Resource)
    requires r.href.Some? && r.href.value != ""
    requires '/' !in r.fullHref
    ensures BasePath(r) == Some("")
  {
    ComponentsWithoutSeparator(r.fullHref, '/');
  }

  /** With a `/` in the full path, the base path and the last component put
      back together with `/` give the full path: the base path is everything
      before the last `/`. */
  lemma BasePathRoundTrip(r: Resource)
    requires r.href.Some? && r.href.value != ""
    requires '/' in r.fullHref
    ensures BasePath(r).Some?
    ensures BasePath(r).value + "/" + LastComponent(r.fullHref) == r.fullHref
  {
    var pieces := Components(r.fullHref, '/');
    ComponentsWithSeparator(r.fullHref, '/');
    JoinComponents(r.fullHref, '/');
    var init := pieces[..|pieces| - 1];
    assert init + [pieces[|pieces| - 1]] == pieces;
    JoinSnoc(init, "/", pieces[|pieces| - 1]);
  }

  /** Swift's `==` on resources: same id and same href. */
  predicate SameResource(a: Resource, b: Resource): (r: bool)
    ensures a == b ==> r
  {
    a.id == b.id && a.href == b.href
  }

  /** Identity ignores the media type, the properties, the overlay and the
      resolved path. */
  lemma SameResourceIgnoresOtherFields(a: Resource, properties: Option<string>,
                                       mediaType: Option<MediaType>, overlay: Option<string>, fullHref: string)
    ensures SameResource(a, a.(properties := properties, mediaType := mediaType,
                               mediaOverlay := overlay, fullHref := fullHref))
  {
  }

  /** Identity is an equivalence relation. */
  lemma SameResourceIsEquivalence(a: Resource, b: Resource, c: Resource)
    ensures SameResource(a, a)
    ensures SameResource(a, b) ==> SameResource(b, a)
    ensures SameResource(a, b) && SameResource(b, c) ==> SameResource(a, c)
  {
  }
}
