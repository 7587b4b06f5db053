/** The resource registry: a dictionary from href to resource. */
module ResourceRegistry {
  import opened Wrappers
  import opened Strings
  import opened Lookups
  import opened ResourceModel

  /** Every entry is stored under its own href, which is what `add` maintains. */
  ghost predicate KeyedByHref(m: map<string, Resource>) {
    forall k :: k in m ==> m[k].href == Some(k)
  }

  /** Some stored resource has exactly this id. */
  predicate HasId(m: map<string, Resource>, id: string) {
    exists k :: k in m && m[k].id == Some(id)
  }

  /** `findByHref` on the dictionary: the empty href finds nothing; otherwise
      every `../` is removed and the result is looked up as a key. */
  function LookupHref(m: map<string, Resource>, href: string): (r: Option<Resource>)
    ensures href == "" ==> r.None?
    ensures href != "" ==> (r.Some? <==> StripParentRefs(href) in m)
    ensures r.Some? ==> r.value in m.Values
    ensures KeyedByHref(m) && r.Some? ==> r.value.href == Some(StripParentRefs(href))
  {
    if href == "" then None
    else
      var clean := StripParentRefs(href);
      if clean in m then Some(m[clean]) else None
  }

  /** After storing `r`, looking up its own href finds it, provided the href
      is not empty and holds no `../` (which the lookup would strip). */
  lemma AddThenFindByHref(m: map<string, Resource>, r: Resource)
    requires r.href.Some? && r.href.value != ""
    requires !Contains(r.href.value, "../")
    ensures LookupHref(m[r.href.value := r], r.href.value) == Some(r)
  {
    StripWithoutParentRefs(r.href.value);
  }

  /** A leading `../` makes no difference to a lookup. */
  lemma FindByHrefIgnoresParentPrefix(m: map<string, Resource>, href: string)
    requires href != ""
    ensures LookupHref(m, "../" + href) == LookupHref(m, href)
  {
    assert "../" <= "../" + href;
    assert ("../" + href)[3..] == href;
  }

  /** `containsByHref` does not strip `../`, so a registry holding `a` but
      not `../a` finds `../a` with `findByHref` and does not contain it. */
  lemma ContainsByHrefDoesNotStrip(registry: Resources, href: string)
    requires href != "" && StripParentRefs(href) in registry.resources && "../" + href !in registry.resources
    ensures !registry.ContainsByHref("../" + href)
    ensures registry.FindByHref("../" + href).Some?
  {
    FindByHrefIgnoresParentPrefix(registry.resources, href);
  }

  class Resources {
    var resources: map<string, Resource>

    ghost predicate Valid()
      reads this
    {
      KeyedByHref(resources)
    }

    constructor()
      ensures Valid() && resources == map[]
    {
      resources := map[];
    }

    /** `add`: store under the resource's href, replacing what was there; the
        href must be present (the Swift code force-unwraps it). */
    method Add(r: Resource)
      requires r.href.Some?
      modifies this
      ensures resources == old(resources)[r.href.value := r]
      ensures old(Valid()) ==> Valid()
    {
      resources := resources[r.href.value := r];
    }

    method FindByMediaType(mediaType: MediaType) returns (r: Option<Resource>)
      ensures r.Some? ==> r.value in resources.Values && r.value.mediaType == Some(mediaType)
      ensures r.None? ==> forall k :: k in resources ==> resources[k].mediaType != Some(mediaType)
    {
      r := ScanValues(resources, (x: Resource) => x.mediaType == Some(mediaType));
    }

    method FindByExtension(ext: string) returns (r: Option<Resource>)
      ensures r.Some? ==> r.value in resources.Values && r.value.mediaType.Some?
                          && r.value.mediaType.value.defaultExtension == ext
      ensures r.None? ==> forall k :: k in resources ==>
                            resources[k].mediaType.None? || resources[k].mediaType.value.defaultExtension != ext
    {
      r := ScanValues(resources, (x: Resource) => x.mediaType.Some? && x.mediaType.value.defaultExtension == ext);
    }

    /** The whole `properties` string must equal the argument; it is not
        searched for a token. */
    method FindByProperty(properties: string) returns (r: Option<Resource>)
      ensures r.Some? ==> r.value in resources.Values && r.value.properties == Some(properties)
      ensures r.None? ==> forall k :: k in resources ==> resources[k].properties != Some(properties)
    {
      r := ScanValues(resources, (x: Resource) => x.properties == Some(properties));
    }

    function FindByHref(href: string): (r: Option<Resource>)
      reads this
      ensures r.None? <==> href == "" || StripParentRefs(href) !in resources
      ensures Valid() && r.Some? ==> r.value in resources.Values && r.value.href == Some(StripParentRefs(href))
    {
      LookupHref(resources, href)
    }

    method FindById(id: Option<string>) returns (r: Option<Resource>)
      ensures id.None? ==> r.None?
      ensures id.Some? ==> (r.Some? <==> HasId(resources, id.value))
      ensures r.Some? ==> r.value in resources.Values && r.value.id == id
    {
      if id.None? {
        return None;
      }
      r := ScanValues(resources, (x: Resource) => x.id == id);
    }

    /** Exact key membership: unlike `FindByHref`, nothing is stripped. */
    function ContainsByHref(href: string): (b: bool)
      reads this
      ensures b <==> href != "" && href in resources
      ensures StripParentRefs(href) == href ==> (b <==> FindByHref(href).Some?)
    {
      href != "" && href in resources
    }

    method ContainsById(id: Option<string>) returns (b: bool)
      ensures b <==> id.Some? && HasId(resources, id.value)
    {
      if id.None? {
        return false;
      }
      var found := ScanValues(resources, (x: Resource) => x.id == id);
      b := found.Some?;
    }
  }
}
