/** The book aggregate: the registries a decoded package fills in, the
    accessors derived from them, the media-overlay lookups, the parser
    callbacks that collect a chapter's text, and `plainText`. */
module Book {
  import opened Wrappers
  import opened Strings
  import opened ResourceModel
  import opened ResourceRegistry
  import opened MetadataStore
  import opened ReadingOrder
  import opened SmilFiles
  import opened TableOfContents
  import opened TextAccumulation

  /** `i` is the first record, in list order, that `find(byProperty:refinedBy:)`
      would match. */
  ghost predicate IsFirstMatch(metas: seq<Meta>, i: int, property: string, refinedBy: Option<string>) {
    0 <= i < |metas| && MatchesProperty(metas[i], property, refinedBy)
    && forall j :: 0 <= j < i ==> !MatchesProperty(metas[j], property, refinedBy)
  }

  ghost predicate NoMatch(metas: seq<Meta>, property: string, refinedBy: Option<string>) {
    forall i :: 0 <= i < |metas| ==> !MatchesProperty(metas[i], property, refinedBy)
  }

  /** One parse of a chapter file: the callbacks the parser made and what
      `parse()` returned. */
  datatype ParseRun = ParseRun(events: seq<ParserEvent>, succeeded: bool)

  /** What `plainText` throws: a table-of-contents entry without a resource,
      a file the parser could not open or parse, or the error a callback
      reported. */
  datatype PlainTextFailure =
    | ResourceNotFound(title: string)
    | UnableToParse(path: string)
    | ParserFailure(message: string)

  /** Where reading the chapters stopped, and the text state at that point. */
  datatype Outcome = Done(state: TextState) | Failed(state: TextState, failure: PlainTextFailure)

  /** The chapters of `refs` read in order from `st`: `documents` gives, for
      a full href, the parse of that file, or `None` when no parser could be
      made for it. The first entry without a resource, the first file that
      cannot be opened or parsed, and the first error reported by a callback
      stop the reading. */
  function ReadAll(st: TextState, refs: seq<TocReference>, documents: string -> Option<ParseRun>): Outcome
    decreases refs
  {
    if refs == [] then Done(st)
    else
      var reference := refs[0];
      if reference.resource.None? then Failed(st, ResourceNotFound(reference.title))
      else
        var path := reference.resource.value.fullHref;
        match documents(path)
        case None => Failed(st, UnableToParse(path))
        case Some(run) =>
          var next := Run(st, run.events);
          if !run.succeeded then Failed(next, UnableToParse(path))
          else if next.error.Some? then Failed(next, ParserFailure(next.error.value))
          else ReadAll(next, refs[1..], documents)
  }

  /** Reading `a + b` is reading `a`, then, if that finished, reading `b`. */
  lemma {:induction false} ReadAllConcat(st: TextState, a: seq<TocReference>, b: seq<TocReference>,
                                         documents: string -> Option<ParseRun>)
    ensures ReadAll(st, a + b, documents)
            == match ReadAll(st, a, documents)
               case Done(s) => ReadAll(s, b, documents)
               case Failed(s, f) => Failed(s, f)
    decreases a
  {
    if a == [] {
      assert a + b == b;
    } else {
      assert (a + b)[0] == a[0];
      assert (a + b)[1..] == a[1..] + b;
      var reference := a[0];
      if reference.resource.Some? {
        var path := reference.resource.value.fullHref;
        if documents(path).Some? {
          var next := Run(st, documents(path).value.events);
          ReadAllConcat(next, a[1..], b, documents);
        }
      }
    }
  }

  /** The first entry without a resource, after entries that were all read
      successfully, fails the extraction with `resourceNotFound` and its
      title. */
  lemma MissingResourceFails(st: TextState, pre: seq<TocReference>, missing: TocReference,
                             post: seq<TocReference>, documents: string -> Option<ParseRun>)
    requires ReadAll(st, pre, documents).Done?
    requires missing.resource.None?
    ensures ReadAll(st, pre + [missing] + post, documents)
            == Failed(ReadAll(st, pre, documents).state, ResourceNotFound(missing.title))
  {
    assert pre + [missing] + post == pre + ([missing] + post);
    ReadAllConcat(st, pre, [missing] + post, documents);
  }

  /** A successful extraction read every entry: each has a resource whose
      file was parsed successfully. */
  lemma {:induction false} DoneReadEverything(st: TextState, refs: seq<TocReference>,
                                              documents: string -> Option<ParseRun>)
    requires ReadAll(st, refs, documents).Done?
    ensures forall i :: 0 <= i < |refs| ==>
              refs[i].resource.Some? && documents(refs[i].resource.value.fullHref).Some?
              && documents(refs[i].resource.value.fullHref).value.succeeded
    decreases refs
  {
    if refs != [] {
      var path := refs[0].resource.value.fullHref;
      DoneReadEverything(Run(st, documents(path).value.events), refs[1..], documents);
      forall i | 1 <= i < |refs|
        ensures refs[i] == refs[1..][i - 1]
      {
      }
    }
  }

  /** An error left over from an earlier extraction is never cleared, so
      the first chapter read fails. */
  lemma StaleErrorFails(st: TextState, refs: seq<TocReference>, documents: string -> Option<ParseRun>)
    requires st.error.Some? && refs != []
    ensures ReadAll(st, refs, documents).Failed?
  {
    var reference := refs[0];
    if reference.resource.Some? {
      var path := reference.resource.value.fullHref;
      if documents(path).Some? {
        ErrorsPersist(st, documents(path).value.events);
      }
    }
  }

  /** Reading chapters keeps the collected texts clean. */
  lemma {:induction false} ReadAllKeepsTextsClean(st: TextState, refs: seq<TocReference>,
                                                  documents: string -> Option<ParseRun>)
    requires CleanTexts(st)
    ensures CleanTexts(ReadAll(st, refs, documents).state)
    decreases refs
  {
    if refs != [] && refs[0].resource.Some? {
      var path := refs[0].resource.value.fullHref;
      if documents(path).Some? {
        var next := Run(st, documents(path).value.events);
        RunKeepsTextsClean(st, documents(path).value.events);
        ReadAllKeepsTextsClean(next, refs[1..], documents);
      }
    }
  }

  /** The text `plainText` returns from a fresh element list is empty or
      neither starts nor ends with whitespace. */
  lemma PlainTextHasNoOuterWhitespace(st: TextState, refs: seq<TocReference>,
                                      documents: string -> Option<ParseRun>)
    requires st.elements == []
    ensures ReadAll(st, refs, documents).Done? ==>
              var text := JoinedText(ReadAll(st, refs, documents).state.elements);
              text == [] || CleanText(text)
  {
    ReadAllKeepsTextsClean(st, refs, documents);
    PlainTextIsTrimmed(ReadAll(st, refs, documents).state);
  }

  /** The non-text fields of a book, as one value. */
  datatype Fields = Fields(
    opfResource: Option<Resource>,
    tocResource: Option<Resource>,
    uniqueIdentifier: Option<string>,
    coverImage: Option<Resource>,
    name: Option<string>,
    tableOfContents: seq<TocReference>,
    flatTableOfContents: seq<TocReference>)

  const ActiveClassDefault := "epub-media-overlay-active"
  const PlaybackActiveClassDefault := "epub-media-overlay-playing"

  class EPUB {
    const metadata: Metadata
    const spine: Spine
    const smils: Smils
    const resources: Resources

    var opfResource: Option<Resource>
    var tocResource: Option<Resource>
    var uniqueIdentifier: Option<string>
    var coverImage: Option<Resource>
    var name: Option<string>
    var tableOfContents: seq<TocReference>
    var flatTableOfContents: seq<TocReference>

    var elements: seq<TextElement>
    var didStartNewElement: bool
    var error: Option<string>

    /** Both registries keep every entry under its own href. */
    ghost predicate Valid()
      reads this, resources, smils
    {
      resources.Valid() && smils.Valid()
    }

    function State(): TextState
      reads this
    {
      TextState(elements, didStartNewElement, error)
    }

    function Others(): Fields
      reads this
    {
      Fields(opfResource, tocResource, uniqueIdentifier, coverImage, name, tableOfContents, flatTableOfContents)
    }

    /** A book before decoding: empty registries and records, nothing
        chosen, no table of contents and a text state ready to start. */
    constructor()
      ensures fresh(metadata) && fresh(spine) && fresh(smils) && fresh(resources)
      ensures metadata.Snapshot() == NoRecords
      ensures spine.pageProgressionDirection.None? && spine.spineReferences == []
      ensures smils.basePath.None? && smils.smils == map[] && resources.resources == map[]
      ensures Others() == Fields(None, None, None, None, None, [], [])
      ensures State() == InitialState
      ensures Valid()
    {
      metadata := new Metadata();
      spine := new Spine();
      smils := new Smils();
      resources := new Resources();
      opfResource, tocResource, uniqueIdentifier, coverImage, name := None, None, None, None, None;
      tableOfContents, flatTableOfContents := [], [];
      elements, didStartNewElement, error := [], true, None;
    }

    /** `hasAudio`: some SMIL file is stored. */
    predicate HasAudio()
      reads this, smils
      ensures HasAudio() <==> exists href :: href in smils.smils
    {
      if |smils.smils| > 0 then
        var href :| href in smils.smils;
        true
      else
        assert smils.smils == map[];
        false
    }

    /** `title`: the first title, none when there is no title. */
    function Title(): (r: Option<string>)
      reads this, metadata
      ensures r.None? <==> metadata.titles == []
      ensures r.Some? ==> metadata.titles == [r.value] + metadata.titles[1..]
    {
      if metadata.titles == [] then None else Some(metadata.titles[0])
    }

    /** `authorName`: the name of the first creator, none when there is no
        creator. */
    function AuthorName(): (r: Option<string>)
      reads this, metadata
      ensures r.None? <==> metadata.creators == []
      ensures r.Some? ==> exists a :: metadata.creators == [a] + metadata.creators[1..] && a.name == r.value
    {
      if metadata.creators == [] then None
      else
        var a := metadata.creators[0];
        assert metadata.creators == [a] + metadata.creators[1..];
        Some(a.name)
    }

    /** The value of the first record `find(byProperty:refinedBy:)` matches;
        none when nothing matches or when that record has no value. */
    function PropertyValue(property: string, refinedBy: Option<string>): (r: Option<string>)
      reads this, metadata
      ensures NoMatch(metadata.metaAttributes, property, refinedBy) ==> r.None?
      ensures forall i :: IsFirstMatch(metadata.metaAttributes, i, property, refinedBy) ==>
                            r == metadata.metaAttributes[i].value
    {
      var found := metadata.FindByProperty(property, refinedBy);
      if found.None? then None else found.value.value
    }

    /** `duration`: the value of the first `media:duration` record, whatever
        it refines. */
    function Duration(): (r: Option<string>)
      reads this, metadata
      ensures NoMatch(metadata.metaAttributes, "media:duration", None) ==> r.None?
      ensures forall i :: IsFirstMatch(metadata.metaAttributes, i, "media:duration", None) ==>
                            r == metadata.metaAttributes[i].value
    {
      PropertyValue("media:duration", None)
    }

    /** `duration(for:)`: the value of the first `media:duration` record
        refining `id`. */
    function DurationFor(id: string): (r: Option<string>)
      reads this, metadata
      ensures NoMatch(metadata.metaAttributes, "media:duration", Some(id)) ==> r.None?
      ensures forall i :: IsFirstMatch(metadata.metaAttributes, i, "media:duration", Some(id)) ==>
                            r == metadata.metaAttributes[i].value
    {
      PropertyValue("media:duration", Some(id))
    }

    /** `activeClass`: the value of the first `media:active-class` record,
        or `epub-media-overlay-active` when there is none or it has no
        value. */
    function ActiveClass(): (r: string)
      reads this, metadata
      ensures NoMatch(metadata.metaAttributes, "media:active-class", None) ==> r == ActiveClassDefault
      ensures forall i :: IsFirstMatch(metadata.metaAttributes, i, "media:active-class", None) ==>
                            r == metadata.metaAttributes[i].value.GetOr(ActiveClassDefault)
    {
      PropertyValue("media:active-class", None).GetOr(ActiveClassDefault)
    }

    /** `playbackActiveClass`: the value of the first
        `media:playback-active-class` record, or `epub-media-overlay-playing`. */
    function PlaybackActiveClass(): (r: string)
      reads this, metadata
      ensures NoMatch(metadata.metaAttributes, "media:playback-active-class", None) ==> r == PlaybackActiveClassDefault
      ensures forall i :: IsFirstMatch(metadata.metaAttributes, i, "media:playback-active-class", None) ==>
                            r == metadata.metaAttributes[i].value.GetOr(PlaybackActiveClassDefault)
    {
      PropertyValue("media:playback-active-class", None).GetOr(PlaybackActiveClassDefault)
    }

    /** `f` is the SMIL file stored under the href of a registered resource
        whose id is the overlay id of `resource`. */
    ghost predicate OverlayOf(resource: Resource, f: SmilFile)
      reads this, resources, smils
    {
      resource.mediaOverlay.Some?
      && exists k :: k in resources.resources && resources.resources[k].id == resource.mediaOverlay
                     && k in smils.smils && smils.smils[k] == f
    }

    /** Every registered resource with this id has a SMIL file. */
    ghost predicate OverlayStored(id: string)
      reads this, resources, smils
    {
      forall k :: k in resources.resources && resources.resources[k].id == Some(id) ==> k in smils.smils
    }

    /** `resource` names an overlay id that some registered resource has,
        and every registered resource with that id has a SMIL file. */
    ghost predicate OverlayReachable(resource: Resource)
      reads this, resources, smils
    {
      resource.mediaOverlay.Some?
      && HasId(resources.resources, resource.mediaOverlay.value)
      && OverlayStored(resource.mediaOverlay.value)
    }

    /** `smilFileForResource`: nothing for a missing resource, for one
        without a media overlay and for an overlay id no resource has;
        otherwise the SMIL file stored under the overlay resource's href. */
    method SmilFileForResource(resource: Option<Resource>) returns (r: Option<SmilFile>)
      requires Valid()
      ensures resource.None? || resource.value.mediaOverlay.None? ==> r.None?
      ensures (resource.Some? && resource.value.mediaOverlay.Some?
               && !HasId(resources.resources, resource.value.mediaOverlay.value)) ==> r.None?
      ensures r.Some? ==> resource.Some? && OverlayOf(resource.value, r.value)
      ensures (resource.Some? && resource.value.mediaOverlay.Some?
               && HasId(resources.resources, resource.value.mediaOverlay.value)
               && OverlayStored(resource.value.mediaOverlay.value)) ==> r.Some?
    {
      if resource.None? || resource.value.mediaOverlay.None? {
        return None;
      }
      var smilResource := resources.FindById(resource.value.mediaOverlay);
      if smilResource.None? {
        return None;
      }
      var k :| k in resources.resources && resources.resources[k] == smilResource.value;
      assert smilResource.value.href == Some(k);
      r := smils.FindByHref(smilResource.value.href.value);
    }

    /** `smilFile(forHref:)`: the overlay of the resource `findByHref` finds. */
    method SmilFileForHref(href: string) returns (r: Option<SmilFile>)
      requires Valid()
      ensures resources.FindByHref(href).None? ==> r.None?
      ensures r.Some? ==> resources.FindByHref(href).Some? && OverlayOf(resources.FindByHref(href).value, r.value)
      ensures resources.FindByHref(href).Some? && OverlayReachable(resources.FindByHref(href).value) ==> r.Some?
    {
      r := SmilFileForResource(resources.FindByHref(href));
    }

    /** `smilFile(forId:)`: the overlay of a resource with this id. */
    method SmilFileForId(id: string) returns (r: Option<SmilFile>)
      requires Valid()
      ensures !HasId(resources.resources, id) ==> r.None?
      ensures r.Some? ==> exists k :: k in resources.resources && resources.resources[k].id == Some(id)
                                      && OverlayOf(resources.resources[k], r.value)
      ensures HasId(resources.resources, id)
              && (forall k :: k in resources.resources && resources.resources[k].id == Some(id) ==>
                                OverlayReachable(resources.resources[k]))
              ==> r.Some?
    {
      var found := resources.FindById(Some(id));
      if found.Some? {
        var k :| k in resources.resources && resources.resources[k] == found.value;
      }
      r := SmilFileForResource(found);
      if r.Some? {
        var k :| k in resources.resources && resources.resources[k] == found.value;
        assert OverlayOf(resources.resources[k], r.value);
      }
    }

    /** `parser(_:didStartElement:...)`. */
    method DidStartElement(elementName: string, attributeDict: map<string, string>)
      modifies this
      ensures State() == Step(old(State()), StartElement(elementName, attributeDict))
      ensures Others() == old(Others())
    {
      didStartNewElement := true;
      var element := TextElement(elementName, attributeDict, None);
      elements := elements + [element];
    }

    /** `parser(_:didEndElement:...)`. */
    method DidEndElement(elementName: string)
      modifies this
      ensures State() == Step(old(State()), EndElement(elementName))
      ensures Others() == old(Others())
    {
      didStartNewElement := false;
    }

    /** `parser(_:foundCharacters:)`: the chunk is trimmed, then added. */
    method FoundCharacters(chunk: string)
      modifies this
      ensures State() == Step(old(State()), Characters(chunk))
      ensures Others() == old(Others())
    {
      var s := Trimmed(chunk);
      AddTrimmed(s);
    }

    /** The rest of `parser(_:foundCharacters:)`, on the trimmed chunk. */
    method AddTrimmed(s: string)
      modifies this
      ensures State() == AddText(old(State()), s)
      ensures Others() == old(Others())
    {
      if s == [] {
        return;
      }
      if elements != [] && elements[|elements| - 1].text.Some? {
        var n := |elements| - 1;
        var newText := elements[n].text.value;
        ghost var text := newText;
        if !didStartNewElement && !HasSuffix(newText, " ") {
          didStartNewElement := true;
          newText := newText + " ";
        } else {
          assert text + "" == text;
        }
        newText := newText + s;
        elements := elements[..n] + [elements[n].(text := Some(newText))];
      } else if elements != [] {
        var n := |elements| - 1;
        elements := elements[..n] + [elements[n].(text := Some(s))];
      }
    }

    /** `parser(_:parseErrorOccurred:)`. */
    method ParseErrorOccurred(parseError: string)
      modifies this
      ensures State() == Step(old(State()), Error(parseError))
      ensures Others() == old(Others())
    {
      error := Some(parseError);
    }

    /** `parser(_:validationErrorOccurred:)`. */
    method ValidationErrorOccurred(validationError: string)
      modifies this
      ensures State() == Step(old(State()), Error(validationError))
      ensures Others() == old(Others())
    {
      error := Some(validationError);
    }

    /** The parser delivering its callbacks to this book, in order. */
    method Parse(events: seq<ParserEvent>)
      modifies this
      ensures State() == Run(old(State()), events)
      ensures Others() == old(Others())
    {
      for i := 0 to |events|
        invariant Run(old(State()), events) == Run(State(), events[i..])
        invariant Others() == old(Others())
      {
        assert events[i..][0] == events[i] && events[i..][1..] == events[i + 1..];
        match events[i]
        case StartElement(elementName, attributeDict) => DidStartElement(elementName, attributeDict);
        case EndElement(elementName) => DidEndElement(elementName);
        case Characters(chunk) => FoundCharacters(chunk);
        case Error(message) => ParseErrorOccurred(message);
      }
    }

    /** `plainText()`: the element list is emptied, then the file of every
        flat table-of-contents entry is parsed in order into it; the
        extraction stops at the first failure. On success the result is the
        non-empty texts joined by single spaces. The start flag and the
        error are not reset. */
    method PlainText(documents: string -> Option<ParseRun>) returns (r: Result<string, PlainTextFailure>)
      modifies this
      ensures var outcome := ReadAll(old(State()).(elements := []), old(flatTableOfContents), documents);
              State() == outcome.state
              && r == if outcome.Done? then Ok(JoinedText(outcome.state.elements)) else Err(outcome.failure)
      ensures Others() == old(Others())
    {
      ghost var outcome := ReadAll(State().(elements := []), flatTableOfContents, documents);
      elements := [];
      var i := 0;
      while i < |flatTableOfContents|
        invariant 0 <= i <= |flatTableOfContents|
        invariant Others() == old(Others())
        invariant outcome == ReadAll(State(), flatTableOfContents[i..], documents)
      {
        var reference := flatTableOfContents[i];
        assert flatTableOfContents[i..][0] == reference;
        assert flatTableOfContents[i..][1..] == flatTableOfContents[i + 1..];
        if reference.resource.None? {
          return Err(ResourceNotFound(reference.title));
        }
        var path := reference.resource.value.fullHref;
        var parser := documents(path);
        if parser.None? {
          return Err(UnableToParse(path));
        }
        Parse(parser.value.events);
        if !parser.value.succeeded {
          return Err(UnableToParse(path));
        }
        if error.Some? {
          return Err(ParserFailure(error.value));
        }
        i := i + 1;
      }
      r := Ok(JoinedText(elements));
    }
  }
}
