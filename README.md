# EPUBDecoder, modelled in Dafny

EPUBDecoder is a Swift library that opens an unzipped EPUB book and builds an
in-memory `EPUB` value from it:

- the **resource registry**: the manifest, keyed by href;
- the **metadata**: titles, creators, identifiers, language, dates and
  `meta` records;
- the **spine**: the reading order;
- the **table of contents**, read from an NCX document or an HTML `nav`
  document, plus its one-level flattening;
- the **media overlays**: SMIL documents whose `par`/`seq` cues tie text
  fragments to audio clips, with a clock-value parser for `clipBegin`/`clipEnd`.

The `EPUB` object also works as an XML parser delegate. Parsing every chapter
of the flattened table of contents with it gives the book's plain text.

This project models that core:

- Registries and objects whose fields the Swift code updates in place are
  classes (`Resources`, `Metadata`, `Spine`, `Smils`, `EPUB`).
- Values are datatypes (`Resource`, `Meta`, `TocReference`, `SmilElement`,
  `SmilFile`, the parsed XML `Element`).
- Most loops of the source are methods proved against a specification
  function. Two are not. The `for` loop of `findParElement`
  (Smils.swift:23-35) returns from inside its recursion, so it is the
  recursive function `SmilFiles.FindParElement`. The `for (format, pattern)
  in formats` loop of `clockTimeToSeconds` (SmilElement.swift:100) tries
  five patterns, so it is a disjunction in `ClockValues.FieldsOf` and
  `ClockValues.MatchFixedPoint`.

Module layout, one file per concern:

| file | module | models |
|---|---|---|
| `wrappers.dfy` | `Wrappers` | `Option` / `Result` |
| `strings.dfy` | `Strings` | `components`, `split`, `joined`, `replacingOccurrences`, `contains`, `hasSuffix`, `trimmingCharacters`, digit strings |
| `lookups.dfy` | `Lookups` | `filter`, `first(where:)`, dictionary scans |
| `xml.dfy` | `Xml` | AEXML's `e[name]`, `.all` |
| `resource.dfy` | `ResourceModel` | `Resource.swift`, `MediaType` |
| `resources.dfy` | `ResourceRegistry` | `Resources.swift` |
| `metadata.dfy` | `MetadataStore` | `Metadata.swift` |
| `spine.dfy` | `ReadingOrder` | `Spine.swift` |
| `tocreference.dfy` | `TableOfContents` | `TocReference.swift` |
| `clockvalues.dfy` | `ClockValues` | `clockTimeToSeconds` |
| `smilelement.dfy` | `SmilElements` | `SmilElement.swift` |
| `smils.dfy` | `SmilFiles` | `Smils.swift` |
| `readmetadata.dfy` | `MetadataReader` | `readMetadata` |
| `readspine.dfy` | `SpineReader` | `readSpine` and the spine's `page-progression-direction` in `readOpf` |
| `selection.dfy` | `ResourceSelection` | unique identifier, cover and TOC resource choice in `readOpf` |
| `readtoc.dfy` | `TocReader` | `findTableOfContents`, `findNavTag`, `readTOCReference` |
| `tocschemas.dfy` | `TocSchemas` | the NCX and navigation-document schemas of `readTOCReference` side by side |
| `flattoc.dfy` | `FlatToc` | `flatTOC`, `countTocChild` |
| `readsmil.dfy` | `SmilReader` | `readSmilFile`, `readSmilFileElements` |
| `textaccumulation.dfy` | `TextAccumulation` | the parser-delegate callbacks as a state machine |
| `book.dfy` | `Book` | `EPUB.swift` |

Behaviour of the Swift code that a reader of the EPUB standards might not
expect, and that the model keeps:

- **`dc:language`.** Every `dc:language` value other than `en` replaces the
  one before it, so the last non-`en` value wins and an `en` value never
  replaces anything (`MetadataReader.LanguageIsLastNonEn`).
- **`dc:contributor`.** The OPF 2.0.1 package format and the EPUB 3 package
  document both define contributors apart from creators. The code appends
  every `dc:contributor` to `creators`, so `contributors` stays empty
  (`MetadataReader.TextListsInDocumentOrder`).
- **`nav` search.** EPUB 3 allows the navigation document's `nav` element
  anywhere in `body`. The code's `findNavTag` looks only at the children of
  the children of the element it is given. It calls itself recursively but
  throws away the result, so a deeper `nav` is never found
  (`TocReader.NestedNavIsMissed`).
- **Missing TOC resource.** When no TOC resource is found, the code stops
  with a `precondition` failure. The model returns `Err(TocResourceMissing)`
  at that point, under the same condition.
- **Two TOC schemas, one reading.** An outline written as NCX `navPoint`s
  and the same outline written as a navigation document's `ol`/`li` lists
  read to the same entries (`TocSchemas.SameTableOfContents`).

## Model

| member | source | states |
|---|---|---|
| Strings.Components | Sources/EPUBDecoder/SmilElement.swift:24 | `components(separatedBy:)` always yields at least one piece, and no piece contains the separator |
| Strings.JoinComponents | Sources/EPUBDecoder/SmilElement.swift:24 | joining the components with the separator gives back the string it came from (round trip) |
| Strings.ComponentsWithoutSeparator | Sources/EPUBDecoder/SmilElement.swift:24 | a string without the separator is its own single component |
| Strings.ComponentsAtSeparator | Sources/EPUBDecoder/SmilElement.swift:24 | the components of `a + sep + b` are `a` followed by the components of `b` |
| Strings.ComponentsWithSeparator | Sources/EPUBDecoder/SmilElement.swift:24 | a string holding the separator has at least two components |
| Strings.NonEmpty | Sources/EPUBDecoder/EPUBDecoder.swift:222 | keeps exactly the non-empty pieces: every result is non-empty, and a value is in the result iff it is a non-empty piece |
| Strings.HasSuffix | Sources/EPUBDecoder/EPUB.swift:148 | `s.hasSuffix(t)` holds iff `s` is some string followed by `t` |
| Strings.Join | Sources/EPUBDecoder/EPUB.swift:87 | `joined(separator:)` of no parts is empty; otherwise it starts with the first part, followed by the separator when there are two or more |
| Strings.Split | Sources/EPUBDecoder/EPUBDecoder.swift:222 | `split { $0 == "#" }` yields only non-empty pieces free of the separator |
| Strings.LeadingSeparatorDropped | Sources/EPUBDecoder/EPUBDecoder.swift:222 | `split` ignores a leading separator |
| Strings.SplitNonEmpty | Sources/EPUBDecoder/EPUBDecoder.swift:222-224 | `split` leaves at least one piece iff some character is not the separator, which is when `hrefSplit[0]` exists |
| Strings.SplitWithoutSeparator | Sources/EPUBDecoder/EPUBDecoder.swift:222 | splitting a string without the separator gives that string, or nothing when it is empty |
| Strings.SplitAtSeparator | Sources/EPUBDecoder/EPUBDecoder.swift:222 | splitting `a + sep + b` gives `a` (unless empty) followed by the pieces of `b` |
| Strings.Contains | Sources/EPUBDecoder/Smils.swift:26 | `s.contains(sub)` holds iff `sub` is non-empty and occurs in `s` at some index |
| Strings.EmptyIsNotContained | Sources/EPUBDecoder/Smils.swift:26 | `contains("")` is false for every string, as Foundation's search reports an empty needle as not found |
| Strings.StripParentRefs | Sources/EPUBDecoder/Resources.swift:41 | removing every `../` never makes a string longer |
| Strings.StripWithoutParentRefs | Sources/EPUBDecoder/Resources.swift:41 | a string without `../` is left unchanged |
| Strings.Trim | Sources/EPUBDecoder/EPUB.swift:144 | trimming keeps a contiguous slice, drops only characters of the set at either end, and leaves no such character at either end of the result |
| Strings.TrimUnchanged | Sources/EPUBDecoder/SmilElement.swift:88 | a string that neither starts nor ends with a character of the set is not changed by trimming |
| Lookups.Filter | Sources/EPUBDecoder/Metadata.swift:73 | the filtered list holds only elements satisfying the predicate, and every element that satisfies it |
| Lookups.First | Sources/EPUBDecoder/Metadata.swift:73 | `first(where:)` is none iff nothing matches; otherwise it is a match with no match before it |
| Lookups.FirstIsHeadOfFilter | Sources/EPUBDecoder/Metadata.swift:73 | the first match is the head of the filtered list (`filter(...).first`) |
| Lookups.FirstOfConcat | Sources/EPUBDecoder/Smils.swift:24-33 | the first match in `a + b` is the first in `a`, or else the first in `b` |
| Lookups.FirstAt | Sources/EPUBDecoder/Metadata.swift:80-87 | a match with no earlier match is the first match |
| Lookups.FilterNone | Sources/EPUBDecoder/SmilElement.swift:60-68 | filtering a list with no match gives the empty list |
| Lookups.FilterSnoc | Sources/EPUBDecoder/SmilElement.swift:60-68 | filtering preserves order: appending an element appends it to the filtered list iff it matches |
| Lookups.FilterPrefixDropped | Sources/EPUBDecoder/EPUBDecoder.swift:229 | non-matching elements before a run of matching ones leave exactly that run |
| Lookups.KeptValuesCons | Sources/EPUBDecoder/EPUBDecoder.swift:230-233 | a `guard let … else { continue }` loop keeps the value of each element it does not skip, in order |
| Lookups.ScanValues | Sources/EPUBDecoder/Resources.swift:11-18 | scanning a dictionary's values returns some value satisfying the predicate, or none when no value does; which one is left open, as dictionary order is unspecified |
| Xml.Child | Sources/EPUBDecoder/EPUBDecoder.swift:204 | `e[name]` is a child with that name, and it is missing iff no child has that name |
| Xml.ChildIsFirst | Sources/EPUBDecoder/EPUBDecoder.swift:204 | `e[name]` is the first child with that name |
| Xml.All | Sources/EPUBDecoder/EPUBDecoder.swift:229 | `.all` is a non-empty list of children carrying the name, or nothing |
| Xml.AllOrNothing | Sources/EPUBDecoder/EPUBDecoder.swift:229-234 | iterating over `.all` (nothing meaning no items) visits exactly the children with that name |
| Xml.ChildrenNamed | Sources/EPUBDecoder/EPUBDecoder.swift:229 | the named children are exactly the children carrying the name |
| ResourceModel.LastComponent | Sources/EPUBDecoder/Resource.swift:14-15 | the last path component holds no `/` |
| ResourceModel.BasePath | Sources/EPUBDecoder/Resource.swift:12-17 | `basePath` is nil iff the href is nil or empty |
| ResourceModel.BasePathWithoutSlash | Sources/EPUBDecoder/Resource.swift:14-16 | a full href without `/` has the empty base path |
| ResourceModel.BasePathRoundTrip | Sources/EPUBDecoder/Resource.swift:14-16 | base path + `/` + last component gives back the full href |
| ResourceModel.SameResource | Sources/EPUBDecoder/Resource.swift:20-22 | Swift's `==` on resources; equal values always compare equal |
| ResourceModel.SameResourceIgnoresOtherFields | Sources/EPUBDecoder/Resource.swift:20-22 | resource equality compares only `id` and `href`: changing any other field keeps the resource equal |
| ResourceModel.SameResourceIsEquivalence | Sources/EPUBDecoder/Resource.swift:20-22 | resource equality is reflexive, symmetric and transitive |
| ResourceRegistry.LookupHref | Sources/EPUBDecoder/Resources.swift:38-43 | finding by href gives nothing for `""`; otherwise it is present iff the href without `../` is a key, and then it is the resource registered under that href |
| ResourceRegistry.AddThenFindByHref | Sources/EPUBDecoder/Resources.swift:7-43 | a resource just added is found again by its href |
| ResourceRegistry.FindByHrefIgnoresParentPrefix | Sources/EPUBDecoder/Resources.swift:41 | `../href` and `href` find the same resource |
| ResourceRegistry.Resources.constructor | Sources/EPUBDecoder/Resources.swift:5 | a new registry is empty |
| ResourceRegistry.Resources.Add | Sources/EPUBDecoder/Resources.swift:7-9 | adding stores or overwrites the resource under its href and keeps the registry keyed by href |
| ResourceRegistry.Resources.FindByMediaType | Sources/EPUBDecoder/Resources.swift:11-18 | the result is a registered resource of that media type, and it is nil only when none exists |
| ResourceRegistry.Resources.FindByExtension | Sources/EPUBDecoder/Resources.swift:20-27 | the result is a registered resource whose media type has that default extension, and it is nil only when none exists |
| ResourceRegistry.Resources.FindByProperty | Sources/EPUBDecoder/Resources.swift:29-36 | the result is a registered resource with exactly those properties, and it is nil only when none exists |
| ResourceRegistry.Resources.FindByHref | Sources/EPUBDecoder/Resources.swift:38-43 | nil iff the href is empty or, without `../`, not a key; otherwise the resource stored under that href |
| ResourceRegistry.Resources.FindById | Sources/EPUBDecoder/Resources.swift:45-54 | nil for a nil id; otherwise found iff some registered resource has that id, and the result has it |
| ResourceRegistry.Resources.ContainsByHref | Sources/EPUBDecoder/Resources.swift:56-60 | true iff the href is non-empty and registered exactly as written; on an href without `../` it agrees with `findByHref` |
| ResourceRegistry.ContainsByHrefDoesNotStrip | Sources/EPUBDecoder/Resources.swift:38-60 | `containsByHref` strips nothing, so `../a` is not contained although `findByHref` finds it when `a` is registered |
| ResourceRegistry.Resources.ContainsById | Sources/EPUBDecoder/Resources.swift:62-71 | true iff the id is non-nil and some registered resource has it |
| MetadataStore.MetaInitialiser | Sources/EPUBDecoder/Metadata.swift:45-55 | the `Meta` initialiser stores each argument in its field, and omitted arguments default to nil |
| MetadataStore.Metadata.constructor | Sources/EPUBDecoder/Metadata.swift:58-70 | a new store has language `en-US`, format `application/epub+zip` and empty lists |
| MetadataStore.Metadata.FindIdentifierById | Sources/EPUBDecoder/Metadata.swift:72-74 | the first identifier with that id, or nil iff none has it |
| MetadataStore.Metadata.FindByName | Sources/EPUBDecoder/Metadata.swift:76-78 | the first `meta` record with that name, or nil iff none has it |
| MetadataStore.Metadata.FindByProperty | Sources/EPUBDecoder/Metadata.swift:80-87 | the first `meta` record with that property and, when given, that `refines` id; nil iff none matches |
| ReadingOrder.BaseSpineLinearByDefault | Sources/EPUBDecoder/Spine.swift:7-10 | a spine item is linear unless stated otherwise |
| ReadingOrder.FirstWithHref | Sources/EPUBDecoder/Spine.swift:24-37 | the index of the first spine item whose resource has the href, or the list length when there is none |
| ReadingOrder.Spine.constructor | Sources/EPUBDecoder/Spine.swift:13-16 | a new spine has no direction and no items |
| ReadingOrder.Spine.IsRtl | Sources/EPUBDecoder/Spine.swift:17-22 | right-to-left iff the page progression direction is `rtl` |
| ReadingOrder.Spine.NextChapter | Sources/EPUBDecoder/Spine.swift:24-37 | the resource after the first item with that href, or nil when that item is last or missing |
| TableOfContents.NewTocReference | Sources/EPUBDecoder/TocReference.swift:10-12 | a new entry carries the given title, resource and fragment and has no children |
| TableOfContents.NewTocReferenceDefaults | Sources/EPUBDecoder/TocReference.swift:10-12 | the fragment id defaults to the empty string |
| TableOfContents.SameEntry | Sources/EPUBDecoder/TocReference.swift:22-24 | Swift's `==` on entries; equal values always compare equal |
| TableOfContents.SameEntryIgnoresResourceAndChildren | Sources/EPUBDecoder/TocReference.swift:22-24 | entry equality compares only title and fragment id |
| TableOfContents.SameEntryIsEquivalence | Sources/EPUBDecoder/TocReference.swift:22-24 | entry equality is reflexive, symmetric and transitive |
| ClockValues.MatchFixedPoint | Sources/EPUBDecoder/SmilElement.swift:92-102 | a value the five `HH:mm:ss.SSS`-style patterns accept splits into well-formed fields |
| ClockValues.FieldsOf | Sources/EPUBDecoder/SmilElement.swift:92-98 | fields read from the colon- and dot-separated pieces are well formed |
| ClockValues.SecondsFieldSound | Sources/EPUBDecoder/SmilElement.swift:93-97 | the seconds field read from pieces renders back to the last piece |
| ClockValues.FieldsOfSound | Sources/EPUBDecoder/SmilElement.swift:93-97 | accepted fields have the shape one of the patterns allows and come from the right pieces |
| ClockValues.MatchFixedPointSound | Sources/EPUBDecoder/SmilElement.swift:92-102 | an accepted value is in one of the pattern forms and renders back to itself |
| ClockValues.RenderFields | Sources/EPUBDecoder/SmilElement.swift:93-97 | rendering fields is joining their pieces with `:` |
| ClockValues.FixedPointEndsInDigit | Sources/EPUBDecoder/SmilElement.swift:93-97 | every accepted value ends in a digit |
| ClockValues.RenderedFields | Sources/EPUBDecoder/SmilElement.swift:93-97 | the colon-separated pieces of a rendered value are its fields |
| ClockValues.RenderedSecondsField | Sources/EPUBDecoder/SmilElement.swift:93-97 | the dot-separated pieces of the seconds field are the seconds and the fraction |
| ClockValues.FieldsOfComplete | Sources/EPUBDecoder/SmilElement.swift:93-97 | every pattern-form value's pieces are accepted with its own fields |
| ClockValues.FixedPointRoundTrip | Sources/EPUBDecoder/SmilElement.swift:92-119 | every value in one of the five pattern forms is accepted with its own fields and reads as seconds + 60·minutes + 3600·hours |
| ClockValues.RenderedMatches | Sources/EPUBDecoder/SmilElement.swift:92-102 | rendering then matching gives back the fields |
| ClockValues.RenderedEdges | Sources/EPUBDecoder/SmilElement.swift:88 | a rendered value starts and ends with a digit, so trimming leaves it alone |
| ClockValues.DecimalTextValue | Sources/EPUBDecoder/SmilElement.swift:127-133 | a `\d+(\.\d+)?` text is a decimal with the value of its digits |
| ClockValues.UnitFormIsNotFixedPoint | Sources/EPUBDecoder/SmilElement.swift:92-123 | a value ending in anything but a digit (a unit letter or a line terminator) is not one of the pattern forms, so unit forms reach the later tests |
| ClockValues.MillisecondsForm | Sources/EPUBDecoder/SmilElement.swift:123-125 | `<n>ms` reads as n / 1000 seconds, also before one final line terminator |
| ClockValues.HoursForm | Sources/EPUBDecoder/SmilElement.swift:127-129 | `<d>h` reads as d · 3600 seconds, also before one final line terminator |
| ClockValues.MinutesForm | Sources/EPUBDecoder/SmilElement.swift:131-133 | `<d>min` reads as d · 60 seconds, also before one final line terminator |
| ClockValues.EmptyClockValue | Sources/EPUBDecoder/SmilElement.swift:88-90 | a blank value reads as 0 |
| ClockValues.BareNumbersReadAsZero | Sources/EPUBDecoder/SmilElement.swift:135 | `12` and `12s` match no form and read as 0 |
| ClockValues.BareNumberReadsAsZero | Sources/EPUBDecoder/SmilElement.swift:135 | each of `12` and `12s` reads as 0 |
| ClockValues.ClipTimeExamples | Sources/EPUBDecoder/SmilElement.swift:92-119 | `00:00:01.500` reads as 1.5 and `00:00:03.000` as 3.0 |
| ClockValues.ClipTimeExample | Sources/EPUBDecoder/SmilElement.swift:92-119 | each sample clip time reads as its number of seconds |
| ClockValues.ExampleFields | Sources/EPUBDecoder/SmilElement.swift:111-119 | the sample fields are in pattern form and sum to the sample seconds |
| ClockValues.ClockTimeToSeconds | Sources/EPUBDecoder/SmilElement.swift:86-136 | a clock value never reads as a negative number of seconds |
| ClockValues.UnitValue | Sources/EPUBDecoder/SmilElement.swift:123-135 | the `ms`, `h` and `min` forms, tested on the value without one final line terminator, and the fallback 0, are never negative |
| ClockValues.UnitsOf | Sources/EPUBDecoder/SmilElement.swift:123-135 | the three unit tests in order, never negative |
| ClockValues.WithoutFinalLineEnd | Sources/EPUBDecoder/SmilElement.swift:123-133 | what `$` sees: a prefix of the value, and what it drops is at most one line terminator (`\r\n` counting as one) |
| ClockValues.UnitFormReachesUnitTests | Sources/EPUBDecoder/SmilElement.swift:87-135 | a value starting with a digit and ending in a letter, plus at most one line terminator, passes the trimming and the patterns and is read by the unit tests as the value without the terminator |
| ClockValues.FinalLineEndStripped | Sources/EPUBDecoder/SmilElement.swift:123-133 | stripping the final line end of a letter-ended value plus a line end gives back the value |
| ClockValues.MillisecondsUnit | Sources/EPUBDecoder/SmilElement.swift:123-125 | the unit tests read `<n>ms` as n / 1000 |
| ClockValues.HoursUnit | Sources/EPUBDecoder/SmilElement.swift:127-129 | the unit tests read `<d>h` as d · 3600 |
| ClockValues.MinutesUnit | Sources/EPUBDecoder/SmilElement.swift:131-133 | the unit tests read `<d>min` as d · 60 |
| ClockValues.TwoLineEndsReadAsZero | Sources/EPUBDecoder/SmilElement.swift:87-135 | `12ms` followed by two newlines matches no pattern and reads as 0, since `$` lets only one terminator through |
| SmilElements.SmilElement.GetAttribute | Sources/EPUBDecoder/SmilElement.swift:31-37 | the attribute's value when present, the default otherwise |
| SmilElements.SmilElement.GetId | Sources/EPUBDecoder/SmilElement.swift:14-16 | present iff the element has an `id` attribute, with its value |
| SmilElements.SmilElement.GetSrc | Sources/EPUBDecoder/SmilElement.swift:18-20 | present iff the element has a `src` attribute, with its value |
| SmilElements.SmilElement.GetType | Sources/EPUBDecoder/SmilElement.swift:22-25 | at least one space-free token, and the tokens joined with spaces give the `epub:type` attribute (empty when absent) |
| SmilElements.SmilElement.IsType | Sources/EPUBDecoder/SmilElement.swift:27-29 | a type never contains a space, and with no `epub:type` the empty string is the only type |
| SmilElements.SmilElement.Child | Sources/EPUBDecoder/SmilElement.swift:51-58 | a child with that name, and it is missing iff no child has the name |
| SmilElements.SmilElement.TextElement | Sources/EPUBDecoder/SmilElement.swift:39-41 | a `text` child, missing iff the element has none |
| SmilElements.SmilElement.AudioElement | Sources/EPUBDecoder/SmilElement.swift:43-45 | an `audio` child, missing iff the element has none |
| SmilElements.SmilElement.VideoElement | Sources/EPUBDecoder/SmilElement.swift:47-49 | a `video` child, missing iff the element has none |
| SmilElements.SmilElement.ChildWithName | Sources/EPUBDecoder/SmilElement.swift:51-58 | the loop returns the first child with the name |
| SmilElements.SmilElement.ChildrenWithNames | Sources/EPUBDecoder/SmilElement.swift:60-68 | the children whose name is listed, in order: only those, and all of them |
| SmilElements.SmilElement.ChildrenWithName | Sources/EPUBDecoder/SmilElement.swift:70-72 | the children with that name, in order: only those, and all of them |
| SmilElements.SmilElement.ClipBegin | Sources/EPUBDecoder/SmilElement.swift:74-77 | the audio child's `clipBegin` read as a clock value, 0 when absent |
| SmilElements.SmilElement.ClipEnd | Sources/EPUBDecoder/SmilElement.swift:79-82 | the audio child's `clipEnd` read as a clock value, 0 when absent |
| SmilElements.Named | Sources/EPUBDecoder/SmilElement.swift:51-58 | the first element with the name, or none iff no element has it |
| SmilElements.FirstWithName | Sources/EPUBDecoder/SmilElement.swift:52-57 | the loop returns the first element with the name |
| SmilElements.AllWithNames | Sources/EPUBDecoder/SmilElement.swift:61-67 | the loop collects the elements whose name is listed, in order |
| SmilElements.MissingTypeIsEmptyToken | Sources/EPUBDecoder/SmilElement.swift:22-29 | with no `epub:type`, the only type is the empty string |
| SmilElements.TokensAreTypes | Sources/EPUBDecoder/SmilElement.swift:22-29 | `epub:type="a b"` gives the types `a` and `b` |
| SmilElements.DoubleSpaceGivesEmptyType | Sources/EPUBDecoder/SmilElement.swift:24 | a double space yields an empty type token, since `components` keeps empty pieces |
| SmilFiles.Pars | Sources/EPUBDecoder/Smils.swift:24-33 | the `par` cues reachable through `seq` cues, in document order |
| SmilFiles.Matches | Sources/EPUBDecoder/Smils.swift:26 | only a `par` cue matches; with no fragment every `par` does, and with the empty fragment only a `par` whose text has no `src` does, because an empty string is contained in nothing |
| SmilFiles.FindParElement | Sources/EPUBDecoder/Smils.swift:23-35 | a result is a `par` cue whose text `src` contains the fragment (or any `par` for a nil fragment); defined on every list, a `par` without `text` simply not matching |
| SmilFiles.FindParIsFirstInDocumentOrder | Sources/EPUBDecoder/Smils.swift:23-35 | the search returns the first matching `par` in document order |
| SmilFiles.FindParReachable | Sources/EPUBDecoder/Smils.swift:23-35 | the result is a reachable `par`, and it is nil iff no reachable `par` matches |
| SmilFiles.FindNextParElement | Sources/EPUBDecoder/Smils.swift:41-56 | the loop with its `foundPrev` flag computes the next-cue scan, whenever every `par` it tests has a `text` child (the exact crash condition) |
| SmilFiles.NoMatchPassesOver | Sources/EPUBDecoder/Smils.swift:41-56 | cues containing no matching `par` are passed over |
| SmilFiles.SuccessorInSameList | Sources/EPUBDecoder/Smils.swift:45-48 | the cue right after the first match in the same list is the result |
| SmilFiles.MatchEndingSeq | Sources/EPUBDecoder/Smils.swift:50-53 | a match that ends a nested `seq` yields nothing from it, and the scan goes on after the `seq`, without a `foundPrev` |
| SmilFiles.MatchEndingList | Sources/EPUBDecoder/Smils.swift:41-56 | a match that ends the list gives nil |
| SmilFiles.NestedSeqHasNoNext | Sources/EPUBDecoder/Smils.swift:41-56 | a `par` last in a nested `seq` has no next cue, although its parent list goes on |
| SmilFiles.EmptyFragmentMatches | Sources/EPUBDecoder/Smils.swift:26 | the empty fragment matches exactly the `par` cues whose text has no `src` |
| SmilFiles.TextlessParAfterMatch | Sources/EPUBDecoder/Smils.swift:23-56 | `[par(text src "c.html#x"), par()]` with fragment `x` meets both crash conditions; the search gives the first `par` and the next-cue scan the second |
| SmilFiles.TextlessParFirst | Sources/EPUBDecoder/Smils.swift:23-56 | a `par` without `text` tested before any match breaks both crash conditions |
| SmilFiles.TextWithoutSrcMatchesAll | Sources/EPUBDecoder/Smils.swift:26 | a `par` whose text has no `src` matches every fragment (`?.contains(src) != false`) |
| SmilFiles.SmilFile.ParallelAudioForFragment | Sources/EPUBDecoder/Smils.swift:19-21 | the first matching `par` in document order, or nil iff none matches, whenever every `par` before the first match has a `text` child (the exact crash condition of the force unwrap) |
| SmilFiles.SmilFile.NextParallelAudioForFragment | Sources/EPUBDecoder/Smils.swift:37-39 | the cue after the first match, as the next-cue scan defines it, whenever every `par` the scan tests has a `text` child (the exact crash condition) |
| SmilFiles.SmilFile.ChildWithName | Sources/EPUBDecoder/Smils.swift:59-66 | the first top-level cue with the name |
| SmilFiles.SmilFile.ChildrenWithNames | Sources/EPUBDecoder/Smils.swift:68-76 | the top-level cues whose name is listed, in order: only those, and all of them |
| SmilFiles.SmilFile.ChildrenWithName | Sources/EPUBDecoder/Smils.swift:78-80 | the top-level cues with the name, in order |
| SmilFiles.Smils.constructor | Sources/EPUBDecoder/Smils.swift:83-85 | a new overlay registry is empty and has no base path |
| SmilFiles.Smils.Add | Sources/EPUBDecoder/Smils.swift:87-89 | stores or overwrites the file under its resource's href and keeps the registry keyed by href |
| SmilFiles.Smils.FindByHref | Sources/EPUBDecoder/Smils.swift:91-98 | a stored file whose resource has the href, nil only when none has it; in a registry keyed by href, exactly the file stored under it |
| SmilFiles.Smils.FindById | Sources/EPUBDecoder/Smils.swift:100-107 | a stored file whose resource has the id, nil only when none has it |
| MetadataReader.ReadMetadata | Sources/EPUBDecoder/EPUBDecoder.swift:278-339 | the new metadata holds the records of every tag, taken in order |
| MetadataReader.RecordInto | Sources/EPUBDecoder/EPUBDecoder.swift:281-337 | one loop iteration records one tag, as the tag-dispatch function says |
| MetadataReader.TextListsInDocumentOrder | Sources/EPUBDecoder/EPUBDecoder.swift:282-318 | titles, publishers, descriptions, subjects and rights are the texts of the tags of their name in document order; creators come from both `dc:creator` and `dc:contributor`; contributors stay empty; the format stays EPUB |
| MetadataReader.LanguageIsLastNonEn | Sources/EPUBDecoder/EPUBDecoder.swift:291-294 | the language is the last non-`en` `dc:language` value (default `en-US`), so it is never `en` |
| MetadataReader.MetaRecordCount | Sources/EPUBDecoder/EPUBDecoder.swift:324-336 | a `meta` tag yields up to three records, none iff it has neither `name` nor `property`; with `property` and `id` it yields the id form and then the refines form |
| MetadataReader.DatesHaveEvents | Sources/EPUBDecoder/EPUBDecoder.swift:320-322 | every recorded date carries an event label (empty when absent) |
| MetadataReader.UnknownTagIgnored | Sources/EPUBDecoder/EPUBDecoder.swift:281-337 | a tag with no branch changes nothing |
| SpineReader.Linear | Sources/EPUBDecoder/EPUBDecoder.swift:346-350 | an item is non-linear iff it has a `linear` attribute other than `yes` |
| SpineReader.ReadSpine | Sources/EPUBDecoder/EPUBDecoder.swift:341-358 | one entry per child of `spine` whose `idref` names a registered resource, in order, each with that resource and its linear flag |
| SpineReader.ReadSpineElement | Sources/EPUBDecoder/EPUBDecoder.swift:123-128 | the spine read from the items, with the `page-progression-direction` attribute when present and none otherwise; right-to-left iff that attribute is `rtl` |
| ResourceSelection.SelectUniqueIdentifier | Sources/EPUBDecoder/EPUBDecoder.swift:99-101 | the value of the first identifier whose id the package names; none without an id or a matching identifier |
| ResourceSelection.CoverId | Sources/EPUBDecoder/EPUBDecoder.swift:103 | the content of the first `meta` named `cover` |
| ResourceSelection.SelectCoverImage | Sources/EPUBDecoder/EPUBDecoder.swift:103-108 | the resource the cover meta names when it is registered, otherwise a resource with `cover-image` properties, nil only if there is none |
| ResourceSelection.SelectTocResource | Sources/EPUBDecoder/EPUBDecoder.swift:110-118 | an NCX by media type, else by extension, else the `nav` resource; an error iff none exists |
| TocReader.SplitHref | Sources/EPUBDecoder/EPUBDecoder.swift:222-224 | href and fragment free of `#`, with a non-empty href whenever the reference is not all `#` |
| TocReader.SplitHrefWithoutFragment | Sources/EPUBDecoder/EPUBDecoder.swift:222-224 | a reference without `#` is the href, with the empty fragment |
| TocReader.SplitHrefWithFragment | Sources/EPUBDecoder/EPUBDecoder.swift:222-224 | `h#f` and `h#f#x` both give href `h`, fragment `f` |
| TocReader.SplitHrefDropsEmptyPieces | Sources/EPUBDecoder/EPUBDecoder.swift:222-224 | `#f` gives href `f` and `h##f` gives fragment `f`, because `split` drops empty pieces |
| TocReader.Holder | Sources/EPUBDecoder/EPUBDecoder.swift:249 | an HTML item's nested list is one of its children |
| TocReader.Items | Sources/EPUBDecoder/EPUBDecoder.swift:229 | the items read are children of the holder named `navPoint` or `li` |
| TocReader.Entry | Sources/EPUBDecoder/EPUBDecoder.swift:221-227 | an entry has the label, the fragment of its reference and, iff the href is registered, that resource |
| TocReader.TocEntryOf | Sources/EPUBDecoder/EPUBDecoder.swift:213-257 | an item yields an entry iff it has a reference |
| TocReader.EntriesFrom | Sources/EPUBDecoder/EPUBDecoder.swift:229-234 | no more entries than items from the given one on |
| TocReader.EntriesFromStep | Sources/EPUBDecoder/EPUBDecoder.swift:230-233 | one loop step appends the item's entry unless it has no reference |
| TocReader.EntriesAreTargetedItems | Sources/EPUBDecoder/EPUBDecoder.swift:229-234 | the sub-entries are the entries of the items that have a reference, in order |
| TocReader.SubEntriesOfHolder | Sources/EPUBDecoder/EPUBDecoder.swift:229-254 | NCX children come from nested `navPoint`s; HTML children from the `li`s of the nested `ol`, none without it |
| TocReader.ReadEntries | Sources/EPUBDecoder/EPUBDecoder.swift:230-233 | the loop over the items builds exactly the sub-entries |
| TocReader.ReadTocReference | Sources/EPUBDecoder/EPUBDecoder.swift:213-257 | `readTOCReference` returns the entry tree the item describes |
| TocReader.NavTagIn | Sources/EPUBDecoder/EPUBDecoder.swift:203-210 | the `nav` child of the first element that has one, and none iff no element has one |
| TocReader.FindNavTag | Sources/EPUBDecoder/EPUBDecoder.swift:202-211 | the loop returns the first `nav` among the children's children |
| TocReader.NestedNavIsMissed | Sources/EPUBDecoder/EPUBDecoder.swift:202-211 | a `nav` three levels below `body` is not found, although one two levels below a child is |
| TocReader.TocHolder | Sources/EPUBDecoder/EPUBDecoder.swift:171-185 | the top-level entries are read from a `navMap` (NCX) or an `ol` (navigation document) |
| TocReader.FindTableOfContents | Sources/EPUBDecoder/EPUBDecoder.swift:165-200 | without a TOC resource or document, empty; otherwise the entries read from the NCX `navMap` or the HTML `nav` list |
| TocSchemas.NcxPointShape | Sources/EPUBDecoder/EPUBDecoder.swift:213-234 | a written `navPoint` has the outline's target and label, and its `navPoint` children are the written sub-outlines |
| TocSchemas.NavItemShape | Sources/EPUBDecoder/EPUBDecoder.swift:213-254 | a written `li` has the outline's target and label, and the `li`s of its `ol` are the written sub-outlines |
| TocSchemas.SameEntry | Sources/EPUBDecoder/EPUBDecoder.swift:213-257 | one outline read as a `navPoint` and as an `li` gives the same entry, with the outline's label and target fragment |
| TocSchemas.SameEntries | Sources/EPUBDecoder/EPUBDecoder.swift:229-234 | the sub-outlines held in either schema read to the same entries |
| TocSchemas.NcxDocumentHolder | Sources/EPUBDecoder/EPUBDecoder.swift:171-175 | the top-level entries of a written NCX document are read from its `navMap` |
| TocSchemas.NavDocumentHolder | Sources/EPUBDecoder/EPUBDecoder.swift:177-185 | the top-level entries of a written navigation document are read from its `nav` list, and there are none when it is empty |
| TocSchemas.SameTableOfContents | Sources/EPUBDecoder/EPUBDecoder.swift:165-257 | the same outlines written as an NCX document and as a navigation document give the same table of contents |
| FlatToc.FlatLength | Sources/EPUBDecoder/EPUBDecoder.swift:259-267 | the flat list has one entry per top-level entry plus one per direct child |
| FlatToc.FlatMembership | Sources/EPUBDecoder/EPUBDecoder.swift:259-267 | an entry is in the flat list iff it is a top-level entry or a direct child of one |
| FlatToc.GrandchildrenLeftOut | Sources/EPUBDecoder/EPUBDecoder.swift:259-276 | grandchildren are not in the flat list |
| FlatToc.CountTocChild | Sources/EPUBDecoder/EPUBDecoder.swift:269-276 | a copy of the entry's direct children |
| FlatToc.FlatTocOf | Sources/EPUBDecoder/EPUBDecoder.swift:259-267 | the list of each top-level entry followed by its direct children |
| SmilReader.ToSmil | Sources/EPUBDecoder/EPUBDecoder.swift:153 | the SMIL element keeps the XML element's name, attributes and number of children |
| SmilReader.ToXml | Sources/EPUBDecoder/EPUBDecoder.swift:153 | the XML element a SMIL element mirrors has its name, attributes and number of children and no text |
| SmilReader.ToSmilOfToXml | Sources/EPUBDecoder/EPUBDecoder.swift:149-163 | mirroring loses nothing of a SMIL tree (round trip) |
| SmilReader.ToXmlOfToSmil | Sources/EPUBDecoder/EPUBDecoder.swift:149-163 | an XML tree without text values is recovered from its mirror (round trip) |
| SmilReader.ReadSmilFileElements | Sources/EPUBDecoder/EPUBDecoder.swift:149-163 | each element becomes its mirrored SMIL tree, in order |
| SmilReader.SmilDataOf | Sources/EPUBDecoder/EPUBDecoder.swift:137-141 | the overlay data is the mirrored children of `body`, empty without one |
| SmilReader.ReadSmilFile | Sources/EPUBDecoder/EPUBDecoder.swift:131-147 | a parsed SMIL file is stored under its href with the body's data; an unreadable one changes nothing |
| TextAccumulation.RunSnoc | Sources/EPUBDecoder/EPUB.swift:78-79 | one more parser event is one more step |
| TextAccumulation.AddText | Sources/EPUBDecoder/EPUB.swift:145-156 | adding text keeps the error and the number of elements, and changes no element but the last |
| TextAccumulation.Step | Sources/EPUBDecoder/EPUB.swift:125-165 | only an error callback changes the error, which it records; no callback removes an element or changes one before the last |
| TextAccumulation.CleanJoin | Sources/EPUBDecoder/EPUB.swift:147-153 | joining two trimmed texts keeps the result trimmed |
| TextAccumulation.CleanReplaceLast | Sources/EPUBDecoder/EPUB.swift:153 | replacing the last element's text with a trimmed text keeps every text trimmed |
| TextAccumulation.StepKeepsTextsClean | Sources/EPUBDecoder/EPUB.swift:143-157 | every callback keeps every element's text non-empty and free of whitespace at either end |
| TextAccumulation.RunKeepsTextsClean | Sources/EPUBDecoder/EPUB.swift:125-165 | a whole parse keeps every element's text trimmed |
| TextAccumulation.SuffixTestNeverFails | Sources/EPUBDecoder/EPUB.swift:148 | the `hasSuffix(" ")` test is always false on accumulated text |
| TextAccumulation.IgnoredChunks | Sources/EPUBDecoder/EPUB.swift:144-155 | whitespace-only chunks, and chunks before any element, change nothing |
| TextAccumulation.ErrorsPersist | Sources/EPUBDecoder/EPUB.swift:159-165 | once an error is recorded, no event clears it |
| TextAccumulation.ReplaceLastKeepsShape | Sources/EPUBDecoder/EPUB.swift:153 | replacing the last element by one with its name and attributes keeps every name and attribute |
| TextAccumulation.AddTextKeepsElements | Sources/EPUBDecoder/EPUB.swift:146-156 | adding text keeps the number of elements, their names and attributes |
| TextAccumulation.StepKeepsElements | Sources/EPUBDecoder/EPUB.swift:125-157 | only a start element adds an element; no callback alters an element's name or attributes |
| TextAccumulation.ElementsPerStart | Sources/EPUBDecoder/EPUB.swift:125-141 | a parse adds one element per start tag and keeps existing names and attributes |
| TextAccumulation.Texts | Sources/EPUBDecoder/EPUB.swift:84-86 | the texts kept for joining are all non-empty |
| TextAccumulation.TextsAreClean | Sources/EPUBDecoder/EPUB.swift:84-87 | the texts kept for joining are trimmed |
| TextAccumulation.JoinEnds | Sources/EPUBDecoder/EPUB.swift:87 | a join of non-empty parts starts with the first part's first character and ends with the last part's last one |
| TextAccumulation.PlainTextIsTrimmed | Sources/EPUBDecoder/EPUB.swift:84-87 | the plain text is empty or has no whitespace at either end |
| TextAccumulation.CleanChunkStep | Sources/EPUBDecoder/EPUB.swift:144 | an already trimmed chunk is added as it is |
| TextAccumulation.FirstChunk | Sources/EPUBDecoder/EPUB.swift:130-155 | the first chunk after a start tag becomes that element's text |
| TextAccumulation.SpaceOnlyAfterEnd | Sources/EPUBDecoder/EPUB.swift:143-157 | two chunks are joined with a space when an end tag falls between them, and without one otherwise |
| Book.ReadAllConcat | Sources/EPUBDecoder/EPUB.swift:70-83 | reading `a + b` is reading `a` and, unless it failed, then `b` |
| Book.MissingResourceFails | Sources/EPUBDecoder/EPUB.swift:71-73 | an entry without a resource stops the read with `resourceNotFound(title)` |
| Book.DoneReadEverything | Sources/EPUBDecoder/EPUB.swift:70-83 | a successful read had a resource and a successful parse for every entry |
| Book.StaleErrorFails | Sources/EPUBDecoder/EPUB.swift:82 | an error left from an earlier parse fails the read at the first entry |
| Book.ReadAllKeepsTextsClean | Sources/EPUBDecoder/EPUB.swift:70-83 | reading every chapter keeps every text trimmed |
| Book.PlainTextHasNoOuterWhitespace | Sources/EPUBDecoder/EPUB.swift:84-87 | a successful read's plain text is empty or has no whitespace at either end |
| Book.EPUB.constructor | Sources/EPUBDecoder/EPUB.swift:3-16 | a new book has empty registries, default metadata, no optional fields and the initial parser state |
| Book.EPUB.HasAudio | Sources/EPUBDecoder/EPUB.swift:18-20 | true iff some media-overlay file is stored |
| Book.EPUB.Title | Sources/EPUBDecoder/EPUB.swift:22-24 | the first title, nil iff there is none |
| Book.EPUB.AuthorName | Sources/EPUBDecoder/EPUB.swift:26-28 | the first creator's name, nil iff there is no creator |
| Book.EPUB.PropertyValue | Sources/EPUBDecoder/EPUB.swift:30-32 | the value of the first `meta` with that property and `refines`, nil when none matches |
| Book.EPUB.Duration | Sources/EPUBDecoder/EPUB.swift:30-32 | the first `media:duration` value, nil when there is none |
| Book.EPUB.DurationFor | Sources/EPUBDecoder/EPUB.swift:64-66 | the first `media:duration` value refining that id, nil when there is none |
| Book.EPUB.ActiveClass | Sources/EPUBDecoder/EPUB.swift:34-39 | the first `media:active-class` value, else `epub-media-overlay-active` |
| Book.EPUB.PlaybackActiveClass | Sources/EPUBDecoder/EPUB.swift:41-46 | the first `media:playback-active-class` value, else `epub-media-overlay-playing` |
| Book.EPUB.SmilFileForResource | Sources/EPUBDecoder/EPUB.swift:48-54 | nil without a resource, an overlay id or a registered overlay resource; a result is the stored file of the resource's overlay, and one is found whenever it is stored |
| Book.EPUB.SmilFileForHref | Sources/EPUBDecoder/EPUB.swift:56-58 | the overlay file of the resource at that href, nil when there is no such resource; found whenever that resource's overlay is registered and stored |
| Book.EPUB.SmilFileForId | Sources/EPUBDecoder/EPUB.swift:60-62 | the overlay file of a resource with that id, nil when there is none; found whenever every resource with the id has a registered, stored overlay |
| Book.EPUB.DidStartElement | Sources/EPUBDecoder/EPUB.swift:125-134 | the parser state takes one start-element step; nothing else changes |
| Book.EPUB.DidEndElement | Sources/EPUBDecoder/EPUB.swift:136-141 | the parser state takes one end-element step; nothing else changes |
| Book.EPUB.FoundCharacters | Sources/EPUBDecoder/EPUB.swift:143-157 | the parser state takes one characters step; nothing else changes |
| Book.EPUB.AddTrimmed | Sources/EPUBDecoder/EPUB.swift:145-156 | the trimmed chunk is added to the last element's text as the text-adding rule says |
| Book.EPUB.ParseErrorOccurred | Sources/EPUBDecoder/EPUB.swift:159-161 | the error is recorded; nothing else changes |
| Book.EPUB.ValidationErrorOccurred | Sources/EPUBDecoder/EPUB.swift:163-165 | the error is recorded; nothing else changes |
| Book.EPUB.Parse | Sources/EPUBDecoder/EPUB.swift:78-79 | delivering a document's events runs the parser state over all of them |
| Book.EPUB.PlainText | Sources/EPUBDecoder/EPUB.swift:68-88 | clears the elements, reads every flat-TOC chapter in order, and returns the space-joined non-empty texts or the first failure; nothing else changes |

## Left out

- Unzipping, `FileManager`, the cache directory, `addSkipBackupAttributeToItemAtURL`, `readContainer` and the manifest loop of `readOpf` are file-system I/O. The model starts from the parsed documents they produce and from the registries they fill.
- AEXML and `XMLParser` are not modelled. A parsed document is an `Element` tree, and an `XMLParser` run is a list of `ParserEvent`s with a success flag. `Book.EPUB.PlainText` takes the parse of each chapter as a function from full href to an optional run, where none means the file could not be opened.
- URLs and percent-decoding are not modelled. `fullHref` is a given string.
- `DateFormatter` is not modelled, nor its ICU range checks (hours above 23, for instance, make it return nil and the value read as 0). Clock values are exact `real`s, so `Double` rounding is not modelled either.
- `EPUB.version` is left out, because nothing in the core reads it.
- `MediaType.swift` is not part of this model. `MediaType` is a name plus default extension, and only the NCX, SMIL and EPUB constants are used.
- `errorDescription`, `debugDescription`, `print` and the `XMLElementType` enum are diagnostics and nothing reads them.
- The `invalidResourcePath`, `unableToParseElement` and `unknown` error cases are left out, because `plainText` never throws them. A parse error is kept as its message.
- ClockValues.ClockTimeToSeconds: `\d` is read as an ASCII digit 0-9. The ICU regular expressions of the Swift code also accept every other Unicode decimal digit, which `DateFormatter` and `doubleValue` then treat in their own way. A fixed-point value followed by one final line terminator (`00:01\n`) also matches the Swift code's patterns, because ICU's `$` matches before it, and is then handed to `DateFormatter`; the model gives such a value no fixed-point fields and reads it as 0. The unit forms before a final line terminator are modelled.
- String comparison: Swift's `==`, dictionary keys, `hasSuffix`, `contains` and `split` compare grapheme clusters under canonical equivalence, so a precomposed and a decomposed accent are equal there. The model compares sequences of code points, which tells them apart.
- `SmilFile.ID()` and `SmilFile.href()` both force-unwrap a resource field; the model reads the field directly where it is needed.
- The private `XMLElement` class of the delegate is a value (`TextElement`). The delegate only ever changes the last element, so the model rebuilds that entry instead of sharing a reference.
- `EPUB.metadata` and `EPUB.spine` are `const` fields. `readOpf` assigns new objects to them once, and `MetadataReader.ReadMetadata` and `SpineReader.ReadSpine` return those fresh objects.
- Implicitly unwrapped arrays that are nil before decoding (`tableOfContents`, `flatTableOfContents`) start as empty lists.
- Lookups over Swift dictionaries (`Resources.find*`, `Smils.find*`) leave the choice among several matches open, because dictionary order is unspecified. Their contracts say only that the result matches, and that it is nil only when nothing matches.
- SmilFiles.FindParElement: has no precondition. Where the Swift code would crash on a `par` without `text`, the function treats that `par` as not matching. The crash condition, that no such `par` comes before the first match, is the precondition of `SmilFiles.SmilFile.ParallelAudioForFragment`.
- SmilElements.SmilElement.ClipBegin: requires an `audio` child, because the Swift code force-unwraps `audioElement()`. `ClipEnd` is the same.
- TocReader.ReadTocReference: requires that every reference in the item tree has a character other than `#`, because `hrefSplit[0]` crashes otherwise. `FindTableOfContents` carries the same condition for the whole document.
- Book.EPUB.SmilFileForResource: requires `Valid()` (the registries keyed by href), because the Swift code uses `resource.href` as a dictionary key and assumes it is there.
- ResourceSelection.SelectTocResource: the Swift code stops with a `precondition` failure when no TOC resource exists. The model returns `Err(TocResourceMissing)` instead of modelling the crash.
- Resource value semantics: `Resource` is a Swift class, but the core never mutates a resource after registering it, so it is modelled as a value.
