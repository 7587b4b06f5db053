/** The parsed media-overlay files of a book: each SMIL file's element tree,
    the `par` searches over it, and the registry of files keyed by href. */
module SmilFiles {
  import opened Wrappers
  import opened Strings
  import opened Lookups
  import opened ResourceModel
  import opened SmilElements

  /** The search test for one element: a `par` whose `text` child's `src`
      contains the fragment. With no fragment every `par` matches, and so
      does a `par` whose `text` child has no `src` at all. Testing a `par`
      without a `text` child against a fragment is where the Swift code
      crashes (`InspectedParsHaveText` and `NextScanHasText` say when that
      happens); here such a `par` simply does not match. */
  predicate Matches(src: Option<string>, el: SmilElement): (b: bool)
    ensures b ==> el.name == "par"
    ensures src.None? ==> (b <==> el.name == "par")
  {
    && el.name == "par"
    && (src.None? ||
        var text := el.TextElement();
        text.Some? && ("src" !in text.value.attributes || Contains(text.value.attributes["src"], src.value)))
  }

  function MatchesFor(src: Option<string>): SmilElement -> bool {
    (x: SmilElement) => Matches(src, x)
  }

  /** The `par` elements of a list in document order, descending into `seq`
      elements and into nothing else. */
  function Pars(data: seq<SmilElement>): (r: seq<SmilElement>)
    ensures forall i :: 0 <= i < |r| ==> r[i].name == "par"
    decreases data
  {
    if data == [] then []
    else
      var el := data[0];
      (if el.name == "par" then [el] else if el.name == "seq" then Pars(el.children) else [])
      + Pars(data[1..])
  }

  /** `findParElement(forTextSrc:inData:)`: the loop over the list returning
      the first matching `par`, or what the search of a non-empty `seq`
      found. */
  function FindParElement(src: Option<string>, data: seq<SmilElement>): (r: Option<SmilElement>)
    ensures r.Some? ==> r.value.name == "par" && Matches(src, r.value)
    decreases data
  {
    if data == [] then None
    else
      var el := data[0];
      if Matches(src, el) then Some(el)
      else if el.name == "seq" && |el.children| > 0 then
        var p := FindParElement(src, el.children);
        if p.Some? then p else FindParElement(src, data[1..])
      else FindParElement(src, data[1..])
  }

  /** The search finds the first matching `par` of the document-order list
      of reachable `par` elements. */
  lemma {:induction false} FindParIsFirstInDocumentOrder(src: Option<string>, data: seq<SmilElement>)
    ensures FindParElement(src, data) == First(Pars(data), MatchesFor(src))
    decreases data
  {
    if data != [] {
      var el := data[0];
      var here := if el.name == "par" then [el] else if el.name == "seq" then Pars(el.children) else [];
      FirstOfConcat(here, Pars(data[1..]), MatchesFor(src));
      FindParIsFirstInDocumentOrder(src, data[1..]);
      if el.name == "seq" {
        FindParIsFirstInDocumentOrder(src, el.children);
      }
    }
  }

  /** So the search returns a reachable `par`, and finds one whenever one
      matches. */
  lemma FindParReachable(src: Option<string>, data: seq<SmilElement>)
    ensures FindParElement(src, data).Some? ==> FindParElement(src, data).value in Pars(data)
    ensures FindParElement(src, data).None? <==> forall i :: 0 <= i < |Pars(data)| ==> !Matches(src, Pars(data)[i])
  {
    FindParIsFirstInDocumentOrder(src, data);
  }

  /** What `findNextParElement` computes, with its `foundPrev` flag as a
      parameter: once a match is seen the next element of the same list is
      returned, whatever it is; a non-empty `seq` is searched afresh with the
      flag cleared, and its answer is returned only if it has one. */
  function NextAfterMatch(src: Option<string>, data: seq<SmilElement>, foundPrev: bool): Option<SmilElement>
    decreases data
  {
    if data == [] then None
    else if foundPrev then Some(data[0])
    else
      var el := data[0];
      if Matches(src, el) then NextAfterMatch(src, data[1..], true)
      else if el.name == "seq" && |el.children| > 0 then
        var p := NextAfterMatch(src, el.children, false);
        if p.Some? then p else NextAfterMatch(src, data[1..], false)
      else NextAfterMatch(src, data[1..], false)
  }

  /** The crash condition of `findParElement` for a fragment: it tests the
      reachable `par` elements in document order up to the first match, and
      each one it tests must have a `text` child. */
  predicate InspectedParsHaveText(src: Option<string>, pars: seq<SmilElement>) {
    src.Some? ==>
      forall i :: 0 <= i < |pars| && (forall j :: 0 <= j < i ==> !Matches(src, pars[j])) ==>
        pars[i].TextElement().Some?
  }

  /** The crash condition of `findNextParElement`, following its scan: every
      `par` it tests before it returns has a `text` child. The element after
      a match is returned untested. */
  predicate NextScanHasText(src: Option<string>, data: seq<SmilElement>, foundPrev: bool)
    decreases data
  {
    if data == [] || foundPrev then true
    else
      var el := data[0];
      if el.name == "par" then
        (src.Some? ==> el.TextElement().Some?) && NextScanHasText(src, data[1..], Matches(src, el))
      else if el.name == "seq" && |el.children| > 0 then
        && NextScanHasText(src, el.children, false)
        && (NextAfterMatch(src, el.children, false).Some? || NextScanHasText(src, data[1..], false))
      else NextScanHasText(src, data[1..], false)
  }

  method FindNextParElement(src: Option<string>, data: seq<SmilElement>) returns (r: Option<SmilElement>)
    requires NextScanHasText(src, data, false)
    ensures r == NextAfterMatch(src, data, false)
    decreases data
  {
    var foundPrev := false;
    for i := 0 to |data|
      invariant NextAfterMatch(src, data[i..], foundPrev) == NextAfterMatch(src, data, false)
      invariant NextScanHasText(src, data[i..], foundPrev)
    {
      assert data[i..][1..] == data[i + 1..];
      var el := data[i];
      if foundPrev {
        return Some(el);
      }
      if Matches(src, el) {
        foundPrev := true;
      } else if el.name == "seq" && |el.children| > 0 {
        var p := FindNextParElement(src, el.children);
        if p.Some? {
          return p;
        }
      }
    }
    return None;
  }

  /** No reachable `par` of a list matches, so none of its head and none of
      its rest does. */
  lemma NoMatchInParts(src: Option<string>, pre: seq<SmilElement>)
    requires pre != []
    requires forall i :: 0 <= i < |Pars(pre)| ==> !Matches(src, Pars(pre)[i])
    ensures pre[0].name == "par" ==> !Matches(src, pre[0])
    ensures pre[0].name == "seq" ==> forall i :: 0 <= i < |Pars(pre[0].children)| ==> !Matches(src, Pars(pre[0].children)[i])
    ensures forall i :: 0 <= i < |Pars(pre[1..])| ==> !Matches(src, Pars(pre[1..])[i])
  {
    var el := pre[0];
    var here := if el.name == "par" then [el] else if el.name == "seq" then Pars(el.children) else [];
    assert Pars(pre) == here + Pars(pre[1..]);
    NoMatchInConcat(src, here, Pars(pre[1..]));
    if el.name == "par" {
      assert here[0] == el;
    }
  }

  /** No element of `a + b` matches, so none of `a` and none of `b` does. */
  lemma NoMatchInConcat(src: Option<string>, a: seq<SmilElement>, b: seq<SmilElement>)
    requires forall i :: 0 <= i < |a + b| ==> !Matches(src, (a + b)[i])
    ensures forall i :: 0 <= i < |a| ==> !Matches(src, a[i])
    ensures forall i :: 0 <= i < |b| ==> !Matches(src, b[i])
  {
    assert forall i :: 0 <= i < |a| ==> (a + b)[i] == a[i];
    assert forall i :: 0 <= i < |b| ==> (a + b)[|a| + i] == b[i];
  }

  /** A list none of whose reachable `par` elements match is passed over:
      the scan goes on after it with the flag still cleared. */
  lemma {:induction false} NoMatchPassesOver(src: Option<string>, pre: seq<SmilElement>, tail: seq<SmilElement>)
    requires forall i :: 0 <= i < |Pars(pre)| ==> !Matches(src, Pars(pre)[i])
    ensures NextAfterMatch(src, pre + tail, false) == NextAfterMatch(src, tail, false)
    decreases pre
  {
    if pre == [] {
      assert pre + tail == tail;
    } else {
      var el := pre[0];
      assert (pre + tail)[0] == el;
      assert (pre + tail)[1..] == pre[1..] + tail;
      NoMatchInParts(src, pre);
      if el.name == "seq" {
        NoMatchPassesOver(src, el.children, []);
        assert el.children + [] == el.children;
        assert NextAfterMatch(src, el.children, false) == None;
      }
      NoMatchPassesOver(src, pre[1..], tail);
    }
  }

  /** The element right after the first matching `par` of a list is the
      answer, whether or not it is a `par`. */
  lemma SuccessorInSameList(src: Option<string>, pre: seq<SmilElement>, m: SmilElement, x: SmilElement, rest: seq<SmilElement>)
    requires forall i :: 0 <= i < |Pars(pre)| ==> !Matches(src, Pars(pre)[i])
    requires Matches(src, m)
    ensures NextAfterMatch(src, pre + [m, x] + rest, false) == Some(x)
  {
    assert pre + [m, x] + rest == pre + ([m, x] + rest);
    NoMatchPassesOver(src, pre, [m, x] + rest);
    assert ([m, x] + rest)[1..] == [x] + rest;
  }

  /** A match that ends a `seq` has no successor inside it, and the outer
      scan does not take the element after the `seq`: it carries on with the
      flag cleared, looking for a later match. */
  lemma MatchEndingSeq(src: Option<string>, s: SmilElement, pre: seq<SmilElement>, m: SmilElement, rest: seq<SmilElement>)
    requires s.name == "seq" && s.children == pre + [m]
    requires forall i :: 0 <= i < |Pars(pre)| ==> !Matches(src, Pars(pre)[i])
    requires Matches(src, m)
    ensures NextAfterMatch(src, [s] + rest, false) == NextAfterMatch(src, rest, false)
  {
    NoMatchPassesOver(src, pre, [m]);
    assert ([s] + rest)[1..] == rest;
  }

  /** A match that ends the top-level list has no successor. */
  lemma MatchEndingList(src: Option<string>, pre: seq<SmilElement>, m: SmilElement)
    requires forall i :: 0 <= i < |Pars(pre)| ==> !Matches(src, Pars(pre)[i])
    requires Matches(src, m)
    ensures NextAfterMatch(src, pre + [m], false) == None
  {
    NoMatchPassesOver(src, pre, [m]);
  }

  function Par(src: string): SmilElement {
    SmilElement("par", map[], [SmilElement("text", map["src" := src], []), SmilElement("audio", map[], [])])
  }

  /** The current cue is the last of its `seq` and a second cue follows the
      `seq`: the current cue is found, but no next one. */
  lemma NestedSeqHasNoNext()
    ensures FindParElement(Some("a"), [SmilElement("seq", map[], [Par("a")]), Par("b")]) == Some(Par("a"))
    ensures NextAfterMatch(Some("a"), [SmilElement("seq", map[], [Par("a")]), Par("b")], false) == None
  {
    var s := SmilElement("seq", map[], [Par("a")]);
    assert Par("a").TextElement() == Some(SmilElement("text", map["src" := "a"], []));
    assert Par("b").TextElement() == Some(SmilElement("text", map["src" := "b"], []));
    assert "a" <= "a";
    assert !Contains("", "a");
    assert "b"[1..] == "";
    assert !("a" <= "b") by {
      assert "b"[0] != "a"[0];
    }
    assert !Contains("b", "a");
    assert [s, Par("b")][1..] == [Par("b")];
    MatchEndingSeq(Some("a"), s, [], Par("a"), [Par("b")]);
  }

  /** With the empty fragment (a TOC target without `#`), only a `par` whose
      `text` child has no `src` matches, as `contains("")` is false. */
  lemma EmptyFragmentMatches(p: SmilElement)
    ensures Matches(Some(""), p) <==>
              p.name == "par" && p.TextElement().Some? && "src" !in p.TextElement().value.attributes
  {
    if p.TextElement().Some? && "src" in p.TextElement().value.attributes {
      EmptyIsNotContained(p.TextElement().value.attributes["src"]);
    }
  }

  function TextlessPar(): SmilElement {
    SmilElement("par", map[], [])
  }

  /** A `par` without a `text` child after the match is never tested: both
      scans accept `[par(text src "c.html#x"), par()]` for the fragment `x`,
      the search answers the first `par` and the next-cue scan the second. */
  lemma TextlessParAfterMatch()
    ensures InspectedParsHaveText(Some("x"), Pars([Par("c.html#x"), TextlessPar()]))
    ensures FindParElement(Some("x"), [Par("c.html#x"), TextlessPar()]) == Some(Par("c.html#x"))
    ensures NextScanHasText(Some("x"), [Par("c.html#x"), TextlessPar()], false)
    ensures NextAfterMatch(Some("x"), [Par("c.html#x"), TextlessPar()], false) == Some(TextlessPar())
  {
    var data := [Par("c.html#x"), TextlessPar()];
    assert Par("c.html#x").TextElement() == Some(SmilElement("text", map["src" := "c.html#x"], []));
    assert "c.html#x"[7..8] == "x";
    assert Matches(Some("x"), Par("c.html#x"));
    assert data[1..] == [TextlessPar()] && data[1..][1..] == [];
    assert Pars(data) == [Par("c.html#x"), TextlessPar()];
  }

  /** A `par` without a `text` child tested before any match is where both
      scans crash. */
  lemma TextlessParFirst(fragment: string)
    ensures !InspectedParsHaveText(Some(fragment), Pars([TextlessPar()]))
    ensures !NextScanHasText(Some(fragment), [TextlessPar()], false)
  {
    assert Pars([TextlessPar()]) == [TextlessPar()];
  }

  /** A `par` whose `text` child has no `src` matches every fragment. */
  lemma TextWithoutSrcMatchesAll(p: SmilElement, fragment: string)
    requires p.name == "par" && p.TextElement().Some? && "src" !in p.TextElement().value.attributes
    ensures FindParElement(Some(fragment), [p]) == Some(p)
  {
  }

  /** A media-overlay file: the SMIL resource and its body's elements. */
  datatype SmilFile = SmilFile(resource: Resource, data: seq<SmilElement>)
  {
    /** `parallelAudioForFragment(_:)`. */
    function ParallelAudioForFragment(fragment: Option<string>): (r: Option<SmilElement>)
      requires InspectedParsHaveText(fragment, Pars(data))
      ensures r.Some? ==> r.value.name == "par" && Matches(fragment, r.value)
      ensures r.Some? ==> r.value in Pars(data)
      ensures r.None? <==> forall i :: 0 <= i < |Pars(data)| ==> !Matches(fragment, Pars(data)[i])
      ensures r == First(Pars(data), MatchesFor(fragment))
    {
      FindParReachable(fragment, data);
      FindParIsFirstInDocumentOrder(fragment, data);
      FindParElement(fragment, data)
    }

    method NextParallelAudioForFragment(fragment: string) returns (r: Option<SmilElement>)
      requires NextScanHasText(Some(fragment), data, false)
      ensures r == NextAfterMatch(Some(fragment), data, false)
    {
      r := FindNextParElement(Some(fragment), data);
    }

    method ChildWithName(n: string) returns (r: Option<SmilElement>)
      ensures r == Named(data, n)
    {
      r := FirstWithName(data, n);
    }

    method ChildrenWithNames(ns: seq<string>) returns (r: seq<SmilElement>)
      ensures r == Filter(data, NameIn(ns))
      ensures forall i :: 0 <= i < |r| ==> r[i] in data && r[i].name in ns
      ensures forall i :: 0 <= i < |data| && data[i].name in ns ==> data[i] in r
    {
      r := AllWithNames(data, ns);
    }

    method ChildrenWithName(n: string) returns (r: seq<SmilElement>)
      ensures r == Filter(data, NameIn([n]))
      ensures forall i :: 0 <= i < |r| ==> r[i] in data && r[i].name == n
      ensures forall i :: 0 <= i < |data| && data[i].name == n ==> data[i] in r
    {
      r := ChildrenWithNames([n]);
    }
  }

  /** Every file is stored under its own resource's href. */
  ghost predicate KeyedByHref(m: map<string, SmilFile>) {
    forall k :: k in m ==> m[k].resource.href == Some(k)
  }

  class Smils {
    var basePath: Option<string>
    var smils: map<string, SmilFile>

    ghost predicate Valid()
      reads this
    {
      KeyedByHref(smils)
    }

    constructor()
      ensures Valid() && basePath.None? && smils == map[]
    {
      basePath := None;
      smils := map[];
    }

    /** `add(_:)`: store under the resource's href, replacing what was
        there; the href must be present (the Swift code force-unwraps it). */
    method Add(smil: SmilFile)
      requires smil.resource.href.Some?
      modifies this
      ensures smils == old(smils)[smil.resource.href.value := smil]
      ensures basePath == old(basePath)
      ensures old(Valid()) ==> Valid()
    {
      smils := smils[smil.resource.href.value := smil];
    }

    /** A file with the href, when there is one; since files are stored
        under their href, that is exactly the entry at that key. */
    method FindByHref(href: string) returns (r: Option<SmilFile>)
      ensures r.Some? ==> r.value in smils.Values && r.value.resource.href == Some(href)
      ensures r.None? ==> forall k :: k in smils ==> smils[k].resource.href != Some(href)
      ensures Valid() ==> r == if href in smils then Some(smils[href]) else None
    {
      r := ScanValues(smils, (s: SmilFile) => s.resource.href == Some(href));
      if Valid() && href in smils {
        assert smils[href].resource.href == Some(href);
      }
    }

    method FindById(id: string) returns (r: Option<SmilFile>)
      ensures r.Some? ==> r.value in smils.Values && r.value.resource.id == Some(id)
      ensures r.None? ==> forall k :: k in smils ==> smils[k].resource.id != Some(id)
    {
      r := ScanValues(smils, (s: SmilFile) => s.resource.id == Some(id));
    }
  }
}
