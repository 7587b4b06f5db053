/** A node of a SMIL media-overlay document: its tag name, attributes and
    children, with the attribute and child lookups the player uses. */
module SmilElements {
  import opened Wrappers
  import opened Strings
  import opened Lookups
  import opened ClockValues

  datatype SmilElement = SmilElement(
    name: string,
    attributes: map<string, string>,
    children: seq<SmilElement>)
  {
    /** `getAttribute(_:defaultVal:)`: the attribute if present, else the
        default. */
    function GetAttribute(n: string, defaultVal: Option<string>): (r: Option<string>)
      ensures n in attributes ==> r == Some(attributes[n])
      ensures n !in attributes ==> r == defaultVal
    {
      if n in attributes then Some(attributes[n]) else defaultVal
    }

    function GetId(): (r: Option<string>)
      ensures r.Some? <==> "id" in attributes
      ensures r.Some? ==> r.value == attributes["id"]
    {
      GetAttribute("id", None)
    }

    function GetSrc(): (r: Option<string>)
      ensures r.Some? <==> "src" in attributes
      ensures r.Some? ==> r.value == attributes["src"]
    {
      GetAttribute("src", None)
    }

    /** `getType()`: `epub:type` (empty when absent) cut at every single
        space, empty tokens kept. */
    function GetType(): (r: seq<string>)
      ensures |r| >= 1
      ensures forall i :: 0 <= i < |r| ==> ' ' !in r[i]
      ensures Join(r, " ") == GetAttribute("epub:type", Some("")).value
    {
      var t := GetAttribute("epub:type", Some("")).value;
      JoinComponents(t, ' ');
      Components(t, ' ')
    }

    /** `isType(_:)`: the argument is one of the tokens of `getType()`. With
        no `epub:type` attribute, only the empty string is a type. */
    predicate IsType(aType: string): (b: bool)
      ensures b ==> ' ' !in aType
      ensures "epub:type" !in attributes ==> (b <==> aType == "")
    {
      ComponentsWithoutSeparator("", ' ');
      aType in GetType()
    }

    /** `childWithName(_:)` as a value: the first child with the name. */
    function Child(n: string): (r: Option<SmilElement>)
      ensures r.Some? ==> r.value in children && r.value.name == n
      ensures r.None? <==> forall i :: 0 <= i < |children| ==> children[i].name != n
    {
      Named(children, n)
    }

    /** `textElement()`: the first child named `text`. */
    function TextElement(): (r: Option<SmilElement>)
      ensures r.Some? ==> r.value in children && r.value.name == "text"
      ensures r.None? <==> forall i :: 0 <= i < |children| ==> children[i].name != "text"
    {
      Child("text")
    }

    /** `audioElement()`: the first child named `audio`. */
    function AudioElement(): (r: Option<SmilElement>)
      ensures r.Some? ==> r.value in children && r.value.name == "audio"
      ensures r.None? <==> forall i :: 0 <= i < |children| ==> children[i].name != "audio"
    {
      Child("audio")
    }

    /** `videoElement()`: the first child named `video`. */
    function VideoElement(): (r: Option<SmilElement>)
      ensures r.Some? ==> r.value in children && r.value.name == "video"
      ensures r.None? <==> forall i :: 0 <= i < |children| ==> children[i].name != "video"
    {
      Child("video")
    }

    method ChildWithName(n: string) returns (r: Option<SmilElement>)
      ensures r == Child(n)
    {
      r := FirstWithName(children, n);
    }

    method ChildrenWithNames(ns: seq<string>) returns (r: seq<SmilElement>)
      ensures r == Filter(children, NameIn(ns))
      ensures forall i :: 0 <= i < |r| ==> r[i] in children && r[i].name in ns
      ensures forall i :: 0 <= i < |children| && children[i].name in ns ==> children[i] in r
    {
      r := AllWithNames(children, ns);
    }

    method ChildrenWithName(n: string) returns (r: seq<SmilElement>)
      ensures r == Filter(children, NameIn([n]))
      ensures forall i :: 0 <= i < |r| ==> r[i] in children && r[i].name == n
      ensures forall i :: 0 <= i < |children| && children[i].name == n ==> children[i] in r
    {
      r := ChildrenWithNames([n]);
    }

    /** `clipBegin()`: the audio child's `clipBegin` read as a clock value,
        0 when the attribute is absent. The audio child must exist (the
        Swift code force-unwraps it). */
    function ClipBegin(): (seconds: real)
      requires AudioElement().Some?
      ensures "clipBegin" !in AudioElement().value.attributes ==> seconds == 0.0
      ensures "clipBegin" in AudioElement().value.attributes ==>
                seconds == ClockTimeToSeconds(AudioElement().value.attributes["clipBegin"])
    {
      EmptyClockValue("");
      ClockTimeToSeconds(AudioElement().value.GetAttribute("clipBegin", Some("")).value)
    }

    function ClipEnd(): (seconds: real)
      requires AudioElement().Some?
      ensures "clipEnd" !in AudioElement().value.attributes ==> seconds == 0.0
      ensures "clipEnd" in AudioElement().value.attributes ==>
                seconds == ClockTimeToSeconds(AudioElement().value.attributes["clipEnd"])
    {
      EmptyClockValue("");
      ClockTimeToSeconds(AudioElement().value.GetAttribute("clipEnd", Some("")).value)
    }
  }

  /** The first element of the list with the name. */
  function Named(elements: seq<SmilElement>, n: string): (r: Option<SmilElement>)
    ensures r.Some? ==> r.value in elements && r.value.name == n
    ensures r.None? <==> forall i :: 0 <= i < |elements| ==> elements[i].name != n
    ensures r.Some? ==> exists i :: 0 <= i < |elements| && elements[i] == r.value
                                    && forall j :: 0 <= j < i ==> elements[j].name != n
  {
    First(elements, (x: SmilElement) => x.name == n)
  }

  /** "the name is one of `ns`", the test of `childrenWithNames`. */
  function NameIn(ns: seq<string>): SmilElement -> bool {
    (x: SmilElement) => x.name in ns
  }

  /** The `for el in children { if el.name == name { return el } }` loop. */
  method FirstWithName(elements: seq<SmilElement>, n: string) returns (r: Option<SmilElement>)
    ensures r == Named(elements, n)
  {
    for i := 0 to |elements|
      invariant forall j :: 0 <= j < i ==> elements[j].name != n
    {
      if elements[i].name == n {
        return Some(elements[i]);
      }
    }
    return None;
  }

  /** The loop collecting into `matched` the elements whose name is in `ns`. */
  method AllWithNames(elements: seq<SmilElement>, ns: seq<string>) returns (matched: seq<SmilElement>)
    ensures matched == Filter(elements, NameIn(ns))
  {
    matched := [];
    for i := 0 to |elements|
      invariant matched == Filter(elements[..i], NameIn(ns))
    {
      FilterSnoc(elements[..i], elements[i], NameIn(ns));
      assert elements[..i + 1] == elements[..i] + [elements[i]];
      if elements[i].name in ns {
        matched := matched + [elements[i]];
      }
    }
    assert elements[..|elements|] == elements;
  }

  /** An absent `epub:type` yields the single empty token, so only the empty
      type is reported. */
  lemma MissingTypeIsEmptyToken(e: SmilElement, t: string)
    requires "epub:type" !in e.attributes
    ensures e.GetType() == [""]
    ensures e.IsType(t) <==> t == ""
  {
    ComponentsWithoutSeparator("", ' ');
  }

  /** Each space-free token of a space-separated `epub:type` is a type. */
  lemma {:induction false} TokensAreTypes(e: SmilElement, a: string, b: string)
    requires "epub:type" in e.attributes && e.attributes["epub:type"] == a + " " + b
    requires ' ' !in a && ' ' !in b
    ensures e.GetType() == [a, b]
    ensures e.IsType(a) && e.IsType(b)
  {
    assert a + " " + b == a + [' '] + b;
    ComponentsAtSeparator(a, ' ', b);
    ComponentsWithoutSeparator(b, ' ');
  }

  /** Two spaces in a row leave an empty token between them. */
  lemma {:induction false} DoubleSpaceGivesEmptyType(e: SmilElement, a: string, b: string)
    requires "epub:type" in e.attributes && e.attributes["epub:type"] == a + "  " + b
    requires ' ' !in a && ' ' !in b
    ensures e.GetType() == [a, "", b]
    ensures e.IsType("")
  {
    assert a + "  " + b == a + [' '] + ([' '] + b);
    ComponentsAtSeparator(a, ' ', [' '] + b);
    assert [' '] + b == [] + [' '] + b;
    ComponentsAtSeparator([], ' ', b);
    ComponentsWithoutSeparator(b, ' ');
  }
}
