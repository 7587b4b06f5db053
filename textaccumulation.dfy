/** The plain-text extraction state of a book: the `XMLParserDelegate`
    callbacks collect elements and their text, and character chunks are
    trimmed and glued to the text of the last element. */
module TextAccumulation {
  import opened Wrappers
  import opened Strings

  /** An element the parser reported: its name, attributes and collected
      text, if any. */
  datatype TextElement = TextElement(name: string, attributes: map<string, string>, text: Option<string>)

  /** The callbacks the parser makes, in the order it makes them. `Error`
      stands for both `parseErrorOccurred` and `validationErrorOccurred`. */
  datatype ParserEvent =
    | StartElement(elementName: string, attributeDict: map<string, string>)
    | EndElement(endName: string)
    | Characters(chunk: string)
    | Error(message: string)

  /** `elements`, `didStartNewElement` and `error`. */
  datatype TextState = TextState(elements: seq<TextElement>, didStartNewElement: bool, error: Option<string>)

  /** What a new book holds. */
  const InitialState := TextState([], true, None)

  /** A chunk with the surrounding whitespace and newlines removed. */
  function Trimmed(chunk: string): string {
    Trim(chunk, IsWhitespaceOrNewline)
  }

  /** `parser(_:foundCharacters:)` on the state, given the trimmed chunk
      `s`: it is ignored when empty; it becomes the last element's text when
      that has none; otherwise it is appended to that text, after one space
      when an element ended since the last start or space and the text does
      not already end in a space; that space counts as a new start. */
  function AddText(st: TextState, s: string): (r: TextState)
    ensures r.error == st.error
    ensures |r.elements| == |st.elements|
    ensures forall i :: 0 <= i < |st.elements| - 1 ==> r.elements[i] == st.elements[i]
  {
    if s == [] || st.elements == [] then st
    else
      var n := |st.elements| - 1;
      var last := st.elements[n];
      if last.text.None? then
        st.(elements := st.elements[..n] + [last.(text := Some(s))])
      else
        var space := !st.didStartNewElement && !HasSuffix(last.text.value, " ");
        var newText := last.text.value + (if space then " " else "") + s;
        st.(elements := st.elements[..n] + [last.(text := Some(newText))],
            didStartNewElement := st.didStartNewElement || space)
  }

  /** One callback. */
  function Step(st: TextState, ev: ParserEvent): (r: TextState)
    ensures r.error == if ev.Error? then Some(ev.message) else st.error
    ensures |r.elements| >= |st.elements|
    ensures forall i :: 0 <= i < |st.elements| - 1 ==> r.elements[i] == st.elements[i]
  {
    match ev
    case StartElement(name, attributes) =>
      st.(elements := st.elements + [TextElement(name, attributes, None)], didStartNewElement := true)
    case EndElement(_) => st.(didStartNewElement := false)
    case Characters(chunk) => AddText(st, Trimmed(chunk))
    case Error(message) => st.(error := Some(message))
  }

  /** The callbacks of one parse, in order. */
  function Run(st: TextState, events: seq<ParserEvent>): TextState
    decreases events
  {
    if events == [] then st else Run(Step(st, events[0]), events[1..])
  }

  lemma {:induction false} RunSnoc(st: TextState, events: seq<ParserEvent>, ev: ParserEvent)
    ensures Run(st, events + [ev]) == Step(Run(st, events), ev)
    decreases events
  {
    if events == [] {
      assert events + [ev] == [ev];
    } else {
      assert (events + [ev])[0] == events[0];
      assert (events + [ev])[1..] == events[1..] + [ev];
      RunSnoc(Step(st, events[0]), events[1..], ev);
    }
  }

  /** A collected text is never empty and neither starts nor ends with
      whitespace. */
  predicate CleanText(t: string) {
    t != [] && !IsWhitespaceOrNewline(t[0]) && !IsWhitespaceOrNewline(t[|t| - 1])
  }

  predicate CleanTexts(st: TextState) {
    forall i :: 0 <= i < |st.elements| && st.elements[i].text.Some? ==> CleanText(st.elements[i].text.value)
  }

  lemma CleanJoin(t: string, mid: string, u: string)
    requires CleanText(t) && CleanText(u)
    ensures CleanText(t + mid + u)
  {
    assert (t + mid + u)[0] == t[0];
    assert (t + mid + u)[|t + mid + u| - 1] == u[|u| - 1];
  }

  /** Replacing the last element by one with a clean text keeps the texts
      clean. */
  lemma CleanReplaceLast(st: TextState, e: TextElement)
    requires CleanTexts(st) && st.elements != []
    requires e.text.Some? && CleanText(e.text.value)
    ensures CleanTexts(st.(elements := st.elements[..|st.elements| - 1] + [e]))
  {
    var n := |st.elements| - 1;
    var elements := st.elements[..n] + [e];
    forall i | 0 <= i < |elements| && elements[i].text.Some?
      ensures CleanText(elements[i].text.value)
    {
      if i < n {
        assert elements[i] == st.elements[i];
      }
    }
  }

  /** Every callback keeps the collected texts clean. */
  lemma StepKeepsTextsClean(st: TextState, ev: ParserEvent)
    requires CleanTexts(st)
    ensures CleanTexts(Step(st, ev))
  {
    match ev
    case StartElement(name, attributes) =>
      var elements := st.elements + [TextElement(name, attributes, None)];
      assert forall i :: 0 <= i < |st.elements| ==> elements[i] == st.elements[i];
    case EndElement(_) =>
    case Error(_) =>
    case Characters(chunk) =>
      var s := Trimmed(chunk);
      if s != [] && st.elements != [] {
        var n := |st.elements| - 1;
        var last := st.elements[n];
        if last.text.None? {
          assert CleanText(s);
          CleanReplaceLast(st, last.(text := Some(s)));
        } else {
          var space := !st.didStartNewElement && !HasSuffix(last.text.value, " ");
          CleanJoin(last.text.value, if space then " " else "", s);
          var newText := last.text.value + (if space then " " else "") + s;
          CleanReplaceLast(st, last.(text := Some(newText)));
          assert Step(st, ev).elements == st.elements[..n] + [last.(text := Some(newText))];
        }
      }
  }

  lemma {:induction false} RunKeepsTextsClean(st: TextState, events: seq<ParserEvent>)
    requires CleanTexts(st)
    ensures CleanTexts(Run(st, events))
    decreases events
  {
    if events != [] {
      StepKeepsTextsClean(st, events[0]);
      RunKeepsTextsClean(Step(st, events[0]), events[1..]);
    }
  }

  /** While the texts are clean, the last text never ends in a space, so
      the `hasSuffix(" ")` test never prevents the space: the separator is
      decided by the start flag alone. */
  lemma SuffixTestNeverFails(st: TextState)
    requires CleanTexts(st) && st.elements != [] && st.elements[|st.elements| - 1].text.Some?
    ensures !HasSuffix(st.elements[|st.elements| - 1].text.value, " ")
  {
    var t := st.elements[|st.elements| - 1].text.value;
    assert CleanText(t);
    assert t[|t| - 1..] == [t[|t| - 1]];
  }

  /** A chunk of only whitespace and newlines, or one arriving before any
      element, changes nothing. */
  lemma IgnoredChunks(st: TextState, chunk: string)
    requires (forall k :: 0 <= k < |chunk| ==> IsWhitespaceOrNewline(chunk[k])) || st.elements == []
    ensures Step(st, Characters(chunk)) == st
  {
  }

  /** An error, once reported, stays reported: later callbacks may replace
      it but never clear it. */
  lemma {:induction false} ErrorsPersist(st: TextState, events: seq<ParserEvent>)
    requires st.error.Some?
    ensures Run(st, events).error.Some?
    decreases events
  {
    if events != [] {
      ErrorsPersist(Step(st, events[0]), events[1..]);
    }
  }

  function StartCount(events: seq<ParserEvent>): nat {
    if events == [] then 0 else (if events[0].StartElement? then 1 else 0) + StartCount(events[1..])
  }

  /** Replacing the last element by one of the same name and attributes
      keeps the length, names and attributes. */
  lemma ReplaceLastKeepsShape(elements: seq<TextElement>, e: TextElement)
    requires elements != []
    requires e.name == elements[|elements| - 1].name && e.attributes == elements[|elements| - 1].attributes
    ensures |elements[..|elements| - 1] + [e]| == |elements|
    ensures forall i :: 0 <= i < |elements| ==>
              (elements[..|elements| - 1] + [e])[i].name == elements[i].name
              && (elements[..|elements| - 1] + [e])[i].attributes == elements[i].attributes
  {
  }

  /** A chunk changes at most the text of the last element. */
  lemma AddTextKeepsElements(st: TextState, s: string)
    ensures |AddText(st, s).elements| == |st.elements|
    ensures forall i :: 0 <= i < |st.elements| ==>
              AddText(st, s).elements[i].name == st.elements[i].name
              && AddText(st, s).elements[i].attributes == st.elements[i].attributes
  {
    if s != [] && st.elements != [] {
      var last := st.elements[|st.elements| - 1];
      ReplaceLastKeepsShape(st.elements, last.(text := AddText(st, s).elements[|st.elements| - 1].text));
    }
  }

  /** A callback adds an element exactly when it is a start, and keeps the
      names and attributes of the others. */
  lemma StepKeepsElements(st: TextState, ev: ParserEvent)
    ensures |Step(st, ev).elements| == |st.elements| + (if ev.StartElement? then 1 else 0)
    ensures forall i :: 0 <= i < |st.elements| ==>
              Step(st, ev).elements[i].name == st.elements[i].name
              && Step(st, ev).elements[i].attributes == st.elements[i].attributes
  {
    match ev
    case StartElement(name, attributes) =>
      var elements := st.elements + [TextElement(name, attributes, None)];
      assert forall i :: 0 <= i < |st.elements| ==> elements[i] == st.elements[i];
    case EndElement(_) =>
    case Error(_) =>
    case Characters(chunk) =>
      AddTextKeepsElements(st, Trimmed(chunk));
  }

  /** One element per start callback, the earlier ones kept in place (only
      their texts may grow). */
  lemma {:induction false} ElementsPerStart(st: TextState, events: seq<ParserEvent>)
    ensures |Run(st, events).elements| == |st.elements| + StartCount(events)
    ensures forall i :: 0 <= i < |st.elements| ==>
              Run(st, events).elements[i].name == st.elements[i].name
              && Run(st, events).elements[i].attributes == st.elements[i].attributes
    decreases events
  {
    if events != [] {
      StepKeepsElements(st, events[0]);
      ElementsPerStart(Step(st, events[0]), events[1..]);
    }
  }

  /** `plainText`'s last step: the texts that are present and not empty, in
      element order. */
  function Texts(elements: seq<TextElement>): (r: seq<string>)
    ensures forall i :: 0 <= i < |r| ==> r[i] != []
  {
    if elements == [] then []
    else
      var t := elements[0].text;
      (if t.Some? && t.value != [] then [t.value] else []) + Texts(elements[1..])
  }

  /** Those texts joined by single spaces. */
  function JoinedText(elements: seq<TextElement>): string {
    Join(Texts(elements), " ")
  }

  lemma {:induction false} TextsAreClean(st: TextState)
    requires CleanTexts(st)
    decreases |st.elements|
    ensures forall i :: 0 <= i < |Texts(st.elements)| ==> CleanText(Texts(st.elements)[i])
  {
    if st.elements != [] {
      var rest := st.(elements := st.elements[1..]);
      assert CleanTexts(rest) by {
        forall i | 0 <= i < |rest.elements| && rest.elements[i].text.Some?
          ensures CleanText(rest.elements[i].text.value)
        {
          assert rest.elements[i] == st.elements[i + 1];
        }
      }
      TextsAreClean(rest);
    }
  }

  lemma {:induction false} JoinEnds(parts: seq<string>, sep: string)
    requires parts != [] && forall i :: 0 <= i < |parts| ==> parts[i] != []
    ensures Join(parts, sep) != []
    ensures Join(parts, sep)[0] == parts[0][0]
    ensures Join(parts, sep)[|Join(parts, sep)| - 1] == parts[|parts| - 1][|parts[|parts| - 1]| - 1]
  {
    if |parts| > 1 {
      JoinEnds(parts[1..], sep);
    }
  }

  /** The extracted text is empty or neither starts nor ends with
      whitespace. */
  lemma PlainTextIsTrimmed(st: TextState)
    requires CleanTexts(st)
    ensures JoinedText(st.elements) == [] || CleanText(JoinedText(st.elements))
  {
    var texts := Texts(st.elements);
    TextsAreClean(st);
    if texts != [] {
      JoinEnds(texts, " ");
    }
  }

  /** A chunk with nothing to trim is taken as it is. */
  lemma CleanChunkStep(st: TextState, chunk: string)
    requires CleanText(chunk)
    ensures Step(st, Characters(chunk)) == AddText(st, chunk)
  {
    TrimUnchanged(chunk, IsWhitespaceOrNewline);
  }

  /** An element opened and given its first text. */
  lemma FirstChunk(name: string, first: string)
    requires CleanText(first)
    ensures Run(InitialState, [StartElement(name, map[]), Characters(first)])
            == TextState([TextElement(name, map[], Some(first))], true, None)
  {
    CleanChunkStep(Step(InitialState, StartElement(name, map[])), first);
    RunSnoc(InitialState, [StartElement(name, map[])], Characters(first));
    assert [StartElement(name, map[])] + [Characters(first)] == [StartElement(name, map[]), Characters(first)];
  }

  /** The space is inserted only after an element ended: `<b>big</b>world`
      gives `big world`, while two chunks with no end between them are
      glued together. `first` and `second` are chunks with nothing to trim. */
  lemma SpaceOnlyAfterEnd(name: string, first: string, second: string)
    requires CleanText(first) && CleanText(second)
    ensures Run(InitialState, [StartElement(name, map[]), Characters(first), EndElement(name), Characters(second)]).elements
            == [TextElement(name, map[], Some(first + " " + second))]
    ensures Run(InitialState, [StartElement(name, map[]), Characters(first), Characters(second)]).elements
            == [TextElement(name, map[], Some(first + second))]
  {
    var start := [StartElement(name, map[]), Characters(first)];
    var s2 := TextState([TextElement(name, map[], Some(first))], true, None);
    FirstChunk(name, first);
    assert !HasSuffix(first, " ");
    RunSnoc(InitialState, start, EndElement(name));
    var s3 := s2.(didStartNewElement := false);
    RunSnoc(InitialState, start + [EndElement(name)], Characters(second));
    CleanChunkStep(s3, second);
    assert AddText(s3, second).elements == [TextElement(name, map[], Some(first + " " + second))];
    assert start + [EndElement(name)] + [Characters(second)]
           == [StartElement(name, map[]), Characters(first), EndElement(name), Characters(second)];
    RunSnoc(InitialState, start, Characters(second));
    CleanChunkStep(s2, second);
    assert first + "" + second == first + second;
    assert AddText(s2, second).elements == [TextElement(name, map[], Some(first + second))];
    assert start + [Characters(second)] == [StartElement(name, map[]), Characters(first), Characters(second)];
  }
}
