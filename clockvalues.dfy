/** `clockTimeToSeconds`: the SMIL clock values a media overlay uses for
    `clipBegin` and `clipEnd`, read as seconds. The fixed-point forms are
    `H:MM:SS`, `M:SS` and `S` with an optional fraction of one to three
    digits (required in the bare-seconds form); the unit forms are `Nms`,
    `N[.d]h` and `N[.d]min`. Anything else, and the empty string, reads as 0. */
module ClockValues {
  import opened Wrappers
  import opened Strings

  /** `\d{lo,hi}` */
  predicate DigitsBetween(s: string, lo: nat, hi: nat) {
    IsDigits(s) && lo <= |s| <= hi
  }

  /** The digit strings of a fixed-point clock value; an empty hours or
      minutes field stands for a form without it. */
  datatype ClockFields = ClockFields(hours: string, minutes: string, seconds: string, fraction: string)

  predicate WellFormed(f: ClockFields) {
    AllDigits(f.hours) && AllDigits(f.minutes) && AllDigits(f.seconds) && AllDigits(f.fraction)
  }

  /** Which of the five patterns `^\d{1,2}:\d{2}:\d{2}\.\d{1,3}$`,
      `^\d{1,2}:\d{2}:\d{2}$`, `^\d{1,2}:\d{2}\.\d{1,3}$`, `^\d{1,2}:\d{2}$`,
      `^\d{1,2}\.\d{1,3}$` the string matches, with its fields. The patterns
      exclude each other, so the order in which they are tried does not
      matter. */
  function MatchFixedPoint(v: string): (r: Option<ClockFields>)
    ensures r.Some? ==> WellFormed(r.value)
  {
    var fields := Components(v, ':');
    FieldsOf(fields, Components(fields[|fields| - 1], '.'))
  }

  /** The match on the `:`-separated fields and the `.`-separated pieces of
      the last field. */
  function FieldsOf(fields: seq<string>, secondsField: seq<string>): (r: Option<ClockFields>)
    requires |secondsField| >= 1
    ensures r.Some? ==> WellFormed(r.value)
  {
    if |fields| > 3 || |secondsField| > 2 then None
    else
      var seconds := secondsField[0];
      var fraction := if |secondsField| == 2 then secondsField[1] else "";
      var fractionOk := |secondsField| == 1 || DigitsBetween(fraction, 1, 3);
      if |fields| == 3 && DigitsBetween(fields[0], 1, 2) && DigitsBetween(fields[1], 2, 2)
         && DigitsBetween(seconds, 2, 2) && fractionOk then
        Some(ClockFields(fields[0], fields[1], seconds, fraction))
      else if |fields| == 2 && DigitsBetween(fields[0], 1, 2) && DigitsBetween(seconds, 2, 2) && fractionOk then
        Some(ClockFields("", fields[0], seconds, fraction))
      else if |fields| == 1 && |secondsField| == 2 && DigitsBetween(seconds, 1, 2) && fractionOk then
        Some(ClockFields("", "", seconds, fraction))
      else None
  }

  /** The value of `whole.fraction` with the fraction as decimal digits. */
  function DecimalValue(whole: string, fraction: string): (r: real)
    requires AllDigits(whole)
    requires AllDigits(fraction)
    ensures r >= DigitsValue(whole) as real
  {
    DigitsValue(whole) as real + DigitsValue(fraction) as real / Pow10(|fraction|) as real
  }

  /** `\d+(\.\d+)?` */
  predicate IsDecimal(s: string) {
    var parts := Components(s, '.');
    (|parts| == 1 || |parts| == 2) && forall i :: 0 <= i < |parts| ==> IsDigits(parts[i])
  }

  function Decimal(s: string): (r: real)
    requires IsDecimal(s)
    ensures r >= 0.0
  {
    var parts := Components(s, '.');
    if |parts| == 1 then DigitsValue(parts[0]) as real else DecimalValue(parts[0], parts[1])
  }

  /** seconds + minutes*60 + hours*3600 */
  function FieldsValue(f: ClockFields): (r: real)
    requires WellFormed(f)
    ensures r >= 0.0
  {
    DecimalValue(f.seconds, f.fraction) + 60.0 * DigitsValue(f.minutes) as real + 3600.0 * DigitsValue(f.hours) as real
  }

  /** A clock value never reads as a negative number of seconds. */
  function ClockTimeToSeconds(s: string): (seconds: real)
    ensures seconds >= 0.0
  {
    var v := Trim(s, IsBlank);
    if v == [] then 0.0
    else
      var fixedPoint := MatchFixedPoint(v);
      if fixedPoint.Some? then FieldsValue(fixedPoint.value)
      else UnitValue(v)
  }

  /** What ICU's `$` lets through before the end of the input: one final
      line terminator, `\r\n` counting as one. */
  predicate FinalLineEnd(e: string) {
    e == "" || e == "\r\n" || (|e| == 1 && IsLineTerminator(e[0]))
  }

  /** The text `$` sees before the end: `v` without one final line
      terminator. */
  function WithoutFinalLineEnd(v: string): (r: string)
    ensures r <= v && FinalLineEnd(v[|r|..])
  {
    if HasSuffix(v, "\r\n") then v[..|v| - 2]
    else if v != [] && IsLineTerminator(v[|v| - 1]) then v[..|v| - 1]
    else v
  }

  /** The unit forms `^\d+ms$`, `^\d+(\.\d+)?h$` and `^\d+(\.\d+)?min$`,
      tried in that order; 0 for anything else. `$` also matches before a
      final line terminator, which the trimming of blanks leaves in place,
      and `doubleValue` reads the leading number regardless of it. */
  function UnitValue(s: string): (seconds: real)
    ensures seconds >= 0.0
  {
    UnitsOf(WithoutFinalLineEnd(s))
  }

  /** The three unit tests on the text before the end. */
  function UnitsOf(v: string): (seconds: real)
    ensures seconds >= 0.0
  {
    if HasSuffix(v, "ms") && IsDigits(v[..|v| - 2]) then DigitsValue(v[..|v| - 2]) as real / 1000.0
    else if HasSuffix(v, "h") && IsDecimal(v[..|v| - 1]) then Decimal(v[..|v| - 1]) * 3600.0
    else if HasSuffix(v, "min") && IsDecimal(v[..|v| - 3]) then Decimal(v[..|v| - 3]) * 60.0
    else 0.0
  }

  /** The text of a fixed-point clock value with the given fields. */
  function Render(f: ClockFields): string {
    (if f.hours != [] then f.hours + ":" else "")
    + (if f.minutes != [] then f.minutes + ":" else "")
    + f.seconds
    + (if f.fraction != [] then "." + f.fraction else "")
  }

  /** The fields of one of the five fixed-point forms. */
  predicate IsFixedPointForm(f: ClockFields) {
    && (f.fraction == [] || DigitsBetween(f.fraction, 1, 3))
    && if f.hours != [] then
         DigitsBetween(f.hours, 1, 2) && DigitsBetween(f.minutes, 2, 2) && DigitsBetween(f.seconds, 2, 2)
       else if f.minutes != [] then
         DigitsBetween(f.minutes, 1, 2) && DigitsBetween(f.seconds, 2, 2)
       else
         DigitsBetween(f.seconds, 1, 2) && f.fraction != []
  }

  /** The matched fields put back together are the last field. */
  lemma {:induction false} SecondsFieldSound(fields: seq<string>, secondsField: seq<string>)
    requires |secondsField| >= 1 && FieldsOf(fields, secondsField).Some?
    requires Join(secondsField, ".") == fields[|fields| - 1]
    ensures var f := FieldsOf(fields, secondsField).value;
            fields[|fields| - 1] == f.seconds + (if f.fraction != [] then "." + f.fraction else "")
  {
    if |secondsField| == 2 {
      assert secondsField[1..] == [secondsField[1]];
    }
  }

  /** What a successful match on the pieces says about them. */
  lemma FieldsOfSound(fields: seq<string>, secondsField: seq<string>)
    requires |secondsField| >= 1 && FieldsOf(fields, secondsField).Some?
    ensures var f := FieldsOf(fields, secondsField).value;
            && IsFixedPointForm(f)
            && 1 <= |fields| <= 3
            && (|fields| == 3 ==> f.hours == fields[0] && f.minutes == fields[1])
            && (|fields| == 2 ==> f.hours == [] && f.minutes == fields[0])
            && (|fields| == 1 ==> f.hours == [] && f.minutes == [])
  {
  }

  /** Every string the fixed-point patterns accept is one of the five forms,
      written out from the fields the match returns. */
  lemma {:induction false} MatchFixedPointSound(v: string)
    requires MatchFixedPoint(v).Some?
    ensures IsFixedPointForm(MatchFixedPoint(v).value)
    ensures Render(MatchFixedPoint(v).value) == v
  {
    var fields := Components(v, ':');
    var secondsField := Components(fields[|fields| - 1], '.');
    var f := FieldsOf(fields, secondsField).value;
    assert f == MatchFixedPoint(v).value;
    FieldsOfSound(fields, secondsField);
    JoinComponents(v, ':');
    JoinComponents(fields[|fields| - 1], '.');
    SecondsFieldSound(fields, secondsField);
    RenderFields(f, fields);
  }

  lemma RenderFields(f: ClockFields, fields: seq<string>)
    requires 1 <= |fields| <= 3
    requires fields[|fields| - 1] == f.seconds + (if f.fraction != [] then "." + f.fraction else "")
    requires |fields| == 3 ==> f.hours == fields[0] && f.minutes == fields[1] && f.hours != [] && f.minutes != []
    requires |fields| == 2 ==> f.hours == [] && f.minutes == fields[0] && f.minutes != []
    requires |fields| == 1 ==> f.hours == [] && f.minutes == []
    ensures Render(f) == Join(fields, ":")
  {
    JoinUpToThree(fields, ":");
  }

  lemma JoinUpToThree(fields: seq<string>, sep: string)
    requires 1 <= |fields| <= 3
    ensures |fields| == 1 ==> Join(fields, sep) == fields[0]
    ensures |fields| == 2 ==> Join(fields, sep) == fields[0] + sep + fields[1]
    ensures |fields| == 3 ==> Join(fields, sep) == fields[0] + sep + (fields[1] + sep + fields[2])
  {
    if |fields| == 3 {
      assert fields[1..][1..] == [fields[2]];
    } else if |fields| == 2 {
      assert fields[1..] == [fields[1]];
    }
  }

  /** The last character of a fixed-point form is a digit. */
  lemma FixedPointEndsInDigit(v: string)
    requires MatchFixedPoint(v).Some?
    ensures v != [] && IsDigit(v[|v| - 1])
  {
    MatchFixedPointSound(v);
    var f := MatchFixedPoint(v).value;
    var tail := f.seconds + (if f.fraction != [] then "." + f.fraction else "");
    if f.fraction != [] {
      assert tail[|tail| - 1] == f.fraction[|f.fraction| - 1];
    } else {
      assert tail[|tail| - 1] == f.seconds[|f.seconds| - 1];
    }
    assert v[|v| - 1] == tail[|tail| - 1];
  }

  /** The text after the last `:` of a rendered form. */
  function SecondsText(f: ClockFields): string {
    f.seconds + (if f.fraction != [] then "." + f.fraction else "")
  }

  /** The `:`-separated fields of a rendered form. */
  function FieldList(f: ClockFields): seq<string> {
    (if f.hours != [] then [f.hours] else []) + (if f.minutes != [] then [f.minutes] else []) + [SecondsText(f)]
  }

  lemma {:induction false} RenderedFields(f: ClockFields)
    requires IsFixedPointForm(f)
    ensures Components(Render(f), ':') == FieldList(f)
  {
    DigitsExclude(f.hours, ':');
    DigitsExclude(f.minutes, ':');
    DigitsExclude(f.seconds, ':');
    DigitsExclude(f.fraction, ':');
    RenderedFieldsOf(f);
  }

  /** The split of a rendering at its `:`s, given that no field holds one. */
  lemma {:induction false} RenderedFieldsOf(f: ClockFields)
    requires ':' !in f.hours && ':' !in f.minutes && ':' !in f.seconds && ':' !in f.fraction
    requires f.hours != [] ==> f.minutes != []
    ensures Components(Render(f), ':') == FieldList(f)
  {
    var tail := SecondsText(f);
    assert ':' !in tail;
    RenderShape(f);
    if f.hours != [] {
      ThreeComponents(f.hours, f.minutes, tail);
    } else if f.minutes != [] {
      TwoComponents(f.minutes, tail);
    } else {
      ComponentsWithoutSeparator(tail, ':');
    }
  }

  /** A rendering is its fields with a `:` after each but the last. */
  lemma RenderShape(f: ClockFields)
    requires f.hours != [] ==> f.minutes != []
    ensures f.hours != [] ==> Render(f) == f.hours + [':'] + (f.minutes + [':'] + SecondsText(f))
                              && FieldList(f) == [f.hours, f.minutes, SecondsText(f)]
    ensures f.hours == [] && f.minutes != [] ==> Render(f) == f.minutes + [':'] + SecondsText(f)
                                                 && FieldList(f) == [f.minutes, SecondsText(f)]
    ensures f.hours == [] && f.minutes == [] ==> Render(f) == SecondsText(f) && FieldList(f) == [SecondsText(f)]
  {
  }

  lemma TwoComponents(m: string, t: string)
    requires ':' !in m && ':' !in t
    ensures Components(m + [':'] + t, ':') == [m, t]
  {
    ComponentsAtSeparator(m, ':', t);
    ComponentsWithoutSeparator(t, ':');
  }

  lemma ThreeComponents(h: string, m: string, t: string)
    requires ':' !in h && ':' !in m && ':' !in t
    ensures Components(h + [':'] + (m + [':'] + t), ':') == [h, m, t]
  {
    ComponentsAtSeparator(h, ':', m + [':'] + t);
    TwoComponents(m, t);
  }

  lemma {:induction false} RenderedSecondsField(f: ClockFields)
    requires IsFixedPointForm(f)
    ensures Components(SecondsText(f), '.') == if f.fraction != [] then [f.seconds, f.fraction] else [f.seconds]
  {
    DigitsExclude(f.seconds, '.');
    DigitsExclude(f.fraction, '.');
    if f.fraction != [] {
      assert SecondsText(f) == f.seconds + ['.'] + f.fraction;
      ComponentsAtSeparator(f.seconds, '.', f.fraction);
      ComponentsWithoutSeparator(f.fraction, '.');
    } else {
      assert SecondsText(f) == f.seconds;
      ComponentsWithoutSeparator(f.seconds, '.');
    }
  }

  lemma FieldsOfComplete(f: ClockFields)
    requires IsFixedPointForm(f)
    ensures FieldsOf(FieldList(f), if f.fraction != [] then [f.seconds, f.fraction] else [f.seconds]) == Some(f)
  {
  }

  /** Each of the five forms is recognised with exactly its fields, and reads
      as seconds + 60 * minutes + 3600 * hours, the fraction as decimal
      seconds. */
  lemma {:induction false} FixedPointRoundTrip(f: ClockFields)
    requires IsFixedPointForm(f)
    ensures MatchFixedPoint(Render(f)) == Some(f)
    ensures ClockTimeToSeconds(Render(f)) == FieldsValue(f)
  {
    RenderedMatches(f);
    RenderedEdges(f);
    TrimUnchanged(Render(f), IsBlank);
  }

  lemma RenderedMatches(f: ClockFields)
    requires IsFixedPointForm(f)
    ensures MatchFixedPoint(Render(f)) == Some(f)
  {
    RenderedFields(f);
    var fields := FieldList(f);
    assert fields[|fields| - 1] == SecondsText(f);
    RenderedSecondsField(f);
    FieldsOfComplete(f);
  }

  lemma RenderedEdges(f: ClockFields)
    requires IsFixedPointForm(f)
    ensures Render(f) != [] && IsDigit(Render(f)[0]) && IsDigit(Render(f)[|Render(f)| - 1])
  {
    var tail := SecondsText(f);
    assert tail[0] == f.seconds[0];
    if f.fraction != [] {
      assert tail[|tail| - 1] == f.fraction[|f.fraction| - 1];
    } else {
      assert tail[|tail| - 1] == f.seconds[|f.seconds| - 1];
    }
    assert Render(f)[|Render(f)| - 1] == tail[|tail| - 1];
  }

  /** `N` or `N.d`, the number of a unit-suffixed clock value. */
  function DecimalText(whole: string, fraction: string): string {
    if fraction == [] then whole else whole + "." + fraction
  }

  lemma {:induction false} DecimalTextValue(whole: string, fraction: string)
    requires IsDigits(whole) && AllDigits(fraction)
    ensures IsDecimal(DecimalText(whole, fraction))
    ensures Decimal(DecimalText(whole, fraction)) == DecimalValue(whole, fraction)
    ensures ':' !in DecimalText(whole, fraction)
  {
    DigitsExclude(whole, '.');
    DigitsExclude(fraction, '.');
    DigitsExclude(whole, ':');
    DigitsExclude(fraction, ':');
    if fraction == [] {
      ComponentsWithoutSeparator(whole, '.');
    } else {
      assert DecimalText(whole, fraction) == whole + ['.'] + fraction;
      ComponentsAtSeparator(whole, '.', fraction);
      ComponentsWithoutSeparator(fraction, '.');
    }
  }

  /** A string ending in anything but a digit (a unit letter, a line
      terminator) is none of the fixed-point forms. */
  lemma {:induction false} UnitFormIsNotFixedPoint(v: string)
    requires v != [] && !IsDigit(v[|v| - 1])
    ensures MatchFixedPoint(v).None?
  {
    if MatchFixedPoint(v).Some? {
      FixedPointEndsInDigit(v);
    }
  }

  /** A unit-suffixed value followed by at most one final line terminator
      reaches the unit tests as the value itself. */
  lemma {:induction false} UnitFormReachesUnitTests(x: string, ending: string)
    requires x != [] && IsDigit(x[0]) && 'a' <= x[|x| - 1] <= 'z'
    requires FinalLineEnd(ending)
    ensures ClockTimeToSeconds(x + ending) == UnitValue(x + ending)
    ensures WithoutFinalLineEnd(x + ending) == x
  {
    var v := x + ending;
    assert v[0] == x[0];
    assert !IsBlank(v[|v| - 1]) && !IsDigit(v[|v| - 1]) by {
      if ending == "" {
        assert v[|v| - 1] == x[|x| - 1];
      } else {
        assert v[|v| - 1] == ending[|ending| - 1];
      }
    }
    TrimUnchanged(v, IsBlank);
    UnitFormIsNotFixedPoint(v);
    FinalLineEndStripped(x, ending);
  }

  /** Stripping the final line end of `x + ending` gives back `x`. */
  lemma FinalLineEndStripped(x: string, ending: string)
    requires x != [] && 'a' <= x[|x| - 1] <= 'z'
    requires FinalLineEnd(ending)
    ensures WithoutFinalLineEnd(x + ending) == x
  {
    var v := x + ending;
    if ending == "" {
      assert v == x;
      assert !HasSuffix(v, "\r\n");
    } else {
      assert v[..|x|] == x;
      if ending == "\r\n" {
        assert v[|v| - 2..] == "\r\n";
      } else {
        assert v[|v| - 2] == x[|x| - 1];
        assert !HasSuffix(v, "\r\n");
      }
    }
  }

  /** `Nms` reads as N/1000 seconds, also before a final line terminator. */
  lemma {:induction false} MillisecondsForm(n: string, ending: string)
    requires IsDigits(n) && FinalLineEnd(ending)
    ensures ClockTimeToSeconds(n + "ms" + ending) == DigitsValue(n) as real / 1000.0
  {
    var x := n + "ms";
    assert x[0] == n[0] && x[|x| - 1] == 's';
    UnitFormReachesUnitTests(x, ending);
    MillisecondsUnit(n);
  }

  /** `N[.d]h` reads as N.d hours, also before a final line terminator. */
  lemma {:induction false} HoursForm(whole: string, fraction: string, ending: string)
    requires IsDigits(whole) && AllDigits(fraction) && FinalLineEnd(ending)
    ensures ClockTimeToSeconds(DecimalText(whole, fraction) + "h" + ending) == DecimalValue(whole, fraction) * 3600.0
  {
    var number := DecimalText(whole, fraction);
    var x := number + "h";
    DecimalTextValue(whole, fraction);
    assert x[0] == number[0] == whole[0] && x[|x| - 1] == 'h';
    UnitFormReachesUnitTests(x, ending);
    HoursUnit(number);
  }

  /** `N[.d]min` reads as N.d minutes, also before a final line terminator. */
  lemma {:induction false} MinutesForm(whole: string, fraction: string, ending: string)
    requires IsDigits(whole) && AllDigits(fraction) && FinalLineEnd(ending)
    ensures ClockTimeToSeconds(DecimalText(whole, fraction) + "min" + ending) == DecimalValue(whole, fraction) * 60.0
  {
    var number := DecimalText(whole, fraction);
    var x := number + "min";
    DecimalTextValue(whole, fraction);
    assert x[0] == number[0] == whole[0] && x[|x| - 1] == 'n';
    UnitFormReachesUnitTests(x, ending);
    MinutesUnit(number);
  }

  lemma MillisecondsUnit(n: string)
    requires IsDigits(n)
    ensures UnitsOf(n + "ms") == DigitsValue(n) as real / 1000.0
  {
    var x := n + "ms";
    assert x[|x| - 2..] == "ms" && x[..|x| - 2] == n;
  }

  lemma HoursUnit(number: string)
    requires IsDecimal(number) && ':' !in number && number != [] && IsDigit(number[0])
    ensures UnitsOf(number + "h") == Decimal(number) * 3600.0
  {
    var x := number + "h";
    assert x[|x| - 1] == 'h' && x[..|x| - 1] == number;
    assert !HasSuffix(x, "ms");
  }

  lemma MinutesUnit(number: string)
    requires IsDecimal(number) && ':' !in number && number != [] && IsDigit(number[0])
    ensures UnitsOf(number + "min") == Decimal(number) * 60.0
  {
    var x := number + "min";
    assert x[|x| - 1] == 'n' && x[..|x| - 3] == number;
    assert !HasSuffix(x, "ms") && !HasSuffix(x, "h");
  }

  /** Two line terminators are more than `$` lets through: `12ms` followed
      by two newlines reads as 0. */
  lemma TwoLineEndsReadAsZero()
    ensures ClockTimeToSeconds("12ms\n\n") == 0.0
  {
    var v := "12ms\n\n";
    assert v[0] == '1' && v[|v| - 1] == '\n';
    TrimUnchanged(v, IsBlank);
    UnitFormIsNotFixedPoint(v);
    assert WithoutFinalLineEnd(v) == "12ms\n";
    assert !HasSuffix("12ms\n", "ms") && !HasSuffix("12ms\n", "h") && !HasSuffix("12ms\n", "min");
  }

  /** A blank or empty string reads as 0. */
  lemma EmptyClockValue(s: string)
    requires forall k :: 0 <= k < |s| ==> IsBlank(s[k])
    ensures ClockTimeToSeconds(s) == 0.0
  {
  }

  /** A bare number and a number of seconds with an `s` match no form and
      read as 0. */
  lemma BareNumbersReadAsZero()
    ensures ClockTimeToSeconds("12") == 0.0
    ensures ClockTimeToSeconds("12s") == 0.0
  {
    BareNumberReadsAsZero("12");
    BareNumberReadsAsZero("12s");
  }

  lemma {:induction false} BareNumberReadsAsZero(v: string)
    requires v == "12" || v == "12s"
    ensures ClockTimeToSeconds(v) == 0.0
  {
    assert ':' !in v && '.' !in v;
    ComponentsWithoutSeparator(v, ':');
    ComponentsWithoutSeparator(v, '.');
    assert MatchFixedPoint(v) == None;
    TrimUnchanged(v, IsBlank);
    assert !IsLineTerminator(v[|v| - 1]);
    assert WithoutFinalLineEnd(v) == v;
    assert !HasSuffix(v, "ms") && !HasSuffix(v, "h") && !HasSuffix(v, "min");
    assert UnitsOf(v) == 0.0;
  }

  /** The clip times of a typical overlay. */
  lemma ClipTimeExamples()
    ensures ClockTimeToSeconds("00:00:01.500") == 1.5
    ensures ClockTimeToSeconds("00:00:03.000") == 3.0
  {
    ClipTimeExample("00:00:01.500", ClockFields("00", "00", "01", "500"), 1.5);
    ClipTimeExample("00:00:03.000", ClockFields("00", "00", "03", "000"), 3.0);
  }

  lemma {:induction false} ClipTimeExample(v: string, f: ClockFields, seconds: real)
    requires || (v == "00:00:01.500" && f == ClockFields("00", "00", "01", "500") && seconds == 1.5)
             || (v == "00:00:03.000" && f == ClockFields("00", "00", "03", "000") && seconds == 3.0)
    ensures ClockTimeToSeconds(v) == seconds
  {
    ExampleFields(f, seconds);
    assert Render(f) == v;
    FixedPointRoundTrip(f);
  }

  lemma ExampleFields(f: ClockFields, seconds: real)
    requires || (f == ClockFields("00", "00", "01", "500") && seconds == 1.5)
             || (f == ClockFields("00", "00", "03", "000") && seconds == 3.0)
    ensures IsFixedPointForm(f) && FieldsValue(f) == seconds
  {
    ExampleDigits();
  }

  lemma ExampleDigits()
    ensures DigitsValue("00") == 0 && DigitsValue("000") == 0
    ensures DigitsValue("01") == 1 && DigitsValue("03") == 3 && DigitsValue("500") == 500
    ensures Pow10(3) == 1000
  {
    assert DigitsValue("0") == 0 && DigitsValue("00") == 0 && DigitsValue("000") == 0;
    assert DigitsValue("1") == 1 && DigitsValue("01") == 1 && DigitsValue("3") == 3 && DigitsValue("03") == 3;
    assert DigitsValue("5") == 5 && DigitsValue("50") == 50 && DigitsValue("500") == 500;
  }
}
