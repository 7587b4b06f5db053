/** The handful of Foundation string operations the decoder relies on, written
    out over `seq<char>`: `components(separatedBy:)`, `split`, `joined`,
    `replacingOccurrences(of: "../", with: "")`, `contains`, `hasSuffix`,
    `trimmingCharacters(in:)` and decimal digit strings. */
module Strings {

  /** `s.contains(sub)`: `sub` occurs somewhere in `s` as a contiguous piece.
      Foundation's search reports an empty `sub` as not found, so the empty
      string is contained in nothing. */
  predicate Contains(s: string, sub: string): (b: bool)
    ensures b <==> sub != [] && exists i :: OccursAt(s, sub, i)
  {
    if sub == [] then false
    else if sub <= s then
      assert OccursAt(s, sub, 0);
      true
    else if s == [] then false
    else
      var b := Contains(s[1..], sub);
      assert forall i :: OccursAt(s, sub, i) ==> i >= 1 && OccursAt(s[1..], sub, i - 1);
      assert forall i :: OccursAt(s[1..], sub, i) ==> OccursAt(s, sub, i + 1);
      b
  }

  /** `sub` is the piece of `s` starting at index `i`. */
  predicate OccursAt(s: string, sub: string, i: int) {
    0 <= i && i + |sub| <= |s| && s[i..i + |sub|] == sub
  }

  /** The empty string is found in no string. */
  lemma EmptyIsNotContained(s: string)
    ensures !Contains(s, "")
  {
  }

  /** `s.hasSuffix(suffix)`: `s` is some string followed by `suffix`. */
  predicate HasSuffix(s: string, suffix: string): (b: bool)
    ensures b <==> exists p :: s == p + suffix
  {
    if |suffix| <= |s| && s[|s| - |suffix|..] == suffix then
      assert s == s[..|s| - |suffix|] + suffix;
      true
    else
      assert forall p :: s == p + suffix ==> s[|p|..] == suffix;
      false
  }

  /** `s.components(separatedBy: [c])`: the pieces between separators, empty
      pieces kept, so there is always at least one piece. */
  function Components(s: string, c: char): (r: seq<string>)
    ensures |r| >= 1
    ensures forall i :: 0 <= i < |r| ==> c !in r[i]
  {
    if s == [] then [""]
    else
      var rest := Components(s[1..], c);
      if s[0] == c then [""] + rest else [[s[0]] + rest[0]] + rest[1..]
  }

  /** The pieces that are not empty, in order. */
  function NonEmpty(pieces: seq<string>): (r: seq<string>)
    ensures forall i :: 0 <= i < |r| ==> r[i] != []
    ensures forall x :: x in r <==> x in pieces && x != []
  {
    if pieces == [] then []
    else (if pieces[0] == [] then [] else [pieces[0]]) + NonEmpty(pieces[1..])
  }

  /** Swift's `s.split { $0 == c }`: like `Components`, but empty pieces are
      omitted (the default `omittingEmptySubsequences: true`). */
  function Split(s: string, c: char): (r: seq<string>)
    ensures forall i :: 0 <= i < |r| ==> r[i] != [] && c !in r[i]
  {
    var r := NonEmpty(Components(s, c));
    assert forall i :: 0 <= i < |r| ==> r[i] in Components(s, c);
    r
  }

  /** `parts.joined(separator: sep)`. */
  function Join(parts: seq<string>, sep: string): (r: string)
    ensures parts == [] ==> r == ""
    ensures parts != [] ==> parts[0] <= r
    ensures |parts| >= 2 ==> parts[0] + sep <= r
  {
    if parts == [] then ""
    else if |parts| == 1 then parts[0]
    else parts[0] + sep + Join(parts[1..], sep)
  }

  /** `s.replacingOccurrences(of: "../", with: "")`: a left-to-right scan that
      drops every non-overlapping occurrence of `../`. */
  function StripParentRefs(s: string): (r: string)
    ensures |r| <= |s|
  {
    if s == [] then []
    else if "../" <= s then StripParentRefs(s[3..])
    else [s[0]] + StripParentRefs(s[1..])
  }

  lemma {:induction false} ComponentsWithoutSeparator(s: string, c: char)
    requires c !in s
    ensures Components(s, c) == [s]
  {
    if s != [] {
      ComponentsWithoutSeparator(s[1..], c);
      assert [s[0]] + s[1..] == s;
    }
  }

  /** Splitting at the first separator: the piece before it comes first, the
      rest is split further. */
  lemma {:induction false} ComponentsAtSeparator(a: string, c: char, b: string)
    requires c !in a
    ensures Components(a + [c] + b, c) == [a] + Components(b, c)
  {
    if a == [] {
      assert a + [c] + b == [c] + b;
      assert ([c] + b)[1..] == b;
    } else {
      var s := a + [c] + b;
      assert s[0] == a[0] && s[1..] == a[1..] + [c] + b;
      ComponentsAtSeparator(a[1..], c, b);
      assert [a[0]] + a[1..] == a;
    }
  }

  /** A string holding the separator has at least two components. */
  lemma {:induction false} ComponentsWithSeparator(s: string, c: char)
    requires c in s
    ensures |Components(s, c)| >= 2
  {
    if s[0] != c {
      assert s == [s[0]] + s[1..];
      ComponentsWithSeparator(s[1..], c);
    }
  }

  lemma JoinSnoc(parts: seq<string>, sep: string, x: string)
    requires parts != []
    ensures Join(parts + [x], sep) == Join(parts, sep) + sep + x
  {
    if |parts| == 1 {
      assert parts + [x] == [parts[0], x];
    } else {
      assert (parts + [x])[1..] == parts[1..] + [x];
      JoinSnoc(parts[1..], sep, x);
    }
  }

  /** Joining the components with their separator gives the string back. */
  lemma {:induction false} JoinComponents(s: string, c: char)
    ensures Join(Components(s, c), [c]) == s
  {
    if s != [] {
      JoinComponents(s[1..], c);
      var rest := Components(s[1..], c);
      if s[0] == c {
        assert Join([""] + rest, [c]) == "" + [c] + Join(rest, [c]);
        assert [s[0]] + s[1..] == s;
      } else {
        var r := [[s[0]] + rest[0]] + rest[1..];
        if |rest| == 1 {
          assert r == [[s[0]] + rest[0]];
          assert Join(rest, [c]) == rest[0];
        } else {
          assert r[1..] == rest[1..];
          assert Join(rest, [c]) == rest[0] + [c] + Join(rest[1..], [c]);
        }
        assert [s[0]] + s[1..] == s;
      }
    }
  }

  /** Some character of `s` is not `c`. */
  predicate HasNonSeparator(s: string, c: char) {
    exists i :: 0 <= i < |s| && s[i] != c
  }

  /** `split` drops leading separators. */
  lemma LeadingSeparatorDropped(s: string, c: char)
    requires s != [] && s[0] == c
    ensures Split(s, c) == Split(s[1..], c)
  {
    assert Components(s, c) == [""] + Components(s[1..], c);
    assert ([""] + Components(s[1..], c))[1..] == Components(s[1..], c);
  }

  /** `split` leaves a piece exactly when some character is not the
      separator. */
  lemma {:induction false} SplitNonEmpty(s: string, c: char)
    ensures Split(s, c) != [] <==> HasNonSeparator(s, c)
  {
    if s != [] {
      if s[0] == c {
        LeadingSeparatorDropped(s, c);
        SplitNonEmpty(s[1..], c);
        if HasNonSeparator(s, c) {
          var i :| 0 <= i < |s| && s[i] != c;
          assert s[1..][i - 1] != c;
        }
        if HasNonSeparator(s[1..], c) {
          var i :| 0 <= i < |s[1..]| && s[1..][i] != c;
          assert s[i + 1] != c;
        }
        assert Split(s, c) != [] <==> HasNonSeparator(s, c);
      } else {
        var pieces := Components(s, c);
        assert pieces[0] == [s[0]] + Components(s[1..], c)[0];
        assert NonEmpty(pieces) == [pieces[0]] + NonEmpty(pieces[1..]);
        assert Split(s, c) == NonEmpty(pieces);
        assert HasNonSeparator(s, c) by {
          assert s[0] != c;
        }
        assert Split(s, c) != [];
      }
    } else {
      assert Components(s, c) == [""];
      assert NonEmpty([""]) == [] + NonEmpty([""][1..]);
    }
  }

  /** `split` on a string without the separator: that string, if not empty. */
  lemma SplitWithoutSeparator(s: string, c: char)
    requires c !in s
    ensures Split(s, c) == if s == [] then [] else [s]
  {
    ComponentsWithoutSeparator(s, c);
    assert NonEmpty([s]) == (if s == [] then [] else [s]) + NonEmpty([]);
  }

  /** `split` at the first separator: the piece before it, unless empty,
      then the pieces of the rest. */
  lemma SplitAtSeparator(a: string, c: char, b: string)
    requires c !in a
    ensures Split(a + [c] + b, c) == (if a == [] then [] else [a]) + Split(b, c)
  {
    ComponentsAtSeparator(a, c, b);
    var pieces := [a] + Components(b, c);
    assert pieces[1..] == Components(b, c);
    assert NonEmpty(pieces) == (if a == [] then [] else [a]) + NonEmpty(pieces[1..]);
  }

  /** Without an occurrence of `../` there is nothing to strip. */
  lemma {:induction false} StripWithoutParentRefs(s: string)
    requires !Contains(s, "../")
    ensures StripParentRefs(s) == s
  {
    if s != [] {
      StripWithoutParentRefs(s[1..]);
      assert [s[0]] + s[1..] == s;
    }
  }

  /** `CharacterSet.whitespaces`: space, tab and the other Unicode space separators. */
  predicate IsBlank(c: char) {
    c == ' ' || c == '\t' || c == '\U{00A0}' || c == '\U{1680}'
    || ('\U{2000}' <= c <= '\U{200A}') || c == '\U{202F}' || c == '\U{205F}' || c == '\U{3000}'
  }

  /** The line terminators: line feed, vertical tab, form feed, carriage
      return, next line, and the line and paragraph separators. */
  predicate IsLineTerminator(c: char) {
    ('\n' <= c <= '\r') || c == '\U{0085}' || c == '\U{2028}' || c == '\U{2029}'
  }

  /** `CharacterSet.whitespacesAndNewlines`: the blanks and the line terminators. */
  predicate IsWhitespaceOrNewline(c: char) {
    IsBlank(c) || IsLineTerminator(c)
  }

  /** `s.trimmingCharacters(in: set)`: the longest piece of `s` that neither
      starts nor ends with a character of the set. */
  function Trim(s: string, inSet: char -> bool): (r: string)
    ensures exists i, j :: 0 <= i <= j <= |s| && r == s[i..j]
                           && (forall k :: 0 <= k < i ==> inSet(s[k]))
                           && (forall k :: j <= k < |s| ==> inSet(s[k]))
    ensures r != [] ==> !inSet(r[0]) && !inSet(r[|r| - 1])
    ensures r == [] ==> forall k :: 0 <= k < |s| ==> inSet(s[k])
  {
    var a := TrimStart(s, inSet);
    var b := TrimEnd(a, inSet);
    assert b == s[|s| - |a|..|s| - |a| + |b|];
    b
  }

  function TrimStart(s: string, inSet: char -> bool): (r: string)
    ensures |r| <= |s| && r == s[|s| - |r|..]
    ensures forall k :: 0 <= k < |s| - |r| ==> inSet(s[k])
    ensures r != [] ==> !inSet(r[0])
  {
    if s == [] || !inSet(s[0]) then s else TrimStart(s[1..], inSet)
  }

  function TrimEnd(s: string, inSet: char -> bool): (r: string)
    ensures |r| <= |s| && r == s[..|r|]
    ensures forall k :: |r| <= k < |s| ==> inSet(s[k])
    ensures r != [] ==> !inSet(r[|r| - 1])
  {
    if s == [] || !inSet(s[|s| - 1]) then s else TrimEnd(s[..|s| - 1], inSet)
  }

  /** A string that neither starts nor ends with a character of the set is
      left as it is. */
  lemma TrimUnchanged(s: string, inSet: char -> bool)
    requires s != [] && !inSet(s[0]) && !inSet(s[|s| - 1])
    ensures Trim(s, inSet) == s
  {
  }

  predicate IsDigit(c: char) {
    '0' <= c <= '9'
  }

  predicate AllDigits(s: string) {
    forall k :: 0 <= k < |s| ==> IsDigit(s[k])
  }

  /** A non-empty run of decimal digits, the regular expression `\d+`. */
  predicate IsDigits(s: string) {
    s != [] && AllDigits(s)
  }

  /** A digit string holds no character other than digits. */
  lemma DigitsExclude(s: string, c: char)
    requires AllDigits(s)
    requires !IsDigit(c)
    ensures c !in s
  {
    assert forall k :: 0 <= k < |s| ==> s[k] != c;
  }

  /** The number a digit string denotes. */
  function DigitsValue(s: string): nat
    requires AllDigits(s)
  {
    if s == [] then 0
    else
      var d := s[|s| - 1] as int - '0' as int;
      assert IsDigit(s[|s| - 1]);
      10 * DigitsValue(s[..|s| - 1]) + d
  }

  function Pow10(n: nat): (r: nat)
    ensures r >= 1
  {
    if n == 0 then 1 else 10 * Pow10(n - 1)
  }
}
