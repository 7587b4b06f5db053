/** The two search shapes the core uses everywhere: Swift's
    `list.filter(p).first` over an array, and a `for … in dictionary.values`
    loop with an early `return` over a dictionary, whose iteration order Swift
    leaves unspecified. */
module Lookups {
  import opened Wrappers

  /** `s.filter(p)`: the elements satisfying `p`, in order. */
  function Filter<T>(s: seq<T>, p: T -> bool): (r: seq<T>)
    ensures |r| <= |s|
    ensures forall i :: 0 <= i < |r| ==> r[i] in s && p(r[i])
    ensures forall i :: 0 <= i < |s| && p(s[i]) ==> s[i] in r
  {
    if s == [] then [] else (if p(s[0]) then [s[0]] else []) + Filter(s[1..], p)
  }

  /** The element at the first index whose element satisfies `p`, or `None`
      if there is no such index. */
  function First<T>(s: seq<T>, p: T -> bool): (r: Option<T>)
    ensures r.None? <==> forall i :: 0 <= i < |s| ==> !p(s[i])
    ensures r.Some? ==> exists i :: 0 <= i < |s| && s[i] == r.value && p(s[i])
                                    && forall j :: 0 <= j < i ==> !p(s[j])
  {
    if s == [] then None
    else if p(s[0]) then Some(s[0])
    else
      var r := First(s[1..], p);
      assert r.Some? ==> exists i :: 1 <= i < |s| && s[i] == r.value && p(s[i])
                                     && forall j :: 1 <= j < i ==> !p(s[j]) by {
        if r.Some? {
          var i :| 0 <= i < |s[1..]| && s[1..][i] == r.value && p(s[1..][i])
                   && forall j :: 0 <= j < i ==> !p(s[1..][j]);
          assert forall j :: 1 <= j < i + 1 ==> s[j] == s[1..][j - 1];
        }
      }
      r
  }

  /** `filter(p).first` is the first match. */
  lemma {:induction false} FirstIsHeadOfFilter<T>(s: seq<T>, p: T -> bool)
    ensures First(s, p) == if Filter(s, p) == [] then None else Some(Filter(s, p)[0])
  {
    if s != [] && !p(s[0]) {
      FirstIsHeadOfFilter(s[1..], p);
    }
  }

  /** The first match in `a + b` is the first match in `a`, if `a` has one,
      and otherwise the first match in `b`. */
  lemma {:induction false} FirstOfConcat<T>(a: seq<T>, b: seq<T>, p: T -> bool)
    ensures First(a + b, p) == if First(a, p).Some? then First(a, p) else First(b, p)
  {
    if a == [] {
      assert a + b == b;
    } else {
      assert (a + b)[0] == a[0];
      assert (a + b)[1..] == a[1..] + b;
      FirstOfConcat(a[1..], b, p);
    }
  }

  /** An element that passes, with none passing before it, is the first match. */
  lemma {:induction false} FirstAt<T>(s: seq<T>, p: T -> bool, i: nat)
    requires i < |s| && p(s[i])
    requires forall j :: 0 <= j < i ==> !p(s[j])
    ensures First(s, p) == Some(s[i])
  {
    if i > 0 {
      assert forall j :: 0 <= j < i - 1 ==> !p(s[1..][j]) by {
        forall j | 0 <= j < i - 1 ensures !p(s[1..][j]) {
          assert s[1..][j] == s[j + 1];
        }
      }
      FirstAt(s[1..], p, i - 1);
    }
  }

  /** Nothing passes, so nothing is kept. */
  lemma {:induction false} FilterNone<T>(s: seq<T>, p: T -> bool)
    requires forall i :: 0 <= i < |s| ==> !p(s[i])
    ensures Filter(s, p) == []
  {
    if s != [] {
      assert forall i :: 0 <= i < |s[1..]| ==> !p(s[1..][i]) by {
        forall i | 0 <= i < |s[1..]| ensures !p(s[1..][i]) {
          assert s[1..][i] == s[i + 1];
        }
      }
      FilterNone(s[1..], p);
    }
  }

  /** Elements that fail `p` in front of a run that satisfies it leave the
      run alone. */
  lemma {:induction false} FilterPrefixDropped<T>(a: seq<T>, s: seq<T>, p: T -> bool)
    requires forall i :: 0 <= i < |a| ==> !p(a[i])
    requires forall i :: 0 <= i < |s| ==> p(s[i])
    ensures Filter(a + s, p) == s
    decreases |a| + |s|
  {
    if a != [] {
      assert (a + s)[1..] == a[1..] + s;
      FilterPrefixDropped(a[1..], s, p);
    } else if s != [] {
      assert a + s == s && [] + s[1..] == s[1..];
      FilterPrefixDropped([], s[1..], p);
      assert s == [s[0]] + s[1..];
    } else {
      assert a + s == [];
    }
  }

  /** Filtering one more element appends it when it passes. */
  lemma {:induction false} FilterSnoc<T>(s: seq<T>, x: T, p: T -> bool)
    ensures Filter(s + [x], p) == Filter(s, p) + (if p(x) then [x] else [])
  {
    if s == [] {
      assert s + [x] == [x];
    } else {
      assert (s + [x])[0] == s[0];
      assert (s + [x])[1..] == s[1..] + [x];
      FilterSnoc(s[1..], x, p);
    }
  }

  /** `values` are what `f` gives for the elements of `s` that pass `p`, in
      order. */
  ghost predicate KeptValues<T, U>(values: seq<U>, s: seq<T>, p: T -> bool, f: T -> Option<U>) {
    var kept := Filter(s, p);
    |values| == |kept| && forall k :: 0 <= k < |kept| ==> f(kept[k]) == Some(values[k])
  }

  /** Prepending an element that passes exactly when `f` gives a value for it. */
  lemma KeptValuesCons<T, U>(x: T, s: seq<T>, p: T -> bool, f: T -> Option<U>, rest: seq<U>)
    requires p(x) <==> f(x).Some?
    requires KeptValues(rest, s, p, f)
    ensures KeptValues((if f(x).Some? then [f(x).value] else []) + rest, [x] + s, p, f)
  {
    assert ([x] + s)[0] == x && ([x] + s)[1..] == s;
    var values := (if f(x).Some? then [f(x).value] else []) + rest;
    var kept := Filter(s, p);
    var all := Filter([x] + s, p);
    assert all == (if p(x) then [x] else []) + kept;
    forall k | 0 <= k < |all|
      ensures f(all[k]) == Some(values[k])
    {
      if p(x) && k == 0 {
        assert all[k] == x;
      } else if p(x) {
        assert all[k] == kept[k - 1] && values[k] == rest[k - 1];
      } else {
        assert all[k] == kept[k] && values[k] == rest[k];
      }
    }
  }

  /** A `for v in m.values { if p(v) { return v } }` loop: some value that
      satisfies `p`, or `None` exactly when no value does. Which of several
      matches comes back depends on the dictionary's iteration order, so the
      choice is left open. */
  method ScanValues<V(==)>(m: map<string, V>, p: V -> bool) returns (r: Option<V>)
    ensures r.Some? ==> r.value in m.Values && p(r.value)
    ensures r.None? ==> forall k :: k in m ==> !p(m[k])
  {
    var unvisited := m.Keys;
    while unvisited != {}
      invariant unvisited <= m.Keys
      invariant forall k :: k in m && k !in unvisited ==> !p(m[k])
      decreases unvisited
    {
      var k :| k in unvisited;
      if p(m[k]) {
        return Some(m[k]);
      }
      unvisited := unvisited - {k};
    }
    return None;
  }
}
