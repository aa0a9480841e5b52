/** Order-preserving filtering and the stable sort used by the pipelines. */
module Sequences {

  /** The elements of `s` that satisfy `p`, in their original order
      (a boolean mask applied to a DataFrame). */
  function Filter<T>(s: seq<T>, p: T -> bool): (r: seq<T>)
    ensures |r| <= |s|
    ensures forall x <- r :: x in s && p(x)
    ensures forall x <- s :: p(x) ==> x in r
    ensures multiset(r) <= multiset(s)
  {
    if s == [] then []
    else
      assert s == [s[0]] + s[1..];
      (if p(s[0]) then [s[0]] else []) + Filter(s[1..], p)
  }

  lemma {:induction false} FilterAll<T>(s: seq<T>, p: T -> bool)
    requires forall x :: x in s ==> p(x)
    ensures Filter(s, p) == s
  {
    if s != [] {
      FilterAll(s[1..], p);
    }
  }

  lemma {:induction false} FilterNone<T>(s: seq<T>, p: T -> bool)
    requires forall x :: x in s ==> !p(x)
    ensures Filter(s, p) == []
  {
    if s != [] {
      FilterNone(s[1..], p);
    }
  }

  lemma {:induction false} FilterAppend<T>(a: seq<T>, b: seq<T>, p: T -> bool)
    ensures Filter(a + b, p) == Filter(a, p) + Filter(b, p)
  {
    if a == [] {
      assert a + b == b;
    } else {
      assert (a + b)[1..] == a[1..] + b;
      FilterAppend(a[1..], b, p);
    }
  }

  /** The positions of `s` whose element satisfies `p`, ascending. */
  function Selected<T>(s: seq<T>, p: T -> bool): seq<nat>
    decreases |s|
  {
    if s == [] then []
    else Selected(s[..|s| - 1], p) + (if p(s[|s| - 1]) then [|s| - 1] else [])
  }

  /** The selected positions are in range, ascending, and exactly those
      whose element satisfies `p`. */
  lemma {:induction false} SelectedPositions<T>(s: seq<T>, p: T -> bool)
    ensures var ix := Selected(s, p);
      && (forall k :: 0 <= k < |ix| ==> ix[k] < |s|)
      && (forall k, l :: 0 <= k < l < |ix| ==> ix[k] < ix[l])
      && (forall i :: 0 <= i < |s| ==> (i in ix <==> p(s[i])))
    decreases |s|
  {
    if s != [] {
      var n := |s| - 1;
      var init := s[..n];
      SelectedPositions(init, p);
      var ix0 := Selected(init, p);
      var tix := if p(s[n]) then [n] else [];
      var ix := Selected(s, p);
      assert ix == ix0 + tix;
      forall k, l | 0 <= k < l < |ix| ensures ix[k] < ix[l] {
        if l < |ix0| {
          assert ix[k] == ix0[k] && ix[l] == ix0[l];
        } else {
          assert ix[k] == ix0[k] < n;
        }
      }
      forall i | 0 <= i < |s| ensures i in ix <==> p(s[i]) {
        if i < n {
          assert init[i] == s[i];
          assert i in ix <==> i in ix0;
        }
      }
    }
  }

  lemma {:induction false} FilterAtSelected<T>(s: seq<T>, p: T -> bool)
    ensures var ix, r := Selected(s, p), Filter(s, p);
      |ix| == |r| && forall k :: 0 <= k < |ix| ==> ix[k] < |s| && r[k] == s[ix[k]]
    decreases |s|
  {
    if s != [] {
      var n := |s| - 1;
      var init, last := s[..n], s[n];
      assert s == init + [last];
      FilterAppend(init, [last], p);
      FilterAtSelected(init, p);
      var tail := if p(last) then [last] else [];
      var tix := if p(last) then [n] else [];
      assert Filter([last], p) == tail + Filter([], p);
      var ix0, r0 := Selected(init, p), Filter(init, p);
      var ix, r := Selected(s, p), Filter(s, p);
      assert ix == ix0 + tix && r == r0 + tail;
      assert |ix0| == |r0| && |tix| == |tail|;
      forall k | 0 <= k < |ix| ensures ix[k] < |s| && r[k] == s[ix[k]] {
        if k < |ix0| {
          assert ix[k] == ix0[k] && r[k] == r0[k] && init[ix0[k]] == s[ix0[k]];
        }
      }
    }
  }

  /** `Filter` keeps exactly the elements that satisfy `p`, every
      occurrence of them, in their original order: its `k`th element is the
      element at the `k`th selected position. */
  lemma FilterSelected<T>(s: seq<T>, p: T -> bool)
    ensures var ix, r := Selected(s, p), Filter(s, p);
      && |ix| == |r|
      && (forall k :: 0 <= k < |ix| ==> ix[k] < |s| && r[k] == s[ix[k]])
      && (forall k, l :: 0 <= k < l < |ix| ==> ix[k] < ix[l])
      && (forall i :: 0 <= i < |s| ==> (i in ix <==> p(s[i])))
  {
    FilterAtSelected(s, p);
    SelectedPositions(s, p);
  }

  lemma AppendAssociative<T>(x: seq<T>, y: seq<T>, z: seq<T>)
    ensures x + (y + z) == (x + y) + z
  {
  }

  /** Index of the first occurrence of `x` in `s`. */
  function Position<T(==)>(s: seq<T>, x: T): (i: nat)
    requires x in s
    ensures i < |s| && s[i] == x && x !in s[..i]
  {
    if s[0] == x then 0 else 1 + Position(s[1..], x)
  }

  // ------------------------------------------------------------- sorting

  /** `le` is a total preorder: every two elements compare, transitively. */
  ghost predicate TotalPreorder<T(!new)>(le: (T, T) -> bool) {
    && (forall a, b :: le(a, b) || le(b, a))
    && (forall a, b, c :: le(a, b) && le(b, c) ==> le(a, c))
  }

  predicate Sorted<T>(s: seq<T>, le: (T, T) -> bool) {
    forall i, j :: 0 <= i < j < |s| ==> le(s[i], s[j])
  }

  /** Places `x` in front of the first element it may precede, so that it
      lands before every element that compares equal to it. */
  function Insert<T>(x: T, s: seq<T>, le: (T, T) -> bool): (r: seq<T>)
    ensures multiset(r) == multiset(s) + multiset{x}
    ensures |r| == |s| + 1 && forall y <- r :: y == x || y in s
  {
    if s == [] then [x]
    else if le(x, s[0]) then [x] + s
    else
      assert s == [s[0]] + s[1..];
      [s[0]] + Insert(x, s[1..], le)
  }

  /** Stable insertion sort: the result is a permutation of the input. */
  function Sort<T>(s: seq<T>, le: (T, T) -> bool): (r: seq<T>)
    ensures multiset(r) == multiset(s)
    ensures |r| == |s|
  {
    if s == [] then []
    else
      assert s == [s[0]] + s[1..];
      Insert(s[0], Sort(s[1..], le), le)
  }

  lemma {:induction false} InsertSorted<T(!new)>(x: T, s: seq<T>, le: (T, T) -> bool)
    requires TotalPreorder(le) && Sorted(s, le)
    ensures Sorted(Insert(x, s, le), le)
  {
    if s != [] && !le(x, s[0]) {
      InsertSorted(x, s[1..], le);
      var r := Insert(x, s, le);
      var t := Insert(x, s[1..], le);
      assert r == [s[0]] + t;
      assert le(s[0], x);
      forall j | 1 <= j < |r| ensures le(r[0], r[j]) {
        assert r[j] == t[j - 1] && t[j - 1] in t;
        if r[j] != x {
          assert r[j] in s[1..];
          var k :| 0 <= k < |s[1..]| && s[1..][k] == r[j];
          assert s[1..][k] == s[k + 1];
        }
      }
    }
  }

  /** The output of `Sort` is ordered by `le`. */
  lemma {:induction false} SortSorted<T(!new)>(s: seq<T>, le: (T, T) -> bool)
    requires TotalPreorder(le)
    ensures Sorted(Sort(s, le), le)
  {
    if s != [] {
      SortSorted(s[1..], le);
      InsertSorted(s[0], Sort(s[1..], le), le);
    }
  }

  predicate Equivalent<T>(a: T, b: T, le: (T, T) -> bool) {
    le(a, b) && le(b, a)
  }

  /** The elements of `s` that compare equal to `x`, in order. */
  function Equivalents<T>(s: seq<T>, x: T, le: (T, T) -> bool): seq<T> {
    if s == [] then []
    else (if Equivalent(x, s[0], le) then [s[0]] else []) + Equivalents(s[1..], x, le)
  }

  lemma {:induction false} EquivalentsAppend<T>(a: seq<T>, b: seq<T>, x: T, le: (T, T) -> bool)
    ensures Equivalents(a + b, x, le) == Equivalents(a, x, le) + Equivalents(b, x, le)
  {
    if a == [] {
      assert a + b == b;
    } else {
      assert (a + b)[1..] == a[1..] + b;
      EquivalentsAppend(a[1..], b, x, le);
    }
  }

  lemma {:induction false} InsertStable<T(!new)>(y: T, s: seq<T>, x: T, le: (T, T) -> bool)
    requires TotalPreorder(le) && Sorted(s, le)
    ensures Equivalents(Insert(y, s, le), x, le)
         == (if Equivalent(x, y, le) then [y] else []) + Equivalents(s, x, le)
  {
    var ey := if Equivalent(x, y, le) then [y] else [];
    if s == [] {
      assert Equivalents([y], x, le) == ey + Equivalents([], x, le);
    } else if le(y, s[0]) {
      assert Insert(y, s, le) == [y] + s;
      assert Equivalents([y] + s, x, le) == ey + Equivalents(s, x, le);
    } else {
      var t := Insert(y, s[1..], le);
      var e0 := if Equivalent(x, s[0], le) then [s[0]] else [];
      InsertStable(y, s[1..], x, le);
      assert Insert(y, s, le) == [s[0]] + t;
      assert Equivalents([s[0]] + t, x, le) == e0 + Equivalents(t, x, le);
      assert Equivalents(s, x, le) == e0 + Equivalents(s[1..], x, le);
      if Equivalent(x, y, le) && Equivalent(x, s[0], le) {
        assert false;
      }
      assert e0 == [] || ey == [];
    }
  }

  /** `Sort` is stable: elements that compare equal keep their relative
      order. */
  lemma {:induction false} SortStable<T(!new)>(s: seq<T>, x: T, le: (T, T) -> bool)
    requires TotalPreorder(le)
    ensures Equivalents(Sort(s, le), x, le) == Equivalents(s, x, le)
  {
    if s != [] {
      SortStable(s[1..], x, le);
      SortSorted(s[1..], le);
      InsertStable(s[0], Sort(s[1..], le), x, le);
      EquivalentsAppend([s[0]], s[1..], x, le);
      assert [s[0]] + s[1..] == s;
    }
  }
}
