/**
 * `Array.prototype.sort` with a comparator `(a, b) => key(a) - key(b)` (or the
 * reverse), as the pages use it on dates. The sort is stable. A comparator
 * result of NaN, from an invalid date, is read as 0. Once some element has no
 * key, the comparator is no longer a consistent order and ECMAScript leaves the
 * result implementation-defined; this model fixes one admissible order, that of
 * an insertion sort walking left from the end of the sorted prefix, in which
 * an element without a key never moves past another one. When every element
 * has a key, the order is the one every conforming engine produces.
 */
module Sorting {
  import opened Wrappers

  /** The comparator is positive for (a, b): both keys are numbers and a belongs after b. */
  predicate Greater<T>(key: T -> Option<int>, descending: bool, a: T, b: T) {
    key(a).Some? && key(b).Some? &&
    (if descending then key(a).value < key(b).value else key(a).value > key(b).value)
  }

  /** `x` placed into the sorted `t`: after every element it does not belong before. */
  function Insert<T>(t: seq<T>, x: T, key: T -> Option<int>, descending: bool): (r: seq<T>)
    ensures |r| == |t| + 1
    decreases |t|
  {
    if |t| == 0 then [x]
    else if Greater(key, descending, t[|t| - 1], x) then Insert(t[..|t| - 1], x, key, descending) + [t[|t| - 1]]
    else t + [x]
  }

  function Sort<T>(s: seq<T>, key: T -> Option<int>, descending: bool): (r: seq<T>)
    ensures |r| == |s|
  {
    if |s| == 0 then [] else Insert(Sort(s[..|s| - 1], key, descending), s[|s| - 1], key, descending)
  }

  predicate AllKeyed<T>(s: seq<T>, key: T -> Option<int>) {
    forall i :: 0 <= i < |s| ==> key(s[i]).Some?
  }

  /** No element belongs before an earlier one. */
  predicate Ordered<T>(s: seq<T>, key: T -> Option<int>, descending: bool) {
    forall i, j :: 0 <= i < j < |s| ==> !Greater(key, descending, s[i], s[j])
  }

  /** The elements whose key is `k`, in order. */
  function WithKey<T>(s: seq<T>, key: T -> Option<int>, k: Option<int>): (r: seq<T>)
    ensures |r| <= |s|
  {
    if |s| == 0 then []
    else WithKey(s[..|s| - 1], key, k) + (if key(s[|s| - 1]) == k then [s[|s| - 1]] else [])
  }

  /** `Array.prototype.filter`: the elements that pass, in their order. */
  function Filter<T>(s: seq<T>, keep: T -> bool): (r: seq<T>)
    ensures |r| <= |s|
    ensures forall i :: 0 <= i < |r| ==> r[i] in s && keep(r[i])
    ensures forall i :: 0 <= i < |s| && keep(s[i]) ==> s[i] in r
  {
    if |s| == 0 then []
    else
      var last := s[|s| - 1];
      var r := Filter(s[..|s| - 1], keep) + (if keep(last) then [last] else []);
      assert forall i :: 0 <= i < |s| - 1 ==> s[i] == s[..|s| - 1][i];
      r
  }

  lemma {:induction false} InsertPermutes<T>(t: seq<T>, x: T, key: T -> Option<int>, descending: bool)
    ensures multiset(Insert(t, x, key, descending)) == multiset(t) + multiset{x}
    decreases |t|
  {
    if |t| > 0 && Greater(key, descending, t[|t| - 1], x) {
      var u := t[..|t| - 1];
      InsertPermutes(u, x, key, descending);
      assert t == u + [t[|t| - 1]];
    }
  }

  /** Sorting only reorders. */
  lemma {:induction false} SortPermutes<T>(s: seq<T>, key: T -> Option<int>, descending: bool)
    ensures multiset(Sort(s, key, descending)) == multiset(s)
  {
    if |s| > 0 {
      var u, x := s[..|s| - 1], s[|s| - 1];
      var sorted := Sort(u, key, descending);
      assert Sort(s, key, descending) == Insert(sorted, x, key, descending);
      assert multiset(s) == multiset(u) + multiset{x} by {
        assert s == u + [x];
      }
      SortPermutes(u, key, descending);
      InsertPermutes(sorted, x, key, descending);
    }
  }

  /** Sorting keeps exactly the elements it was given. */
  lemma SortKeepsMembers<T>(s: seq<T>, key: T -> Option<int>, descending: bool)
    ensures forall x :: x in Sort(s, key, descending) <==> x in s
  {
    SortPermutes(s, key, descending);
    forall x ensures x in Sort(s, key, descending) <==> x in s {
      assert x in Sort(s, key, descending) <==> x in multiset(Sort(s, key, descending));
      assert x in s <==> x in multiset(s);
    }
  }

  lemma {:induction false} InsertOrdered<T>(t: seq<T>, x: T, key: T -> Option<int>, descending: bool)
    requires Ordered(t, key, descending) && AllKeyed(t, key) && key(x).Some?
    ensures Ordered(Insert(t, x, key, descending), key, descending)
    decreases |t|
  {
    if |t| > 0 && Greater(key, descending, t[|t| - 1], x) {
      var u := t[..|t| - 1];
      var last := t[|t| - 1];
      InsertOrdered(u, x, key, descending);
      InsertPermutes(u, x, key, descending);
      var v := Insert(u, x, key, descending);
      forall i | 0 <= i < |v| ensures !Greater(key, descending, v[i], last) {
        assert v[i] in multiset(v);
        if v[i] != x {
          var k :| 0 <= k < |u| && u[k] == v[i];
          assert t[k] == v[i];
        }
      }
      var r := v + [last];
      forall i, j | 0 <= i < j < |r| ensures !Greater(key, descending, r[i], r[j]) {
        if j < |v| {
          assert r[i] == v[i] && r[j] == v[j];
        } else {
          assert r[i] == v[i];
        }
      }
    } else if |t| > 0 {
      var r := t + [x];
      forall i, j | 0 <= i < j < |r| ensures !Greater(key, descending, r[i], r[j]) {
        if j == |t| {
          assert !Greater(key, descending, t[i], t[|t| - 1]) || i == |t| - 1;
        }
      }
    }
  }

  /** With every key a number, the result is in order. */
  lemma {:induction false} SortOrdered<T>(s: seq<T>, key: T -> Option<int>, descending: bool)
    requires AllKeyed(s, key)
    ensures Ordered(Sort(s, key, descending), key, descending)
  {
    if |s| > 0 {
      var u := s[..|s| - 1];
      SortOrdered(u, key, descending);
      SortPermutes(u, key, descending);
      var t := Sort(u, key, descending);
      forall i | 0 <= i < |t| ensures key(t[i]).Some? {
        assert t[i] in multiset(u);
      }
      InsertOrdered(t, s[|s| - 1], key, descending);
    }
  }

  lemma {:induction false} WithKeyAppend<T>(a: seq<T>, b: seq<T>, key: T -> Option<int>, k: Option<int>)
    ensures WithKey(a + b, key, k) == WithKey(a, key, k) + WithKey(b, key, k)
    decreases |b|
  {
    if |b| == 0 {
      assert a + b == a;
    } else {
      var b', last := b[..|b| - 1], b[|b| - 1];
      var tail := if key(last) == k then [last] else [];
      WithKeyAppend(a, b', key, k);
      assert (a + b)[..|a + b| - 1] == a + b' && (a + b)[|a + b| - 1] == last;
      assert WithKey(a + b, key, k) == WithKey(a + b', key, k) + tail;
      assert WithKey(b, key, k) == WithKey(b', key, k) + tail;
      assert (WithKey(a, key, k) + WithKey(b', key, k)) + tail == WithKey(a, key, k) + (WithKey(b', key, k) + tail);
    }
  }

  lemma {:induction false} InsertKeepsKeyOrder<T>(t: seq<T>, x: T, key: T -> Option<int>, descending: bool, k: Option<int>)
    ensures WithKey(Insert(t, x, key, descending), key, k) == WithKey(t + [x], key, k)
    decreases |t|
  {
    if |t| > 0 && Greater(key, descending, t[|t| - 1], x) {
      var u := t[..|t| - 1];
      var last := t[|t| - 1];
      InsertKeepsKeyOrder(u, x, key, descending, k);
      WithKeyAppend(Insert(u, x, key, descending), [last], key, k);
      WithKeyAppend(u + [x], [last], key, k);
      WithKeyAppend(u, [x], key, k);
      WithKeyAppend(u, [last], key, k);
      WithKeyAppend(u + [last], [x], key, k);
      assert WithKey([x], key, k) == [] || WithKey([last], key, k) == [] by {
        assert [x][..0] == [] && [last][..0] == [];
      }
      assert t == u + [last];
    }
  }

  /** Stability: for every key, the elements with that key keep their order. */
  lemma {:induction false} SortIsStable<T>(s: seq<T>, key: T -> Option<int>, descending: bool, k: Option<int>)
    ensures WithKey(Sort(s, key, descending), key, k) == WithKey(s, key, k)
  {
    if |s| > 0 {
      var u := s[..|s| - 1];
      SortIsStable(u, key, descending, k);
      InsertKeepsKeyOrder(Sort(u, key, descending), s[|s| - 1], key, descending, k);
      WithKeyAppend(Sort(u, key, descending), [s[|s| - 1]], key, k);
      WithKeyAppend(u, [s[|s| - 1]], key, k);
      assert s == u + [s[|s| - 1]];
    }
  }

  /** Sorting a sequence that is already in order changes nothing. */
  lemma {:induction false} SortOfOrdered<T>(s: seq<T>, key: T -> Option<int>, descending: bool)
    requires Ordered(s, key, descending)
    ensures Sort(s, key, descending) == s
  {
    if |s| > 0 {
      var u := s[..|s| - 1];
      assert Ordered(u, key, descending);
      SortOfOrdered(u, key, descending);
      if |u| > 0 {
        assert !Greater(key, descending, u[|u| - 1], s[|s| - 1]);
      }
      assert u + [s[|s| - 1]] == s;
    }
  }

  /** With every key a number, sorting twice is sorting once. */
  lemma SortIdempotent<T>(s: seq<T>, key: T -> Option<int>, descending: bool)
    requires AllKeyed(s, key)
    ensures Sort(Sort(s, key, descending), key, descending) == Sort(s, key, descending)
  {
    SortOrdered(s, key, descending);
    SortOfOrdered(Sort(s, key, descending), key, descending);
  }

  /** The index of the first element whose key is `k`. */
  lemma FirstWithKey<T>(s: seq<T>, key: T -> Option<int>, k: Option<int>, i: nat)
    requires i < |s| && key(s[i]) == k
    requires forall j :: 0 <= j < i ==> key(s[j]) != k
    ensures |WithKey(s, key, k)| > 0 && WithKey(s, key, k)[0] == s[i]
  {
    var before, rest := s[..i], s[i + 1..];
    assert s == before + ([s[i]] + rest);
    assert WithKey([s[i]], key, k) == [s[i]] by {
      assert [s[i]][..0] == [];
    }
    WithKeyNone(before, key, k);
    WithKeyAppend([s[i]], rest, key, k);
    WithKeyAppend(before, [s[i]] + rest, key, k);
  }

  lemma {:induction false} WithKeyNone<T>(s: seq<T>, key: T -> Option<int>, k: Option<int>)
    requires forall j :: 0 <= j < |s| ==> key(s[j]) != k
    ensures WithKey(s, key, k) == []
  {
    if |s| > 0 {
      WithKeyNone(s[..|s| - 1], key, k);
    }
  }

  /** One cut of the insertion: an element that belongs after `x` moves past it. */
  lemma InsertStep<T>(t: seq<T>, x: T, key: T -> Option<int>, descending: bool, j: nat)
    requires 0 < j <= |t| && Greater(key, descending, t[j - 1], x)
    ensures Insert(t[..j], x, key, descending) + t[j..] == Insert(t[..j - 1], x, key, descending) + t[j - 1..]
  {
    assert t[..j][..j - 1] == t[..j - 1];
    assert [t[j - 1]] + t[j..] == t[j - 1..];
  }

  /** Insertion stops at once when `x` does not belong before the last element. */
  lemma InsertStops<T>(t: seq<T>, x: T, key: T -> Option<int>, descending: bool)
    requires |t| > 0 ==> !Greater(key, descending, t[|t| - 1], x)
    ensures Insert(t, x, key, descending) == t + [x]
  {
  }

  /** Inserts `a[i]` into the sorted prefix `a[..i]`, shifting larger elements right. */
  method InsertAt<T>(a: array<T>, i: nat, key: T -> Option<int>, descending: bool)
    requires i < a.Length
    modifies a
    ensures a[..i + 1] == Insert(old(a[..i]), old(a[i]), key, descending)
    ensures forall k :: i < k < a.Length ==> a[k] == old(a[k])
  {
    ghost var t := a[..i];
    var x := a[i];
    var j := i;
    assert t[..j] == t && t[j..] == [];
    while j > 0 && Greater(key, descending, a[j - 1], x)
      invariant 0 <= j <= i
      invariant forall k :: 0 <= k < j ==> a[k] == t[k]
      invariant forall k :: j < k <= i ==> a[k] == t[k - 1]
      invariant forall k :: i < k < a.Length ==> a[k] == old(a[k])
      invariant Insert(t, x, key, descending) == Insert(t[..j], x, key, descending) + t[j..]
    {
      InsertStep(t, x, key, descending, j);
      a[j] := a[j - 1];
      j := j - 1;
    }
    if j > 0 {
      assert a[j - 1] == t[..j][j - 1];
    }
    InsertStops(t[..j], x, key, descending);
    a[j] := x;
    ghost var r := t[..j] + [x] + t[j..];
    assert forall k :: 0 <= k <= i ==> a[k] == r[k];
    assert a[..i + 1] == r;
  }

  /** In-place sort of an array, as `array.sort(comparator)` does it. */
  method SortInPlace<T>(a: array<T>, key: T -> Option<int>, descending: bool)
    modifies a
    ensures a[..] == Sort(old(a[..]), key, descending)
  {
    ghost var s := a[..];
    var i := 0;
    while i < a.Length
      invariant 0 <= i <= a.Length
      invariant a[..i] == Sort(s[..i], key, descending)
      invariant a[i..] == s[i..]
    {
      assert a[i] == s[i];
      ghost var before := a[..];
      assert before[i + 1..] == s[i + 1..] by {
        assert before[i..] == s[i..];
      }
      InsertAt(a, i, key, descending);
      assert s[..i + 1][..i] == s[..i];
      assert a[i + 1..] == before[i + 1..] by {
        forall k | i < k < a.Length ensures a[k] == before[k] {
        }
      }
      i := i + 1;
    }
    assert s[..a.Length] == s;
  }
}
