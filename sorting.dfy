/** Python's stable sort with `reverse=True` on a real-valued key, and list
    slicing `xs[:n]`. Python documents that `reverse=True` keeps equal keys in
    their original order, so the sort is specified here as a stable
    descending insertion sort. */
module Sorting {

  /** Inserts `x` after every element of `t` whose key is at least `key(x)`,
      scanning from the back: the step of a stable insertion sort. */
  function InsertBack<T>(t: seq<T>, x: T, key: T -> real): (r: seq<T>)
    ensures |r| == |t| + 1
  {
    if t == [] || key(t[|t| - 1]) >= key(x) then t + [x]
    else InsertBack(t[..|t| - 1], x, key) + [t[|t| - 1]]
  }

  /** `sorted(s, key=key, reverse=True)`. */
  function SortDesc<T>(s: seq<T>, key: T -> real): (r: seq<T>)
    ensures |r| == |s|
  {
    if s == [] then [] else InsertBack(SortDesc(s[..|s| - 1], key), s[|s| - 1], key)
  }

  predicate SortedDesc<T>(s: seq<T>, key: T -> real) {
    forall i, j :: 0 <= i < j < |s| ==> key(s[i]) >= key(s[j])
  }

  /** The elements of `s` whose key is `v`, in their order in `s`. */
  function WithKey<T>(s: seq<T>, key: T -> real, v: real): seq<T> {
    if s == [] then []
    else WithKey(s[..|s| - 1], key, v) + (if key(s[|s| - 1]) == v then [s[|s| - 1]] else [])
  }

  /** Python's `s[:n]`: the first `n` elements, all of them when `n` is at
      least the length, and for a negative `n` all but the last `-n`. */
  function PyPrefix<T>(s: seq<T>, n: int): (r: seq<T>)
    ensures 0 <= n ==> |r| == (if n < |s| then n else |s|)
    ensures |r| <= |s| && r == s[..|r|]
  {
    if 0 <= n then (if n < |s| then s[..n] else s)
    else if |s| + n > 0 then s[..|s| + n] else []
  }

  predicate IsPrefix<T(==)>(a: seq<T>, b: seq<T>) {
    |a| <= |b| && a == b[..|a|]
  }

  /** Cutting a list short cuts each key's elements short: a prefix keeps,
      for every key, a prefix of that key's elements. */
  lemma {:induction false} WithKeyPrefix<T>(s: seq<T>, m: nat, key: T -> real, v: real)
    requires m <= |s|
    ensures IsPrefix(WithKey(s[..m], key, v), WithKey(s, key, v))
    decreases |s| - m
  {
    if m == |s| {
      assert s[..m] == s;
    } else {
      var init := s[..|s| - 1];
      WithKeyPrefix(init, m, key, v);
      assert init[..m] == s[..m];
    }
  }

  // ---------------------------------------------------------------------
  // Relative order.

  /** The index of the first `x` in `s`, or `|s|` when `x` does not occur. */
  function FirstAt<T(==)>(s: seq<T>, x: T): (i: nat)
    ensures i <= |s| && (i < |s| <==> x in s)
    ensures i < |s| ==> s[i] == x
    ensures forall k :: 0 <= k < i ==> s[k] != x
  {
    if s == [] then 0
    else if s[0] == x then 0
    else
      var i := 1 + FirstAt(s[1..], x);
      assert forall k :: 1 <= k < |s| ==> s[k] == s[1..][k - 1];
      i
  }

  /** `x` first occurs in `s` before `y` first occurs, and `y` occurs. */
  predicate Precedes<T(==)>(s: seq<T>, x: T, y: T) {
    FirstAt(s, x) < FirstAt(s, y) < |s|
  }

  /** The first occurrence in `a + b` is the one in `a`, else the one in `b`
      shifted by `|a|`. */
  lemma FirstAtAppend<T>(a: seq<T>, b: seq<T>, x: T)
    ensures FirstAt(a + b, x) == if x in a then FirstAt(a, x) else |a| + FirstAt(b, x)
  {
    var i := FirstAt(a + b, x);
    if x in a {
      var j := FirstAt(a, x);
      assert (a + b)[j] == x;
    } else {
      var j := FirstAt(b, x);
      forall k | 0 <= k < |a| ensures (a + b)[k] != x {
        assert (a + b)[k] == a[k];
      }
      if j < |b| {
        assert (a + b)[|a| + j] == x;
      }
    }
  }

  /** The relative order of two elements in `a + b`, from the two parts. */
  lemma PrecedesAppend<T>(a: seq<T>, b: seq<T>, x: T, y: T)
    ensures y in a ==> (Precedes(a + b, x, y) <==> Precedes(a, x, y))
    ensures y !in a && x in a ==> (Precedes(a + b, x, y) <==> y in b)
    ensures x !in a && y !in a ==> (Precedes(a + b, x, y) <==> Precedes(b, x, y))
  {
    FirstAtAppend(a, b, x);
    FirstAtAppend(a, b, y);
  }

  /** Two elements in the order of a prefix are in that order in the whole. */
  lemma PrefixOrder<T>(a: seq<T>, b: seq<T>, x: T, y: T)
    requires IsPrefix(a, b) && Precedes(a, x, y)
    ensures Precedes(b, x, y)
  {
    assert b == a + b[|a|..];
    PrecedesAppend(a, b[|a|..], x, y);
  }

  lemma {:induction false} WithKeyMember<T>(s: seq<T>, key: T -> real, v: real, x: T)
    ensures x in WithKey(s, key, v) <==> x in s && key(x) == v
  {
    if s != [] {
      WithKeyMember(s[..|s| - 1], key, v, x);
      assert s == s[..|s| - 1] + [s[|s| - 1]];
    }
  }

  /** Picking the elements with key `v` keeps their relative order. */
  lemma {:induction false} WithKeyOrder<T>(s: seq<T>, key: T -> real, v: real, x: T, y: T)
    requires key(x) == v && key(y) == v
    ensures Precedes(WithKey(s, key, v), x, y) <==> Precedes(s, x, y)
  {
    if s != [] {
      var init, z := s[..|s| - 1], s[|s| - 1];
      assert s == init + [z];
      var w := WithKey(init, key, v);
      var tail := if key(z) == v then [z] else [];
      assert WithKey(s, key, v) == w + tail;
      WithKeyOrder(init, key, v, x, y);
      WithKeyMember(init, key, v, x);
      WithKeyMember(init, key, v, y);
      PrecedesAppend(init, [z], x, y);
      PrecedesAppend(w, tail, x, y);
    }
  }

  // ---------------------------------------------------------------------
  // Insertion.

  lemma {:induction false} InsertBackMultiset<T>(t: seq<T>, x: T, key: T -> real)
    ensures multiset(InsertBack(t, x, key)) == multiset(t) + multiset{x}
  {
    if !(t == [] || key(t[|t| - 1]) >= key(x)) {
      var init, last := t[..|t| - 1], t[|t| - 1];
      InsertBackMultiset(init, x, key);
      assert t == init + [last];
    }
  }

  lemma {:induction false} InsertBackSorted<T>(t: seq<T>, x: T, key: T -> real)
    requires SortedDesc(t, key)
    ensures SortedDesc(InsertBack(t, x, key), key)
  {
    if !(t == [] || key(t[|t| - 1]) >= key(x)) {
      var init, last := t[..|t| - 1], t[|t| - 1];
      InsertBackSorted(init, x, key);
      var r0 := InsertBack(init, x, key);
      InsertBackMultiset(init, x, key);
      forall k | 0 <= k < |r0| ensures key(r0[k]) >= key(last) {
        assert r0[k] in multiset(r0);
        assert r0[k] == x || r0[k] in init;
      }
    }
  }

  /** Inserting leaves the elements of every key in their old order, with the
      new element last among its equals. */
  lemma {:induction false} InsertBackWithKey<T>(t: seq<T>, x: T, key: T -> real, v: real)
    ensures WithKey(InsertBack(t, x, key), key, v) == WithKey(t, key, v) + (if key(x) == v then [x] else [])
  {
    if t == [] || key(t[|t| - 1]) >= key(x) {
      assert (t + [x])[..|t|] == t;
    } else {
      var init, last := t[..|t| - 1], t[|t| - 1];
      InsertBackWithKey(init, x, key, v);
      var r0 := InsertBack(init, x, key);
      assert (r0 + [last])[..|r0|] == r0;
    }
  }

  /** Where the insertion lands: after position `j - 1`, when every element
      from `j` on has a smaller key than `x` and the one before does not. */
  lemma {:induction false} InsertBackAt<T>(t: seq<T>, x: T, key: T -> real, j: nat)
    requires j <= |t|
    requires j == 0 || key(t[j - 1]) >= key(x)
    requires forall k :: j <= k < |t| ==> key(t[k]) < key(x)
    ensures InsertBack(t, x, key) == t[..j] + [x] + t[j..]
  {
    if j == |t| {
      assert t[..j] == t && t[j..] == [];
    } else {
      var init, last := t[..|t| - 1], t[|t| - 1];
      assert key(last) < key(x);
      assert InsertBack(t, x, key) == InsertBack(init, x, key) + [last];
      assert j == 0 || key(init[j - 1]) >= key(x);
      assert forall k :: j <= k < |init| ==> init[k] == t[k];
      InsertBackAt(init, x, key, j);
      assert init[..j] == t[..j];
      assert init[j..] + [last] == t[j..];
    }
  }

  // ---------------------------------------------------------------------
  // The sort is a stable descending sort.

  /** The sorted list holds exactly the input elements. */
  lemma {:induction false} SortDescPermutation<T>(s: seq<T>, key: T -> real)
    ensures multiset(SortDesc(s, key)) == multiset(s)
  {
    if s != [] {
      SortDescPermutation(s[..|s| - 1], key);
      InsertBackMultiset(SortDesc(s[..|s| - 1], key), s[|s| - 1], key);
      assert s == s[..|s| - 1] + [s[|s| - 1]];
    }
  }

  /** Keys never increase along the sorted list. */
  lemma {:induction false} SortDescSorted<T>(s: seq<T>, key: T -> real)
    ensures SortedDesc(SortDesc(s, key), key)
  {
    if s != [] {
      SortDescSorted(s[..|s| - 1], key);
      InsertBackSorted(SortDesc(s[..|s| - 1], key), s[|s| - 1], key);
    }
  }

  /** Elements with equal keys keep their input order. */
  lemma {:induction false} SortDescStable<T>(s: seq<T>, key: T -> real, v: real)
    ensures WithKey(SortDesc(s, key), key, v) == WithKey(s, key, v)
  {
    if s != [] {
      SortDescStable(s[..|s| - 1], key, v);
      InsertBackWithKey(SortDesc(s[..|s| - 1], key), s[|s| - 1], key, v);
    }
  }

  /** Sorting keeps a projection injective: when no two elements of `s` share
      an `f`-value, no two elements of the sorted list do. */
  lemma {:induction false} SortDescInjective<T, U>(s: seq<T>, key: T -> real, f: T -> U)
    requires forall i, j :: 0 <= i < j < |s| ==> f(s[i]) != f(s[j])
    ensures forall i, j :: 0 <= i < j < |SortDesc(s, key)| ==> f(SortDesc(s, key)[i]) != f(SortDesc(s, key)[j])
  {
    if s != [] {
      var init, last := s[..|s| - 1], s[|s| - 1];
      SortDescInjective(init, key, f);
      var t := SortDesc(init, key);
      SortDescPermutation(init, key);
      forall e | e in t ensures f(e) != f(last) {
        assert e in multiset(init);
        var k :| 0 <= k < |init| && init[k] == e;
        assert s[k] == e;
      }
      InsertBackInjective(t, last, key, f);
    }
  }

  lemma {:induction false} InsertBackInjective<T, U>(t: seq<T>, x: T, key: T -> real, f: T -> U)
    requires forall i, j :: 0 <= i < j < |t| ==> f(t[i]) != f(t[j])
    requires forall e :: e in t ==> f(e) != f(x)
    ensures forall i, j :: 0 <= i < j < |InsertBack(t, x, key)| ==>
      f(InsertBack(t, x, key)[i]) != f(InsertBack(t, x, key)[j])
  {
    if t == [] || key(t[|t| - 1]) >= key(x) {
      var r := t + [x];
      forall i, j | 0 <= i < j < |r| ensures f(r[i]) != f(r[j]) {
        if j == |t| {
          assert r[i] in t;
        } else {
          assert r[i] == t[i] && r[j] == t[j];
        }
      }
    } else {
      var init, last := t[..|t| - 1], t[|t| - 1];
      forall e | e in init ensures f(e) != f(x) {
        assert e in t;
      }
      InsertBackInjective(init, x, key, f);
      var r0 := InsertBack(init, x, key);
      InsertBackMultiset(init, x, key);
      var r := r0 + [last];
      forall i, j | 0 <= i < j < |r| ensures f(r[i]) != f(r[j]) {
        if j == |r0| {
          assert r0[i] in multiset(r0);
          if r0[i] == x {
            assert last in t;
          } else {
            var k :| 0 <= k < |init| && init[k] == r0[i];
            assert t[k] == r0[i];
          }
        } else {
          assert r[i] == r0[i] && r[j] == r0[j];
        }
      }
    }
  }

  /** One step of the insertion sort: shifts `a[n]` left past the elements
      of `a[..n]` with a smaller key. */
  method InsertLast<T>(a: array<T>, n: nat, key: T -> real)
    requires n < a.Length
    modifies a
    ensures a[..n + 1] == InsertBack(old(a[..n]), old(a[n]), key)
    ensures a[n + 1..] == old(a[n + 1..])
  {
    ghost var sorted := a[..n];
    var x := a[n];
    var j := n;
    while j > 0 && key(a[j - 1]) < key(x)
      invariant 0 <= j <= n
      invariant forall k :: 0 <= k < j ==> a[k] == sorted[k]
      invariant forall k :: j < k <= n ==> a[k] == sorted[k - 1]
      invariant forall k :: n < k < a.Length ==> a[k] == old(a[k])
      invariant forall k :: j <= k < n ==> key(sorted[k]) < key(x)
    {
      a[j] := a[j - 1];
      j := j - 1;
    }
    a[j] := x;
    InsertBackAt(sorted, x, key, j);
    assert a[..n + 1] == sorted[..j] + [x] + sorted[j..];
  }

  /** `a.sort(key=key, reverse=True)`: a stable descending insertion sort in
      place. */
  method SortInPlace<T>(a: array<T>, key: T -> real)
    modifies a
    ensures a[..] == SortDesc(old(a[..]), key)
  {
    ghost var orig := a[..];
    var i := 0;
    while i < a.Length
      invariant 0 <= i <= a.Length
      invariant a[..i] == SortDesc(orig[..i], key)
      invariant a[i..] == orig[i..]
    {
      InsertLast(a, i, key);
      assert orig[..i + 1][..i] == orig[..i];
      i := i + 1;
    }
    assert orig[..a.Length] == orig;
  }
}
