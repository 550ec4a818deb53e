/** Ranking by a numeric key, largest first: Python's `list.sort(key=...,
    reverse=True)` (a stable sort: equal keys keep their order) and the
    `[:limit]` slice after it. */
module Ranking {

  /** `s[:limit]`. */
  function Take<T>(s: seq<T>, limit: nat): (r: seq<T>)
    ensures |r| == if limit <= |s| then limit else |s|
    ensures r == s[..|r|]
  {
    if limit <= |s| then s[..limit] else s
  }

  /** Largest key first. */
  predicate NonIncreasing<T>(s: seq<T>, key: T -> int)
  {
    forall i, j :: 0 <= i < j < |s| ==> key(s[i]) >= key(s[j])
  }

  /** The elements whose key is `v`, in their order in `s`. */
  function WithKey<T>(s: seq<T>, key: T -> int, v: int): seq<T>
  {
    if s == [] then []
    else WithKey(s[..|s| - 1], key, v) + (if key(s[|s| - 1]) == v then [s[|s| - 1]] else [])
  }

  /** One step of insertion sort: `x` goes after the last element whose key
      is at least key(x); the smaller ones behind it move one place right. */
  function InsertLast<T>(s: seq<T>, x: T, key: T -> int): seq<T>
  {
    if s == [] || key(s[|s| - 1]) >= key(x) then s + [x]
    else InsertLast(s[..|s| - 1], x, key) + [s[|s| - 1]]
  }

  /** The stable descending sort: `sorted(s, key=key, reverse=True)`. */
  function SortDesc<T>(s: seq<T>, key: T -> int): seq<T>
  {
    if s == [] then [] else InsertLast(SortDesc(s[..|s| - 1], key), s[|s| - 1], key)
  }

  lemma WithKeySnoc<T>(s: seq<T>, y: T, key: T -> int, v: int)
    ensures WithKey(s + [y], key, v) == WithKey(s, key, v) + (if key(y) == v then [y] else [])
  {
    assert (s + [y])[..|s|] == s;
  }

  /** Selecting by key distributes over concatenation. */
  lemma {:induction false} WithKeyAppend<T>(a: seq<T>, b: seq<T>, key: T -> int, v: int)
    ensures WithKey(a + b, key, v) == WithKey(a, key, v) + WithKey(b, key, v)
    decreases |b|
  {
    if b == [] {
      assert a + b == a;
    } else {
      var init, y := b[..|b| - 1], b[|b| - 1];
      assert b == init + [y];
      assert a + b == (a + init) + [y];
      WithKeyAppend(a, init, key, v);
      WithKeySnoc(a + init, y, key, v);
      WithKeySnoc(init, y, key, v);
    }
  }

  /** One insertion adds exactly `x`. */
  lemma {:induction false} InsertLastElements<T>(s: seq<T>, x: T, key: T -> int)
    ensures |InsertLast(s, x, key)| == |s| + 1
    ensures multiset(InsertLast(s, x, key)) == multiset(s) + multiset{x}
    decreases |s|
  {
    if s != [] && key(s[|s| - 1]) < key(x) {
      var init, y := s[..|s| - 1], s[|s| - 1];
      assert s == init + [y];
      InsertLastElements(init, x, key);
    }
  }

  /** One insertion keeps a largest-first sequence largest-first. */
  lemma {:induction false} InsertLastSorted<T>(s: seq<T>, x: T, key: T -> int)
    requires NonIncreasing(s, key)
    ensures NonIncreasing(InsertLast(s, x, key), key)
    decreases |s|
  {
    if s == [] || key(s[|s| - 1]) >= key(x) {
    } else {
      var init, y := s[..|s| - 1], s[|s| - 1];
      assert s == init + [y];
      var r' := InsertLast(init, x, key);
      assert NonIncreasing(init, key);
      InsertLastSorted(init, x, key);
      InsertLastElements(init, x, key);
      forall z | z in r' ensures key(z) >= key(y) {
        assert z in multiset(r');
        if z != x {
          assert z in multiset(init);
          var i :| 0 <= i < |init| && init[i] == z;
          assert s[i] == z;
        }
      }
      var r := r' + [y];
      forall i, j | 0 <= i < j < |r| ensures key(r[i]) >= key(r[j]) {
        if j == |r'| {
          assert r[i] in r';
        }
      }
    }
  }

  /** One insertion keeps the order among elements with equal keys: `x`
      lands after every element whose key equals its own. */
  lemma {:induction false} InsertLastStable<T>(s: seq<T>, x: T, key: T -> int, v: int)
    ensures WithKey(InsertLast(s, x, key), key, v) == WithKey(s + [x], key, v)
    decreases |s|
  {
    if s != [] && key(s[|s| - 1]) < key(x) {
      var init, y := s[..|s| - 1], s[|s| - 1];
      assert s == init + [y];
      InsertLastStable(init, x, key, v);
      WithKeySnoc(InsertLast(init, x, key), y, key, v);
      WithKeySnoc(init, x, key, v);
      WithKeySnoc(init + [y], x, key, v);
      WithKeySnoc(init, y, key, v);
    }
  }

  /** The sort is a permutation, its result is largest-first, and it is
      stable: for every key the elements with that key appear in their
      original order. (Sortedness and stability together determine it.) */
  lemma {:induction false} SortDescSpec<T>(s: seq<T>, key: T -> int)
    ensures |SortDesc(s, key)| == |s|
    ensures multiset(SortDesc(s, key)) == multiset(s)
    ensures NonIncreasing(SortDesc(s, key), key)
    ensures forall v :: WithKey(SortDesc(s, key), key, v) == WithKey(s, key, v)
    decreases |s|
  {
    if s != [] {
      var init, y := s[..|s| - 1], s[|s| - 1];
      assert s == init + [y];
      SortDescSpec(init, key);
      InsertLastElements(SortDesc(init, key), y, key);
      InsertLastSorted(SortDesc(init, key), y, key);
      forall v ensures WithKey(SortDesc(s, key), key, v) == WithKey(s, key, v) {
        InsertLastStable(SortDesc(init, key), y, key, v);
        WithKeySnoc(SortDesc(init, key), y, key, v);
        WithKeySnoc(init, y, key, v);
      }
    }
  }

  /** An insertion puts `x` at one place and leaves the rest in order. */
  lemma {:induction false} InsertLastSplit<T>(s: seq<T>, x: T, key: T -> int) returns (j: nat)
    ensures j <= |s|
    ensures InsertLast(s, x, key) == s[..j] + [x] + s[j..]
    decreases |s|
  {
    if s == [] || key(s[|s| - 1]) >= key(x) {
      j := |s|;
      assert s[..j] == s;
    } else {
      var init, last := s[..|s| - 1], s[|s| - 1];
      assert s == init + [last];
      assert InsertLast(s, x, key) == InsertLast(init, x, key) + [last];
      j := InsertLastSplit(init, x, key);
      assert s[..j] == init[..j];
      assert s[j..] == init[j..] + [last];
      assert (init[..j] + [x] + init[j..]) + [last] == s[..j] + [x] + s[j..];
    }
  }

  /** Where the shifting loop of an insertion stops, InsertLast puts `x`. */
  lemma {:induction false} InsertLastAt<T>(t: seq<T>, x: T, j: nat, key: T -> int)
    requires j <= |t|
    requires j == 0 || key(t[j - 1]) >= key(x)
    requires forall k :: j <= k < |t| ==> key(t[k]) < key(x)
    ensures InsertLast(t, x, key) == t[..j] + [x] + t[j..]
    decreases |t| - j
  {
    if j < |t| {
      var init := t[..|t| - 1];
      assert init[..j] == t[..j];
      if j > 0 {
        assert init[j - 1] == t[j - 1];
      }
      InsertLastAt(init, x, j, key);
      assert t[j..] == init[j..] + [t[|t| - 1]];
    } else {
      assert t[..j] == t;
    }
  }

  /** Inserts `a[i]` into the sorted prefix `a[..i]`, shifting the elements
      with a strictly smaller key one place right. */
  method InsertAt<T>(a: array<T>, i: nat, key: T -> int)
    requires i < a.Length
    modifies a
    ensures a[..i + 1] == InsertLast(old(a[..i]), old(a[i]), key)
    ensures a[i + 1..] == old(a[i + 1..])
  {
    var x := a[i];
    ghost var t := a[..i];
    var j := i;
    while j > 0 && key(a[j - 1]) < key(x)
      invariant 0 <= j <= i
      invariant a[..j] == t[..j]
      invariant a[j + 1..i + 1] == t[j..i]
      invariant a[i + 1..] == old(a[i + 1..])
      invariant forall k :: j <= k < i ==> key(t[k]) < key(x)
    {
      a[j] := a[j - 1];
      j := j - 1;
    }
    a[j] := x;
    InsertLastAt(t, x, j, key);
    assert a[..i + 1] == a[..j] + [x] + a[j + 1..i + 1];
  }

  /** `list.sort(key=key, reverse=True)` in place: a straight insertion sort
      that shifts strictly smaller elements, which keeps it stable. */
  method SortDescInPlace<T>(a: array<T>, key: T -> int)
    modifies a
    ensures a[..] == SortDesc(old(a[..]), key)
  {
    ghost var s0 := a[..];
    var i := 0;
    while i < a.Length
      invariant 0 <= i <= a.Length
      invariant a[..i] == SortDesc(s0[..i], key)
      invariant a[i..] == s0[i..]
    {
      assert a[i] == s0[i];
      InsertAt(a, i, key);
      assert s0[..i + 1][..i] == s0[..i];
      i := i + 1;
    }
    assert a[..] == a[..a.Length];
    assert s0[..a.Length] == s0;
  }

  /** `items.sort(key=key, reverse=True)` on a list holding `items`, then
      `items[:limit]`. */
  method SortedPrefix<T>(items: seq<T>, key: T -> int, limit: nat) returns (r: seq<T>)
    ensures r == Take(SortDesc(items, key), limit)
  {
    var a := new T[|items|](i requires 0 <= i < |items| => items[i]);
    assert a[..] == items;
    SortDescInPlace(a, key);
    r := Take(a[..], limit);
  }

  /** The first `limit` of the stable descending sort: at most `limit`
      items, all from the input, largest first, none smaller than an item
      left out, and, for each key, the first items with that key in input
      order. */
  lemma TopSpec<T>(items: seq<T>, key: T -> int, limit: nat)
    ensures |SortDesc(items, key)| == |items|
    ensures |Take(SortDesc(items, key), limit)| <= limit
    ensures |Take(SortDesc(items, key), limit)| <= |items|
    ensures NonIncreasing(Take(SortDesc(items, key), limit), key)
    ensures forall i :: 0 <= i < |Take(SortDesc(items, key), limit)| ==>
      Take(SortDesc(items, key), limit)[i] in items
    ensures forall i, j :: 0 <= i < |Take(SortDesc(items, key), limit)| <= j < |items| ==>
      key(SortDesc(items, key)[i]) >= key(SortDesc(items, key)[j])
    ensures forall v :: WithKey(Take(SortDesc(items, key), limit), key, v) <= WithKey(items, key, v)
  {
    var s := SortDesc(items, key);
    var r := Take(s, limit);
    SortDescSpec(items, key);
    forall i | 0 <= i < |r| ensures r[i] in items {
      assert r[i] == s[i];
      assert s[i] in multiset(s);
    }
    forall v ensures WithKey(r, key, v) <= WithKey(items, key, v) {
      assert s == r + s[|r|..];
      WithKeyAppend(r, s[|r|..], key, v);
    }
  }
}
