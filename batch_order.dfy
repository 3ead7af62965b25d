/**
 * How the batch tools put their per-item records in order.
 *
 * Each tool runs one promise per item and waits for all of them with
 * `Promise.allSettled`; the settled list is mapped index by index to
 * records (a rejected promise gets a fallback record for the same index).
 * Most tools then sort the records in place with the comparator
 * `(a, b) => inputs.indexOf(a.path) - inputs.indexOf(b.path)`. The sort is
 * stable (section 23.1.3.30 of ECMAScript 2019 onward), so it is the
 * insertion sort by the key `indexOf`.
 */
module BatchOrder {
  import opened Common

  datatype Settled<T> = Fulfilled(value: T) | Rejected

  /** Index-aligned reconciliation of `allSettled` results with per-index fallbacks. */
  function Reconcile<T>(settled: seq<Settled<T>>, fallback: seq<T>): (r: seq<T>)
    requires |fallback| == |settled|
    ensures |r| == |settled|
    ensures forall i :: 0 <= i < |r| ==> r[i] == if settled[i].Fulfilled? then settled[i].value else fallback[i]
  {
    seq(|settled|, i requires 0 <= i < |settled| => if settled[i].Fulfilled? then settled[i].value else fallback[i])
  }

  /** `xs.indexOf(x)`: the first position of `x`, or -1. */
  function IndexOf(xs: seq<string>, x: string): (r: int)
    ensures -1 <= r < |xs|
    ensures r == -1 <==> x !in xs
    ensures 0 <= r ==> xs[r] == x && x !in xs[..r]
  {
    if |xs| == 0 then -1
    else if xs[0] == x then 0
    else
      var k := IndexOf(xs[1..], x);
      if k == -1 then -1
      else
        assert xs[..k + 1] == [xs[0]] + xs[1..][..k];
        k + 1
  }

  predicate Distinct(xs: seq<string>)
  {
    forall i, j :: 0 <= i < j < |xs| ==> xs[i] != xs[j]
  }

  /** In a list without repeats, `indexOf` finds each element at its own position. */
  lemma IndexOfDistinct(xs: seq<string>, i: int)
    requires Distinct(xs) && 0 <= i < |xs|
    ensures IndexOf(xs, xs[i]) == i
  {
  }

  // ---------------------------------------------------------------------
  // The stable sort by a key
  // ---------------------------------------------------------------------

  /** Insert `x` after every trailing element whose key is larger. */
  function Insert<T>(s: seq<T>, x: T, key: T -> int): seq<T>
    decreases |s|
  {
    if s == [] || key(s[|s| - 1]) <= key(x) then s + [x]
    else Insert(s[..|s| - 1], x, key) + [s[|s| - 1]]
  }

  /** The stable sort by `key`: insertion sort from the left. */
  function SortBy<T>(s: seq<T>, key: T -> int): seq<T>
    decreases |s|
  {
    if s == [] then [] else Insert(SortBy(s[..|s| - 1], key), s[|s| - 1], key)
  }

  predicate SortedBy<T>(s: seq<T>, key: T -> int)
  {
    forall i, j :: 0 <= i < j < |s| ==> key(s[i]) <= key(s[j])
  }

  /**
   * `Array.prototype.sort` with a key-difference comparator, in place:
   * the array ends up as the stable sort of its old contents.
   */
  method SortInPlace<T>(a: array<T>, key: T -> int)
    modifies a
    ensures a[..] == SortBy(old(a[..]), key)
  {
    ghost var o := a[..];
    var i := 0;
    while i < a.Length
      invariant 0 <= i <= a.Length
      invariant a[..i] == SortBy(o[..i], key)
      invariant a[i..] == o[i..]
    {
      assert a[i] == o[i];
      InsertAt(a, i, key);
      assert o[..i + 1][..i] == o[..i];
      i := i + 1;
    }
    assert a[..] == a[..a.Length];
    assert o == o[..a.Length];
  }

  /** One step of the insertion sort: move `a[i]` left into the sorted prefix. */
  method InsertAt<T>(a: array<T>, i: int, key: T -> int)
    requires 0 <= i < a.Length
    modifies a
    ensures a[..i + 1] == Insert(old(a[..i]), old(a[i]), key)
    ensures a[i + 1..] == old(a[i + 1..])
  {
    ghost var s := a[..i];
    ghost var tail := a[i + 1..];
    var x := a[i];
    var j := i;
    while j > 0 && key(a[j - 1]) > key(x)
      invariant 0 <= j <= i
      invariant forall k :: 0 <= k < j ==> a[k] == s[k]
      invariant forall k :: j < k <= i ==> a[k] == s[k - 1]
      invariant forall k :: j <= k < i ==> key(s[k]) > key(x)
      invariant a[i + 1..] == tail
    {
      a[j] := a[j - 1];
      j := j - 1;
    }
    a[j] := x;
    InsertPosition(s, x, key, j);
    Reassembled(a[..i + 1], s, j, x);
  }

  /**
   * `x` goes right after the last element whose key is at most its own
   * when every later element's key is larger.
   */
  lemma {:induction false} InsertPosition<T>(s: seq<T>, x: T, key: T -> int, j: int)
    requires 0 <= j <= |s| && (j == 0 || key(s[j - 1]) <= key(x))
    requires forall k :: j <= k < |s| ==> key(s[k]) > key(x)
    ensures Insert(s, x, key) == s[..j] + [x] + s[j..]
    decreases |s|
  {
    if j == |s| {
      assert s[..j] == s && s[j..] == [];
    } else {
      var init := s[..|s| - 1];
      InsertPosition(init, x, key, j);
      assert init[..j] == s[..j];
      assert s[j..] == init[j..] + [s[|s| - 1]];
    }
  }

  /** A list that agrees with `s` before `j`, holds `x` at `j` and `s` shifted after it. */
  lemma Reassembled<T>(b: seq<T>, s: seq<T>, j: int, x: T)
    requires 0 <= j <= |s| && |b| == |s| + 1
    requires forall k :: 0 <= k < j ==> b[k] == s[k]
    requires b[j] == x
    requires forall k :: j < k < |b| ==> b[k] == s[k - 1]
    ensures b == s[..j] + [x] + s[j..]
  {
  }

  /** A fresh array holding `s`, sorted in place: the records a handler returns. */
  method SortedCopy<T>(s: seq<T>, key: T -> int) returns (r: seq<T>)
    ensures r == SortBy(s, key)
    ensures |r| == |s| && multiset(r) == multiset(s)
    ensures SortedBy(r, key)
  {
    if |s| == 0 {
      return [];
    }
    var a := new T[|s|](i requires 0 <= i < |s| => s[i]);
    assert a[..] == s;
    SortInPlace(a, key);
    r := a[..];
    SortByFacts(s, key);
  }

  predicate NoBackslash(paths: seq<string>)
  {
    forall i :: 0 <= i < |paths| ==> '\\' !in paths[i]
  }

  // ---------------------------------------------------------------------
  // What the sort guarantees
  // ---------------------------------------------------------------------

  lemma {:induction false} InsertFacts<T>(s: seq<T>, x: T, key: T -> int)
    ensures multiset(Insert(s, x, key)) == multiset(s) + multiset{x}
    ensures SortedBy(s, key) ==> SortedBy(Insert(s, x, key), key)
    ensures |Insert(s, x, key)| == |s| + 1
    decreases |s|
  {
    if s != [] && key(s[|s| - 1]) > key(x) {
      var init, last := s[..|s| - 1], s[|s| - 1];
      InsertFacts(init, x, key);
      assert init + [last] == s;
      if SortedBy(s, key) {
        var r := Insert(init, x, key);
        assert forall k :: 0 <= k < |r| ==> r[k] in multiset(init) + multiset{x};
        forall k | 0 <= k < |r|
          ensures key(r[k]) <= key(last)
        {
          assert r[k] in multiset(init) + multiset{x};
          if r[k] in multiset(init) {
            var m :| 0 <= m < |init| && init[m] == r[k];
            assert s[m] == r[k];
          }
        }
      }
    }
  }

  /** The sort is a permutation and its result is ordered by the key. */
  lemma {:induction false} SortByFacts<T>(s: seq<T>, key: T -> int)
    ensures multiset(SortBy(s, key)) == multiset(s)
    ensures SortedBy(SortBy(s, key), key)
    ensures |SortBy(s, key)| == |s|
    decreases |s|
  {
    if s != [] {
      var init, last := s[..|s| - 1], s[|s| - 1];
      SortByFacts(init, key);
      InsertFacts(SortBy(init, key), last, key);
      assert init + [last] == s;
    }
  }

  /** Stability: a list already ordered by the key is left as it is. */
  lemma {:induction false} SortByKeepsSorted<T>(s: seq<T>, key: T -> int)
    requires SortedBy(s, key)
    ensures SortBy(s, key) == s
    decreases |s|
  {
    if s != [] {
      var init := s[..|s| - 1];
      assert SortedBy(init, key);
      SortByKeepsSorted(init, key);
      assert init + [s[|s| - 1]] == s;
    }
  }

  /** The elements of `s` whose key is `k`, in order. */
  function WithKey<T>(s: seq<T>, key: T -> int, k: int): seq<T>
    decreases |s|
  {
    if s == [] then [] else WithKey(s[..|s| - 1], key, k) + (if key(s[|s| - 1]) == k then [s[|s| - 1]] else [])
  }

  /** The sort keeps the elements, orders them by key and keeps the order of equal keys. */
  lemma SortByOrder<T>(s: seq<T>, key: T -> int, k: int)
    ensures multiset(SortBy(s, key)) == multiset(s)
    ensures SortedBy(SortBy(s, key), key)
    ensures WithKey(SortBy(s, key), key, k) == WithKey(s, key, k)
  {
    SortByFacts(s, key);
    SortByStable(s, key, k);
  }

  /** Inserting `x` puts it after every element with the same key. */
  lemma {:induction false} InsertStable<T>(s: seq<T>, x: T, key: T -> int, k: int)
    ensures WithKey(Insert(s, x, key), key, k) == WithKey(s, key, k) + (if key(x) == k then [x] else [])
    decreases |s|
  {
    if s != [] && key(s[|s| - 1]) > key(x) {
      var init, last := s[..|s| - 1], s[|s| - 1];
      InsertStable(init, x, key, k);
      var ins := Insert(init, x, key);
      assert (ins + [last])[..|ins + [last]| - 1] == ins;
    } else {
      assert (s + [x])[..|s + [x]| - 1] == s;
    }
  }

  /**
   * The sort is stable: the elements that share a key come out in the
   * order they went in.
   */
  lemma {:induction false} SortByStable<T>(s: seq<T>, key: T -> int, k: int)
    ensures WithKey(SortBy(s, key), key, k) == WithKey(s, key, k)
    decreases |s|
  {
    if s != [] {
      var init := s[..|s| - 1];
      SortByStable(init, key, k);
      InsertStable(SortBy(init, key), s[|s| - 1], key, k);
    }
  }

  /** Records whose keys are their own positions are already in order. */
  lemma KeysArePositions<T>(s: seq<T>, key: T -> int)
    requires forall i :: 0 <= i < |s| ==> key(s[i]) == i
    ensures SortBy(s, key) == s
  {
    SortByKeepsSorted(s, key);
  }

  predicate StrictlySortedBy<T>(s: seq<T>, key: T -> int)
  {
    forall i, j :: 0 <= i < j < |s| ==> key(s[i]) < key(s[j])
  }

  /** Two key-ordered lists with the same elements, one with distinct keys, are equal. */
  lemma {:induction false} SortedUnique<T>(a: seq<T>, b: seq<T>, key: T -> int)
    requires StrictlySortedBy(a, key) && SortedBy(b, key)
    requires multiset(a) == multiset(b)
    ensures a == b
    decreases |a|
  {
    if |a| == 0 {
      assert |multiset(b)| == 0;
    } else {
      var n := |a| - 1;
      Peel(a, b, key);
      SortedUnique(a[..n], b[..n], key);
      assert a == a[..n] + [a[n]];
      assert b == b[..n] + [b[n]];
    }
  }

  /** Dropping the last element removes one copy of it. */
  lemma DropLast<T>(a: seq<T>)
    requires |a| > 0
    ensures multiset(a[..|a| - 1]) == multiset(a) - multiset{a[|a| - 1]}
  {
    assert a[..|a| - 1] + [a[|a| - 1]] == a;
  }

  /** Two such lists end alike, and what precedes the ends is again two such lists. */
  lemma Peel<T>(a: seq<T>, b: seq<T>, key: T -> int)
    requires StrictlySortedBy(a, key) && SortedBy(b, key)
    requires multiset(a) == multiset(b) && |a| > 0
    ensures |a| == |b| && a[|a| - 1] == b[|b| - 1]
    ensures StrictlySortedBy(a[..|a| - 1], key) && SortedBy(b[..|b| - 1], key)
    ensures multiset(a[..|a| - 1]) == multiset(b[..|b| - 1])
  {
    assert |multiset(a)| == |multiset(b)|;
    SameLast(a, b, key);
    DropLast(a);
    DropLast(b);
  }

  /** The largest key sits last in both lists, and only one element has it. */
  lemma SameLast<T>(a: seq<T>, b: seq<T>, key: T -> int)
    requires StrictlySortedBy(a, key) && SortedBy(b, key)
    requires multiset(a) == multiset(b) && |a| == |b| > 0
    ensures a[|a| - 1] == b[|b| - 1]
  {
    var n := |a| - 1;
    var x, y := a[n], b[n];
    assert x in multiset(b);
    var p :| 0 <= p < |b| && b[p] == x;
    assert y in multiset(a);
    var q :| 0 <= q < |a| && a[q] == y;
    assert key(x) <= key(y) && key(y) <= key(x);
  }

  /**
   * Whatever order the records arrive in, sorting by a key that strictly
   * increases along the input order restores the input order.
   */
  lemma RestoresOrder<T>(inOrder: seq<T>, arrived: seq<T>, key: T -> int)
    requires StrictlySortedBy(inOrder, key)
    requires multiset(arrived) == multiset(inOrder)
    ensures SortBy(arrived, key) == inOrder
  {
    SortByFacts(arrived, key);
    SortedUnique(inOrder, SortBy(arrived, key), key);
  }

  /**
   * Records whose paths are the inputs themselves, all distinct, keep
   * their order under the sort by `indexOf`.
   */
  lemma IdentityKeys<T>(paths: seq<string>, out: seq<T>, pathOf: T -> string, key: T -> int)
    requires |out| == |paths| && Distinct(paths)
    requires forall i :: 0 <= i < |out| ==> pathOf(out[i]) == paths[i]
    requires forall r :: key(r) == IndexOf(paths, pathOf(r))
    ensures SortBy(out, key) == out
  {
    forall i | 0 <= i < |out|
      ensures key(out[i]) == i
    {
      IndexOfDistinct(paths, i);
    }
    KeysArePositions(out, key);
  }

  // ---------------------------------------------------------------------
  // Records pushed in completion order
  // ---------------------------------------------------------------------

  /** `0, 1, ..., n - 1`: the items in input order. */
  function Range(n: nat): (r: seq<nat>)
    ensures |r| == n && forall i :: 0 <= i < n ==> r[i] == i
  {
    seq(n, i requires 0 <= i < n => i)
  }

  /** What one item pushes: its record, or nothing. */
  function Pushed<B>(o: Option<B>): seq<B>
  {
    if o.Some? then [o.value] else []
  }

  /** The records a loop over `xs` pushes when item `x` pushes `Pushed(f(x))`. */
  function Collect<A, B>(xs: seq<A>, f: A -> Option<B>): seq<B>
  {
    if xs == [] then [] else Collect(xs[..|xs| - 1], f) + Pushed(f(xs[|xs| - 1]))
  }

  /** One more item pushes its record after those of the items before it. */
  lemma CollectNext<A, B>(xs: seq<A>, k: nat, f: A -> Option<B>)
    requires k < |xs|
    ensures Collect(xs[..k + 1], f) == Collect(xs[..k], f) + Pushed(f(xs[k]))
  {
    assert xs[..k + 1][..k] == xs[..k];
  }

  lemma {:induction false} CollectAppend<A, B>(xs: seq<A>, ys: seq<A>, f: A -> Option<B>)
    ensures Collect(xs + ys, f) == Collect(xs, f) + Collect(ys, f)
    decreases |ys|
  {
    if ys != [] {
      var n := |ys| - 1;
      CollectAppend(xs, ys[..n], f);
      assert (xs + ys)[..|xs + ys| - 1] == xs + ys[..n];
      assert (xs + ys)[|xs + ys| - 1] == ys[n];
      assert Collect(xs + ys, f) == Collect(xs + ys[..n], f) + Pushed(f(ys[n]));
      assert Collect(ys, f) == Collect(ys[..n], f) + Pushed(f(ys[n]));
    } else {
      assert xs + ys == xs;
    }
  }

  /** The same items in another order push the same records, in another order. */
  lemma {:induction false} CollectPermutation<A, B>(xs: seq<A>, ys: seq<A>, f: A -> Option<B>)
    requires multiset(xs) == multiset(ys)
    ensures multiset(Collect(xs, f)) == multiset(Collect(ys, f))
    decreases |xs|
  {
    if xs == [] {
      assert |multiset(ys)| == 0;
    } else {
      var n := |xs| - 1;
      var x := xs[n];
      assert x in multiset(ys);
      var j :| 0 <= j < |ys| && ys[j] == x;
      var rest := ys[..j] + ys[j + 1..];
      assert xs == xs[..n] + [x];
      assert multiset(xs[..n]) == multiset(xs) - multiset{x};
      RemoveOne(ys, j);
      CollectPermutation(xs[..n], rest, f);
      CollectRemoved(ys[..j], x, ys[j + 1..], f);
    }
  }

  /**
   * A list is its part before `j`, its element at `j` and its part after;
   * taking out the element takes one copy of it out of the multiset.
   */
  lemma RemoveOne<A>(ys: seq<A>, j: int)
    requires 0 <= j < |ys|
    ensures ys == ys[..j] + [ys[j]] + ys[j + 1..]
    ensures multiset(ys[..j] + ys[j + 1..]) == multiset(ys) - multiset{ys[j]}
  {
    assert ys == ys[..j] + [ys[j]] + ys[j + 1..];
    assert multiset(ys) == multiset(ys[..j]) + multiset{ys[j]} + multiset(ys[j + 1..]);
  }

  /** Taking item `x` out of a list takes what it pushes out of the records. */
  lemma CollectRemoved<A, B>(pre: seq<A>, x: A, post: seq<A>, f: A -> Option<B>)
    ensures multiset(Collect(pre + [x] + post, f)) == multiset(Collect(pre + post, f)) + multiset(Pushed(f(x)))
  {
    var a, b, c := Collect(pre, f), Pushed(f(x)), Collect(post, f);
    assert Collect(pre + [x] + post, f) == a + b + c by {
      CollectAppend(pre + [x], post, f);
      CollectAppend(pre, [x], f);
      assert [x][..0] == [];
    }
    assert Collect(pre + post, f) == a + c by {
      CollectAppend(pre, post, f);
    }
    MultisetMiddle(a, b, c);
  }

  /** Moving a middle part to the end keeps the multiset. */
  lemma MultisetMiddle<T>(a: seq<T>, b: seq<T>, c: seq<T>)
    ensures multiset(a + b + c) == multiset(a + c) + multiset(b)
  {
    assert multiset(a + b + c) == multiset(a) + multiset(b) + multiset(c);
  }

  /** Every item pushes a record, so there are as many records as items. */
  lemma {:induction false} CollectAll<A, B>(xs: seq<A>, f: A -> Option<B>)
    requires forall k :: 0 <= k < |xs| ==> f(xs[k]).Some?
    ensures |Collect(xs, f)| == |xs|
    decreases |xs|
  {
    if xs != [] {
      CollectAll(xs[..|xs| - 1], f);
    }
  }

  /**
   * Collected in input order, records keyed by their own item number are
   * strictly increasing by key, with keys below the number of items.
   */
  lemma {:induction false} CollectPositions<B>(n: nat, f: nat -> Option<B>, key: B -> int)
    requires forall i: nat :: i < n && f(i).Some? ==> key(f(i).value) == i
    ensures StrictlySortedBy(Collect(Range(n), f), key)
    ensures forall k :: 0 <= k < |Collect(Range(n), f)| ==> 0 <= key(Collect(Range(n), f)[k]) < n
    decreases n
  {
    if n > 0 {
      assert Range(n)[..n - 1] == Range(n - 1);
      CollectPositions(n - 1, f, key);
    }
  }
}
