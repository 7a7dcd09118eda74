/** The LINQ operators that GetKeywords chains: Distinct, Count, a stable OrderByDescending and
    Take. */
module Linq {

  /** No element occurs twice. */
  predicate NoDuplicates<T(==)>(xs: seq<T>) {
    forall i, j :: 0 <= i < j < |xs| ==> xs[i] != xs[j]
  }

  /** The position of the first occurrence of `x`. */
  function FirstIndex<T(==)>(xs: seq<T>, x: T): (k: nat)
    requires x in xs
    ensures k < |xs| && xs[k] == x && x !in xs[..k]
    decreases |xs|
  {
    if xs[0] == x then 0
    else
      var k := FirstIndex(xs[1..], x);
      assert xs[..k + 1] == [xs[0]] + xs[1..][..k];
      k + 1
  }

  /** In a sequence without duplicates an element's first position is its only position. */
  lemma FirstIndexUnique<T>(xs: seq<T>, i: nat)
    requires NoDuplicates(xs) && i < |xs|
    ensures FirstIndex(xs, xs[i]) == i
  {
  }

  /** Appending elements does not move a first occurrence. */
  lemma {:induction false} FirstIndexPrefix<T>(xs: seq<T>, ys: seq<T>, x: T)
    requires x in xs
    ensures FirstIndex(xs + ys, x) == FirstIndex(xs, x)
    decreases |xs|
  {
    if xs[0] != x {
      assert xs == [xs[0]] + xs[1..];
      assert (xs + ys)[1..] == xs[1..] + ys;
      FirstIndexPrefix(xs[1..], ys, x);
    }
  }

  lemma FirstIndexPrefixes<T>(xs: seq<T>, ys: seq<T>)
    ensures forall x :: x in xs ==> FirstIndex(xs + ys, x) == FirstIndex(xs, x)
  {
    forall x | x in xs ensures FirstIndex(xs + ys, x) == FirstIndex(xs, x) {
      FirstIndexPrefix(xs, ys, x);
    }
  }

  /** Enumerable.Distinct: every element once, at the place of its first occurrence. */
  function Distinct<T(==,!new)>(xs: seq<T>): (r: seq<T>)
    ensures forall x :: x in r <==> x in xs
    ensures NoDuplicates(r)
    ensures forall i, j :: 0 <= i < j < |r| ==> FirstIndex(xs, r[i]) < FirstIndex(xs, r[j])
    decreases |xs|
  {
    if |xs| == 0 then []
    else
      var init := xs[..|xs| - 1];
      var last := xs[|xs| - 1];
      var d := Distinct(init);
      assert xs == init + [last];
      FirstIndexPrefixes(init, [last]);
      if last in d then d
      else
        assert FirstIndex(xs, last) == |xs| - 1;
        d + [last]
  }

  /** Enumerable.Count with an equality predicate: how often `x` occurs. */
  function Frequency<T(==)>(xs: seq<T>, x: T): nat {
    multiset(xs)[x]
  }

  /** Keys never increase along `xs`. */
  predicate Descending<T>(xs: seq<T>, key: T -> int) {
    forall i, j :: 0 <= i < j < |xs| ==> key(xs[i]) >= key(xs[j])
  }

  /** How many leading elements of a descending sequence have a key at least `key(x)`: where a
      stable sort puts `x` when it comes after all of them. */
  function InsertionPoint<T>(x: T, s: seq<T>, key: T -> int): (p: nat)
    ensures p <= |s|
    ensures forall k :: 0 <= k < p ==> key(s[k]) >= key(x)
    ensures p < |s| ==> key(s[p]) < key(x)
    decreases |s|
  {
    if |s| == 0 || key(s[0]) < key(x) then 0 else 1 + InsertionPoint(x, s[1..], key)
  }

  /** Putting `x` at its insertion point keeps a descending sequence descending. */
  lemma InsertKeepsDescending<T>(x: T, s: seq<T>, key: T -> int)
    requires Descending(s, key)
    ensures Descending(s[..InsertionPoint(x, s, key)] + [x] + s[InsertionPoint(x, s, key)..], key)
  {
    var p := InsertionPoint(x, s, key);
    var r := s[..p] + [x] + s[p..];
    forall i, j | 0 <= i < j < |r| ensures key(r[i]) >= key(r[j]) {
      InsertedOrdered(x, s, key, p, r, i, j);
    }
  }

  /** Any two elements after the insertion are in descending order of key. */
  lemma InsertedOrdered<T>(x: T, s: seq<T>, key: T -> int, p: nat, r: seq<T>, i: nat, j: nat)
    requires Descending(s, key)
    requires p == InsertionPoint(x, s, key) && r == s[..p] + [x] + s[p..]
    requires i < j < |r|
    ensures key(r[i]) >= key(r[j])
  {
    if i == p {
      assert r[j] == s[j - 1];
      assert key(s[j - 1]) <= key(s[p]);
    } else if j == p {
      assert r[i] == s[i];
    } else {
      var i' := if i < p then i else i - 1;
      var j' := if j < p then j else j - 1;
      assert r[i] == s[i'] && r[j] == s[j'] && i' < j';
    }
  }

  /** Inserting `x` anywhere adds one `x` to the elements. */
  lemma InsertedElements<T>(x: T, s: seq<T>, p: nat)
    requires p <= |s|
    ensures multiset(s[..p] + [x] + s[p..]) == multiset(s) + multiset{x}
  {
    assert s == s[..p] + s[p..];
  }

  /** Elements of a permutation of `xs` are elements of `xs`. */
  lemma PermutationMembers<T>(r: seq<T>, xs: seq<T>)
    requires multiset(r) == multiset(xs)
    ensures forall k :: 0 <= k < |r| ==> r[k] in xs
  {
    forall k | 0 <= k < |r| ensures r[k] in xs {
      assert r[k] in multiset(r);
    }
  }

  /** Enumerable.OrderByDescending, which .NET documents as a stable sort: the elements by
      descending key. */
  function OrderByDescending<T>(xs: seq<T>, key: T -> int): (r: seq<T>)
    ensures multiset(r) == multiset(xs)
    ensures forall k :: 0 <= k < |r| ==> r[k] in xs
    ensures Descending(r, key)
    decreases |xs|
  {
    if |xs| == 0 then []
    else
      var init := xs[..|xs| - 1];
      var last := xs[|xs| - 1];
      var s := OrderByDescending(init, key);
      var p := InsertionPoint(last, s, key);
      var r := s[..p] + [last] + s[p..];
      assert xs == init + [last];
      InsertedElements(last, s, p);
      InsertKeepsDescending(last, s, key);
      PermutationMembers(r, xs);
      r
  }

  /** Putting the last element of a sequence without duplicates at its insertion point keeps
      equal keys in the order of first occurrence. */
  lemma InsertKeepsOrder<T>(init: seq<T>, last: T, s: seq<T>, key: T -> int, p: nat, r: seq<T>)
    requires last !in init
    requires Descending(s, key)
    requires forall k :: 0 <= k < |s| ==> s[k] in init
    requires forall i, j :: 0 <= i < j < |s| && key(s[i]) == key(s[j]) ==> FirstIndex(init, s[i]) < FirstIndex(init, s[j])
    requires p == InsertionPoint(last, s, key) && r == s[..p] + [last] + s[p..]
    ensures forall k :: 0 <= k < |r| ==> r[k] in init + [last]
    ensures forall i, j :: 0 <= i < j < |r| && key(r[i]) == key(r[j]) ==>
              FirstIndex(init + [last], r[i]) < FirstIndex(init + [last], r[j])
  {
    var xs := init + [last];
    forall k | 0 <= k < |r| ensures r[k] in xs {
      if k < p {
        assert r[k] == s[k];
      } else if k > p {
        assert r[k] == s[k - 1];
      }
    }
    forall i, j | 0 <= i < j < |r|
      ensures key(r[i]) == key(r[j]) ==> FirstIndex(xs, r[i]) < FirstIndex(xs, r[j])
    {
      InsertedPair(init, last, s, key, p, r, i, j);
    }
  }

  lemma InsertedPair<T>(init: seq<T>, last: T, s: seq<T>, key: T -> int, p: nat, r: seq<T>, i: nat, j: nat)
    requires last !in init
    requires Descending(s, key)
    requires forall k :: 0 <= k < |s| ==> s[k] in init
    requires forall i, j :: 0 <= i < j < |s| && key(s[i]) == key(s[j]) ==> FirstIndex(init, s[i]) < FirstIndex(init, s[j])
    requires p == InsertionPoint(last, s, key) && r == s[..p] + [last] + s[p..]
    requires i < j < |r|
    ensures r[i] in init + [last] && r[j] in init + [last]
    ensures key(r[i]) == key(r[j]) ==> FirstIndex(init + [last], r[i]) < FirstIndex(init + [last], r[j])
  {
    FirstIndexLast(init, last);
    if i == p {
      assert r[i] == last && r[j] == s[j - 1] && s[j - 1] in init;
      assert key(s[j - 1]) <= key(s[p]) < key(last);
    } else if j == p {
      assert r[j] == last && r[i] == s[i] && s[i] in init;
      FirstIndexPrefix(init, [last], s[i]);
    } else {
      var i' := if i < p then i else i - 1;
      var j' := if j < p then j else j - 1;
      assert r[i] == s[i'] && r[j] == s[j'] && i' < j';
      assert s[i'] in init && s[j'] in init;
      FirstIndexPrefix(init, [last], s[i']);
      FirstIndexPrefix(init, [last], s[j']);
    }
  }

  /** An element appended to a sequence it is not in has its first occurrence at the end. */
  lemma FirstIndexLast<T>(init: seq<T>, last: T)
    requires last !in init
    ensures last in init + [last] && FirstIndex(init + [last], last) == |init|
  {
    assert (init + [last])[|init|] == last;
    assert forall k :: 0 <= k < |init| ==> (init + [last])[k] == init[k];
  }

  /** The sort is stable: of two elements with the same key, the one that comes first in a
      sequence without duplicates comes first in the result. */
  lemma {:induction false} OrderIsStable<T>(xs: seq<T>, key: T -> int)
    requires NoDuplicates(xs)
    ensures forall i, j :: 0 <= i < j < |OrderByDescending(xs, key)| && key(OrderByDescending(xs, key)[i]) == key(OrderByDescending(xs, key)[j]) ==>
              FirstIndex(xs, OrderByDescending(xs, key)[i]) < FirstIndex(xs, OrderByDescending(xs, key)[j])
    decreases |xs|
  {
    if |xs| > 0 {
      var init := xs[..|xs| - 1];
      var last := xs[|xs| - 1];
      OrderIsStable(init, key);
      assert xs == init + [last];
      var s := OrderByDescending(init, key);
      var p := InsertionPoint(last, s, key);
      InsertKeepsOrder(init, last, s, key, p, s[..p] + [last] + s[p..]);
    }
  }

  /** Inserting an element that is not there yet keeps a sequence free of duplicates. */
  lemma InsertKeepsDistinct<T>(s: seq<T>, x: T, p: nat)
    requires NoDuplicates(s) && x !in s && p <= |s|
    ensures NoDuplicates(s[..p] + [x] + s[p..])
  {
    var r := s[..p] + [x] + s[p..];
    forall i, j | 0 <= i < j < |r| ensures r[i] != r[j] {
      if i == p {
        assert r[j] == s[j - 1];
      } else if j == p {
        assert r[i] == s[i];
      } else {
        var i' := if i < p then i else i - 1;
        var j' := if j < p then j else j - 1;
        assert r[i] == s[i'] && r[j] == s[j'] && i' < j';
      }
    }
  }

  /** Sorting a sequence without duplicates gives one without duplicates. */
  lemma {:induction false} OrderKeepsDistinct<T>(xs: seq<T>, key: T -> int)
    requires NoDuplicates(xs)
    ensures NoDuplicates(OrderByDescending(xs, key))
    decreases |xs|
  {
    if |xs| > 0 {
      var init := xs[..|xs| - 1];
      var last := xs[|xs| - 1];
      LastIsNew(xs);
      OrderKeepsDistinct(init, key);
      var s := OrderByDescending(init, key);
      NotInPermutation(last, s, init);
      InsertKeepsDistinct(s, last, InsertionPoint(last, s, key));
    }
  }

  /** In a sequence without duplicates the last element is not among the others, and those have
      no duplicates either. */
  lemma LastIsNew<T>(xs: seq<T>)
    requires NoDuplicates(xs) && |xs| > 0
    ensures xs[|xs| - 1] !in xs[..|xs| - 1] && NoDuplicates(xs[..|xs| - 1])
  {
    var init := xs[..|xs| - 1];
    assert forall k :: 0 <= k < |init| ==> init[k] == xs[k];
  }

  /** What is not in `xs` is not in a permutation of it. */
  lemma NotInPermutation<T>(x: T, s: seq<T>, xs: seq<T>)
    requires multiset(s) == multiset(xs) && x !in xs
    ensures x !in s
  {
    assert x !in multiset(xs);
  }

  /** Every element of the input is somewhere in the sorted sequence. */
  lemma OrderKeepsElements<T>(xs: seq<T>, key: T -> int, x: T)
    requires x in xs
    ensures x in OrderByDescending(xs, key)
  {
    assert x in multiset(xs);
  }

  /** The order of first occurrence in Distinct(xs) is that in xs. */
  lemma DistinctFirstIndex<T(!new)>(xs: seq<T>, a: T, b: T)
    requires a in Distinct(xs) && b in Distinct(xs)
    requires FirstIndex(Distinct(xs), a) < FirstIndex(Distinct(xs), b)
    ensures a in xs && b in xs && FirstIndex(xs, a) < FirstIndex(xs, b)
  {
  }

  /** Enumerable.Take: the first `n` elements, none for a negative `n`. */
  function Take<T>(xs: seq<T>, n: int): (r: seq<T>)
    ensures |r| == if n <= 0 then 0 else if n < |xs| then n else |xs|
    ensures r == xs[..|r|]
  {
    if n <= 0 then [] else if n < |xs| then xs[..n] else xs
  }

  /** Elements with equal keys keep the order of their first occurrence in `xs`. */
  predicate TiesInOrder<T(==)>(r: seq<T>, key: T -> int, xs: seq<T>) {
    forall i, j :: 0 <= i < j < |r| && r[i] in xs && r[j] in xs && key(r[i]) == key(r[j]) ==>
      FirstIndex(xs, r[i]) < FirstIndex(xs, r[j])
  }

  /** Sorting the distinct elements: none twice, all from `xs`, keys non-increasing, and equal
      keys in the order of first occurrence. */
  lemma SortedDistinct<T(!new)>(xs: seq<T>, key: T -> int)
    ensures var s := OrderByDescending(Distinct(xs), key);
            NoDuplicates(s) && (forall i :: 0 <= i < |s| ==> s[i] in xs) && TiesInOrder(s, key, xs)
  {
    var d := Distinct(xs);
    var s := OrderByDescending(d, key);
    OrderKeepsDistinct(d, key);
    OrderIsStable(d, key);
    forall i, j | 0 <= i < j < |s| && s[i] in xs && s[j] in xs && key(s[i]) == key(s[j])
      ensures FirstIndex(xs, s[i]) < FirstIndex(xs, s[j])
    {
      DistinctFirstIndex(xs, s[i], s[j]);
    }
  }

  /** Take keeps a prefix, so it keeps every property of pairs of positions. */
  lemma TakeKeeps<T(!new)>(s: seq<T>, key: T -> int, xs: seq<T>, n: int)
    requires NoDuplicates(s) && (forall i :: 0 <= i < |s| ==> s[i] in xs)
    requires Descending(s, key) && TiesInOrder(s, key, xs)
    ensures var r := Take(s, n);
            NoDuplicates(r) && (forall i :: 0 <= i < |r| ==> r[i] in xs)
            && Descending(r, key) && TiesInOrder(r, key, xs)
  {
    var r := Take(s, n);
    assert forall i :: 0 <= i < |r| ==> r[i] == s[i];
  }

  /** The first `n` distinct elements by descending key: that many (or all), none twice, all from
      `xs`, keys non-increasing, and equal keys in the order of first occurrence. */
  lemma RankedTop<T(!new)>(xs: seq<T>, key: T -> int, n: int)
    ensures var r := Take(OrderByDescending(Distinct(xs), key), n);
            |r| == (if n <= 0 then 0 else if n < |Distinct(xs)| then n else |Distinct(xs)|)
            && NoDuplicates(r) && (forall i :: 0 <= i < |r| ==> r[i] in xs)
            && Descending(r, key) && TiesInOrder(r, key, xs)
  {
    var s := OrderByDescending(Distinct(xs), key);
    assert |s| == |Distinct(xs)| by {
      assert |multiset(s)| == |multiset(Distinct(xs))|;
    }
    SortedDistinct(xs, key);
    TakeKeeps(s, key, xs, n);
  }

  /** In a sorted sequence, an element past the first `n` does not outrank one among them. */
  lemma PastTheCut<T>(s: seq<T>, key: T -> int, xs: seq<T>, n: int, w: T, i: nat)
    requires Descending(s, key) && TiesInOrder(s, key, xs)
    requires w in s && w in xs && w !in Take(s, n) && i < |Take(s, n)| && s[i] in xs
    ensures key(s[i]) >= key(w) && (key(s[i]) == key(w) ==> FirstIndex(xs, s[i]) < FirstIndex(xs, w))
  {
    var r := Take(s, n);
    var j :| 0 <= j < |s| && s[j] == w;
    assert i < j;
  }

  /** Nothing left out of the first `n` outranks an element taken: its key is at most as large,
      and when equal, it occurs first later in `xs`. */
  lemma RankedMaximal<T(!new)>(xs: seq<T>, key: T -> int, n: int, w: T, i: nat)
    requires w in xs && w !in Take(OrderByDescending(Distinct(xs), key), n)
    requires i < |Take(OrderByDescending(Distinct(xs), key), n)|
    ensures var r := Take(OrderByDescending(Distinct(xs), key), n);
            key(r[i]) >= key(w) && (key(r[i]) == key(w) ==> r[i] in xs && FirstIndex(xs, r[i]) < FirstIndex(xs, w))
  {
    var s := OrderByDescending(Distinct(xs), key);
    OrderKeepsElements(Distinct(xs), key, w);
    SortedDistinct(xs, key);
    assert s[i] in xs;
    PastTheCut(s, key, xs, n, w, i);
  }
}
