/** Sequence operations that stand for the document store's scans: filtered scans,
    first-match lookups, sorting by a key, and reversal. */
module Seqs {
  import opened Wrappers

  /** The elements of `s` that satisfy `p`, in their original order. */
  function Filter<T>(s: seq<T>, p: T -> bool): (r: seq<T>)
    ensures |r| <= |s|
    ensures forall i :: 0 <= i < |r| ==> p(r[i])
    ensures multiset(r) <= multiset(s)
  {
    if |s| == 0 then []
    else
      var init := s[..|s| - 1];
      var last := s[|s| - 1];
      assert s == init + [last];
      Filter(init, p) + (if p(last) then [last] else [])
  }

  /** Filtering distributes over appending one element. */
  lemma FilterAppend<T>(s: seq<T>, x: T, p: T -> bool)
    ensures Filter(s + [x], p) == Filter(s, p) + (if p(x) then [x] else [])
  {
    assert (s + [x])[..|s + [x]| - 1] == s;
  }

  /** Filtering leaves a sequence alone when every element passes. */
  lemma {:induction false} FilterAll<T>(s: seq<T>, p: T -> bool)
    requires forall i :: 0 <= i < |s| ==> p(s[i])
    ensures Filter(s, p) == s
  {
    if |s| > 0 {
      var init := s[..|s| - 1];
      var last := s[|s| - 1];
      assert s == init + [last];
      assert forall i :: 0 <= i < |init| ==> init[i] == s[i];
      FilterAll(init, p);
      FilterAppend(init, last, p);
    }
  }

  /** Nothing passes a filter that no element satisfies. */
  lemma {:induction false} FilterNone<T>(s: seq<T>, p: T -> bool)
    requires forall i :: 0 <= i < |s| ==> !p(s[i])
    ensures Filter(s, p) == []
  {
    if |s| > 0 {
      FilterNone(s[..|s| - 1], p);
    }
  }

  /** Every element that satisfies `p` survives the filter. */
  lemma {:induction false} FilterKeeps<T>(s: seq<T>, p: T -> bool, i: nat)
    requires i < |s| && p(s[i])
    ensures s[i] in multiset(Filter(s, p))
  {
    var init := s[..|s| - 1];
    var last := s[|s| - 1];
    assert s == init + [last];
    FilterAppend(init, last, p);
    if i < |s| - 1 {
      FilterKeeps(init, p, i);
      assert init[i] == s[i];
    }
  }

  /** Filtering cannot make two elements share a key. */
  lemma {:induction false} FilterKeepsUniqueKeys<T, K>(s: seq<T>, p: T -> bool, key: T -> K)
    requires forall i, j :: 0 <= i < j < |s| ==> key(s[i]) != key(s[j])
    ensures var f := Filter(s, p);
      forall i, j :: 0 <= i < j < |f| ==> key(f[i]) != key(f[j])
  {
    if |s| > 0 {
      var init := s[..|s| - 1];
      var last := s[|s| - 1];
      assert s == init + [last];
      assert forall i, j :: 0 <= i < j < |init| ==> key(init[i]) != key(init[j]) by {
        assert forall i :: 0 <= i < |init| ==> init[i] == s[i];
      }
      FilterKeepsUniqueKeys(init, p, key);
      FilterAppend(init, last, p);
      if p(last) {
        assert forall i :: 0 <= i < |init| ==> key(init[i]) != key(last) by {
          assert forall i :: 0 <= i < |init| ==> init[i] == s[i];
        }
        FilterKeyAbsent(init, p, key, last);
        AppendKeepsUniqueKeys(Filter(init, p), last, key);
      }
    }
  }

  /** A key no element of `s` has is not had by any element of a filter of `s`. */
  lemma FilterKeyAbsent<T, K>(s: seq<T>, p: T -> bool, key: T -> K, x: T)
    requires forall i :: 0 <= i < |s| ==> key(s[i]) != key(x)
    ensures var f := Filter(s, p);
      forall i :: 0 <= i < |f| ==> key(f[i]) != key(x)
  {
    var f := Filter(s, p);
    forall i | 0 <= i < |f|
      ensures key(f[i]) != key(x)
    {
      assert f[i] in multiset(s);
      var j :| 0 <= j < |s| && s[j] == f[i];
    }
  }

  /** Appending an element whose key is new keeps keys unique. */
  lemma AppendKeepsUniqueKeys<T, K>(s: seq<T>, x: T, key: T -> K)
    requires forall i, j :: 0 <= i < j < |s| ==> key(s[i]) != key(s[j])
    requires forall i :: 0 <= i < |s| ==> key(s[i]) != key(x)
    ensures var r := s + [x];
      forall i, j :: 0 <= i < j < |r| ==> key(r[i]) != key(r[j])
  {
    var r := s + [x];
    forall i, j | 0 <= i < j < |r|
      ensures key(r[i]) != key(r[j])
    {
      assert r[i] == s[i];
      if j < |s| {
        assert r[j] == s[j];
      }
    }
  }

  /** Two complementary filters split `s` between them: every element lands in
      exactly one of the two. */
  lemma {:induction false} FilterPartition<T>(s: seq<T>, p: T -> bool, q: T -> bool)
    requires forall x :: q(x) == !p(x)
    ensures multiset(Filter(s, p)) + multiset(Filter(s, q)) == multiset(s)
  {
    if |s| > 0 {
      var init := s[..|s| - 1];
      var last := s[|s| - 1];
      assert s == init + [last];
      FilterPartition(init, p, q);
      FilterAppend(init, last, p);
      FilterAppend(init, last, q);
      assert multiset(s) == multiset(init) + multiset{last};
    }
  }

  /** The two complementary filters' lengths add up to the whole. */
  lemma FilterPartitionLength<T>(s: seq<T>, p: T -> bool, q: T -> bool)
    requires forall x :: q(x) == !p(x)
    ensures |Filter(s, p)| + |Filter(s, q)| == |s|
  {
    FilterPartition(s, p, q);
    assert |multiset(Filter(s, p)) + multiset(Filter(s, q))| == |multiset(s)|;
  }

  /** Cutting out the element at `i` takes exactly that element away. */
  lemma RemoveAt<T>(s: seq<T>, i: nat)
    requires i < |s|
    ensures |s[..i] + s[i + 1..]| == |s| - 1
    ensures multiset(s[..i] + s[i + 1..]) + multiset{s[i]} == multiset(s)
  {
    assert s == s[..i] + [s[i]] + s[i + 1..];
  }

  /** The index of the first element of `s` satisfying `p`: what a FindOne
      over a collection in natural order returns. */
  function IndexOf<T>(s: seq<T>, p: T -> bool): (r: Option<nat>)
    ensures r.None? <==> forall i :: 0 <= i < |s| ==> !p(s[i])
    ensures r.Some? ==> r.value < |s| && p(s[r.value])
    ensures r.Some? ==> forall j :: 0 <= j < r.value ==> !p(s[j])
  {
    if |s| == 0 then None
    else if p(s[0]) then Some(0)
    else
      match IndexOf(s[1..], p)
      case None => None
      case Some(k) => Some(k + 1)
  }

  /** Filtering keeps the relative order, so an ascending sequence filters to an ascending one. */
  lemma {:induction false} FilterAscending<T>(s: seq<T>, p: T -> bool, key: T -> int)
    requires SortedAsc(s, key)
    ensures SortedAsc(Filter(s, p), key)
  {
    if |s| > 0 {
      var init := s[..|s| - 1];
      var last := s[|s| - 1];
      assert s == init + [last];
      FilterAscending(init, p, key);
      FilterAppend(init, last, p);
      FilterBounded(init, p, key, key(last));
      if p(last) {
        AscendingAppend(Filter(init, p), last, key);
      }
    }
  }

  /** Appending an element no smaller than any other keeps a sequence ascending. */
  lemma AscendingAppend<T>(s: seq<T>, x: T, key: T -> int)
    requires SortedAsc(s, key)
    requires forall i :: 0 <= i < |s| ==> key(s[i]) <= key(x)
    ensures SortedAsc(s + [x], key)
  {
    forall i, j | 0 <= i < j < |s| + 1
      ensures key((s + [x])[i]) <= key((s + [x])[j])
    {
      assert (s + [x])[i] == s[i];
    }
  }

  /** A bound on the keys of the elements that pass `p` bounds the keys of the filtered sequence. */
  lemma {:induction false} FilterBounded<T>(s: seq<T>, p: T -> bool, key: T -> int, b: int)
    requires forall i :: 0 <= i < |s| && p(s[i]) ==> key(s[i]) <= b
    ensures var f := Filter(s, p); forall i :: 0 <= i < |f| ==> key(f[i]) <= b
  {
    if |s| > 0 {
      var init := s[..|s| - 1];
      var last := s[|s| - 1];
      assert s == init + [last];
      FilterBounded(init, p, key, b);
      FilterAppend(init, last, p);
    }
  }

  /** `s` read back to front, element by element from the end. */
  function ReverseOf<T>(s: seq<T>): seq<T> {
    if |s| == 0 then [] else [s[|s| - 1]] + ReverseOf(s[..|s| - 1])
  }

  /** Reading back to front keeps the length and the elements, and puts the
      last element first. */
  lemma {:induction false} ReverseOfProperties<T>(s: seq<T>)
    ensures |ReverseOf(s)| == |s|
    ensures forall i :: 0 <= i < |s| ==> ReverseOf(s)[i] == s[|s| - 1 - i]
    ensures multiset(ReverseOf(s)) == multiset(s)
  {
    if |s| > 0 {
      var init := s[..|s| - 1];
      ReverseOfProperties(init);
      assert s == init + [s[|s| - 1]];
      forall i | 0 <= i < |s|
        ensures ReverseOf(s)[i] == s[|s| - 1 - i]
      {
        if i > 0 {
          assert ReverseOf(s)[i] == ReverseOf(init)[i - 1];
        }
      }
    }
  }

  /** `s` read back to front. */
  function Reversed<T>(s: seq<T>): (r: seq<T>)
    ensures |r| == |s|
    ensures forall i {:trigger r[i]} :: 0 <= i < |s| ==> r[i] == s[|s| - 1 - i]
    ensures multiset(r) == multiset(s)
  {
    ReverseOfProperties(s);
    ReverseOf(s)
  }

  /** Reading the first `k` elements of the reversal back to front gives the last `k` of `s`. */
  lemma ReversedPrefix<T>(s: seq<T>, k: nat)
    requires k <= |s|
    ensures Reversed(Reversed(s)[..k]) == s[|s| - k..]
  {
    var p := Reversed(s)[..k];
    forall i | 0 <= i < k
      ensures Reversed(p)[i] == s[|s| - k + i]
    {
      assert Reversed(p)[i] == p[k - 1 - i];
    }
  }

  /** The first `k` of an ascending sequence sorted newest first, read back to
      front, are its last `k`. */
  lemma TakeNewestOfAscending<T>(s: seq<T>, key: T -> int, k: nat)
    requires SortedAsc(s, key) && k <= |s|
    ensures NewestWindow(s, key, k) == s[|s| - k..]
  {
    SortDescOfAscending(s, key);
    ReversedPrefix(s, k);
  }

  /** The `k` elements with the largest keys, smallest key first: sorted
      newest first, cut to `k`, then reversed. */
  function NewestWindow<T>(s: seq<T>, key: T -> int, k: nat): (w: seq<T>)
    requires k <= |s|
    ensures |w| == k
    ensures multiset(w) <= multiset(s)
  {
    SortedTake(s, key, k);
    Reversed(SortDesc(s, key)[..k])
  }

  /** The window reads in ascending key order. */
  lemma NewestWindowAscending<T>(s: seq<T>, key: T -> int, k: nat)
    requires k <= |s|
    ensures SortedAsc(NewestWindow(s, key, k), key)
  {
    SortedTake(s, key, k);
    ReversedDescIsAsc(SortDesc(s, key)[..k], key);
  }

  /** An element newer than all others closes every non-empty window. */
  lemma NewestWindowEndsWithNewest<T>(s: seq<T>, x: T, key: T -> int, k: nat)
    requires 0 < k <= |s| + 1
    requires forall i :: 0 <= i < |s| ==> key(s[i]) <= key(x) - 1
    ensures var w := NewestWindow(s + [x], key, k);
      w[|w| - 1] == x
  {
    var w := NewestWindow(s + [x], key, k);
    SortedTakeReversed(s + [x], key, k);
    NewestWindowAscending(s + [x], key, k);
    NewestLast(w, s, x, key);
  }

  /** Non-increasing by `key`: newest first when the key is a timestamp. */
  ghost predicate SortedDesc<T>(s: seq<T>, key: T -> int) {
    forall i, j :: 0 <= i < j < |s| ==> key(s[i]) >= key(s[j])
  }

  /** Non-decreasing by `key`: oldest first when the key is a timestamp. */
  ghost predicate SortedAsc<T>(s: seq<T>, key: T -> int) {
    forall i, j :: 0 <= i < j < |s| ==> key(s[i]) <= key(s[j])
  }

  /** Insert `x` into a newest-first sequence ahead of every element whose key is not larger. */
  function InsertDesc<T>(x: T, s: seq<T>, key: T -> int): (r: seq<T>)
    requires SortedDesc(s, key)
    ensures |r| == |s| + 1
    ensures SortedDesc(r, key)
    ensures r[0] == x || (|s| > 0 && r[0] == s[0])
    ensures multiset(r) == multiset(s) + multiset{x}
  {
    if |s| == 0 || key(x) >= key(s[0]) then
      ConsDesc(x, s, key);
      [x] + s
    else
      assert s == [s[0]] + s[1..];
      SortedDescTail(s, key);
      var rest := InsertDesc(x, s[1..], key);
      ConsDesc(s[0], rest, key);
      [s[0]] + rest
  }

  /** The tail of a newest-first sequence is newest first, and starts no newer than the head. */
  lemma SortedDescTail<T>(s: seq<T>, key: T -> int)
    requires |s| > 0 && SortedDesc(s, key)
    ensures SortedDesc(s[1..], key)
    ensures |s| > 1 ==> key(s[0]) >= key(s[1])
  {
    var t := s[1..];
    forall i, j | 0 <= i < j < |t|
      ensures key(t[i]) >= key(t[j])
    {
      assert t[i] == s[i + 1] && t[j] == s[j + 1];
    }
  }

  /** Putting an element no older than the head in front keeps the order. */
  lemma ConsDesc<T>(h: T, s: seq<T>, key: T -> int)
    requires SortedDesc(s, key)
    requires |s| > 0 ==> key(h) >= key(s[0])
    ensures SortedDesc([h] + s, key)
  {
    var r := [h] + s;
    forall i, j | 0 <= i < j < |r|
      ensures key(r[i]) >= key(r[j])
    {
      if i > 0 {
        assert r[i] == s[i - 1] && r[j] == s[j - 1];
      } else {
        assert r[j] == s[j - 1];
      }
    }
  }

  /** Insertion sort, newest first: the store's `sort: {key: -1}`. */
  function SortDesc<T>(s: seq<T>, key: T -> int): (r: seq<T>)
    ensures |r| == |s|
    ensures SortedDesc(r, key)
    ensures multiset(r) == multiset(s)
  {
    if |s| == 0 then []
    else
      assert s == s[..|s| - 1] + [s[|s| - 1]];
      InsertDesc(s[|s| - 1], SortDesc(s[..|s| - 1], key), key)
  }

  /** A sequence already in ascending key order (documents inserted as the clock
      advances) sorts newest first into its exact reversal. */
  lemma {:induction false} SortDescOfAscending<T>(s: seq<T>, key: T -> int)
    requires SortedAsc(s, key)
    ensures SortDesc(s, key) == Reversed(s)
  {
    if |s| > 0 {
      var init := s[..|s| - 1];
      SortDescOfAscending(init, key);
      var rest := SortDesc(init, key);
      if |rest| > 0 {
        assert rest[0] == init[|init| - 1];
      }
    }
  }

  /** No element of `rest` has a larger key than any element of `w`. */
  ghost predicate Dominates<T>(w: seq<T>, rest: multiset<T>, key: T -> int) {
    forall y, i :: y in rest && 0 <= i < |w| ==> key(y) <= key(w[i])
  }

  /** Taking the first `k` of a newest-first sequence leaves out only elements
      no newer than any element taken. */
  lemma TakeNewest<T>(s: seq<T>, key: T -> int, k: nat)
    requires SortedDesc(s, key)
    requires k <= |s|
    ensures multiset(s[..k]) <= multiset(s)
    ensures Dominates(s[..k], multiset(s) - multiset(s[..k]), key)
  {
    assert s == s[..k] + s[k..];
    assert multiset(s) == multiset(s[..k]) + multiset(s[k..]);
    forall y, i | y in multiset(s) - multiset(s[..k]) && 0 <= i < k
      ensures key(y) <= key(s[..k][i])
    {
      assert y in multiset(s[k..]);
      var j :| 0 <= j < |s| - k && s[k..][j] == y;
      assert s[k + j] == y;
    }
  }

  /** The first `k` of `f` sorted newest first: sorted, drawn from `f`, and
      leaving out only elements no newer than any element taken. */
  lemma SortedTake<T>(f: seq<T>, key: T -> int, k: nat)
    requires k <= |f|
    ensures var r := SortDesc(f, key)[..k];
      && |r| == k
      && SortedDesc(r, key)
      && multiset(r) <= multiset(f)
      && Dominates(r, multiset(f) - multiset(r), key)
  {
    var all := SortDesc(f, key);
    TakeNewest(all, key, k);
  }

  /** The same, read oldest first. */
  lemma SortedTakeReversed<T>(f: seq<T>, key: T -> int, k: nat)
    requires k <= |f|
    ensures var w := NewestWindow(f, key, k);
      Dominates(w, multiset(f) - multiset(w), key)
  {
    var r := SortDesc(f, key)[..k];
    SortedTake(f, key, k);
    ReversedKeepsBound(multiset(f) - multiset(r), r, key);
    assert multiset(Reversed(r)) == multiset(r);
  }

  /** Reversing a newest-first sequence gives an oldest-first one. */
  lemma ReversedDescIsAsc<T>(s: seq<T>, key: T -> int)
    requires SortedDesc(s, key)
    ensures SortedAsc(Reversed(s), key)
  {
  }

  /** In a newest-first sequence, everything after position `k` is no newer than anything before it. */
  lemma PrefixDominatesSuffix<T>(s: seq<T>, key: T -> int, k: nat)
    requires SortedDesc(s, key)
    requires k <= |s|
    ensures forall x, y :: x in s[..k] && y in s[k..] ==> key(y) <= key(x)
  {
    forall x, y | x in s[..k] && y in s[k..]
      ensures key(y) <= key(x)
    {
      var i :| 0 <= i < k && s[i] == x;
      var j :| 0 <= j < |s| - k && s[k..][j] == y;
      assert s[k + j] == y;
    }
  }

  /** A bound that holds against every element of `s` holds against every element of its reversal. */
  lemma ReversedKeepsBound<T>(bag: multiset<T>, s: seq<T>, key: T -> int)
    requires Dominates(s, bag, key)
    ensures Dominates(Reversed(s), bag, key)
  {
    var r := Reversed(s);
    forall y, i | y in bag && 0 <= i < |s|
      ensures key(y) <= key(r[i])
    {
      assert r[i] == s[|s| - 1 - i];
    }
  }

  /** If `x` is strictly newer than everything in `f`, a non-empty oldest-first
      selection from `f + [x]` that leaves out nothing newer than what it keeps
      ends with `x`. */
  lemma NewestLast<T>(w: seq<T>, f: seq<T>, x: T, key: T -> int)
    requires |w| > 0
    requires SortedAsc(w, key)
    requires multiset(w) <= multiset(f + [x])
    requires Dominates(w, multiset(f + [x]) - multiset(w), key)
    requires forall i :: 0 <= i < |f| ==> key(f[i]) < key(x)
    ensures w[|w| - 1] == x
  {
    assert multiset(f + [x]) == multiset(f) + multiset{x};
    assert w[|w| - 1] in multiset(w);
  }
}
