/** Kotlin sortedByDescending: a stable sort on a real-valued key, and the
    top-K selection (sort, then take) built on it. */
module Sorting {
  import opened Strings

  /** The message of the exception take throws for a count below zero. */
  function NegativeCountMessage(n: int): string
    requires n < 0
  {
    "Requested element count -" + NatToString(-n) + " is less than zero."
  }

  predicate SortedDesc<T>(s: seq<T>, key: T -> real) {
    forall i, j :: 0 <= i < j < |s| ==> key(s[i]) >= key(s[j])
  }

  /** Insert x after every element whose key is at least key(x); inserting in
      input order this way keeps equal keys in their input order. */
  function Insert<T>(x: T, s: seq<T>, key: T -> real): (r: seq<T>)
    ensures |r| == |s| + 1
  {
    if s == [] || key(s[0]) < key(x) then [x] + s else [s[0]] + Insert(x, s[1..], key)
  }

  /** Inserting adds exactly x to the elements. */
  lemma {:induction false} InsertMultiset<T>(x: T, s: seq<T>, key: T -> real)
    ensures multiset(Insert(x, s, key)) == multiset(s) + multiset{x}
  {
    if s != [] && key(s[0]) >= key(x) {
      InsertMultiset(x, s[1..], key);
      ConsKeepsAdded(s, Insert(x, s[1..], key), x);
    }
  }

  /** Putting the head back in front of a tail that gained x gains x overall. */
  lemma ConsKeepsAdded<T>(s: seq<T>, rest: seq<T>, x: T)
    requires s != [] && multiset(rest) == multiset(s[1..]) + multiset{x}
    ensures multiset([s[0]] + rest) == multiset(s) + multiset{x}
  {
    assert s == [s[0]] + s[1..];
    assert multiset([s[0]] + rest) == multiset([s[0]]) + multiset(rest);
  }

  /** Every element after inserting is x or was there before. */
  lemma {:induction false} InsertMembers<T>(x: T, s: seq<T>, key: T -> real)
    ensures forall k :: 0 <= k < |Insert(x, s, key)| ==> Insert(x, s, key)[k] == x || Insert(x, s, key)[k] in s
  {
    if s != [] && key(s[0]) >= key(x) {
      InsertMembers(x, s[1..], key);
      var t := Insert(x, s[1..], key);
      forall k | 0 <= k < |t| && t[k] != x ensures t[k] in s {
        var m :| 0 <= m < |s[1..]| && s[1..][m] == t[k];
        assert s[m + 1] == t[k];
      }
    }
  }

  /** Inserting into a sorted list keeps it sorted. */
  lemma {:induction false} InsertSorted<T>(x: T, s: seq<T>, key: T -> real)
    requires SortedDesc(s, key)
    ensures SortedDesc(Insert(x, s, key), key)
  {
    if s == [] || key(s[0]) < key(x) {
      assert forall k :: 0 <= k < |s| ==> key(s[k]) <= key(s[0]);
    } else {
      var t := Insert(x, s[1..], key);
      InsertSorted(x, s[1..], key);
      InsertMembers(x, s[1..], key);
      forall k | 0 <= k < |t| ensures key(t[k]) <= key(s[0]) {
        if t[k] != x {
          var m :| 0 <= m < |s[1..]| && s[1..][m] == t[k];
          assert s[m + 1] == t[k];
        }
      }
    }
  }

  /** The sorted arrangement of s, highest key first. */
  function SortDesc<T>(s: seq<T>, key: T -> real): (r: seq<T>)
    ensures SortedDesc(r, key)
    ensures multiset(r) == multiset(s)
    ensures |r| == |s|
  {
    if s == [] then []
    else
      assert s == s[..|s| - 1] + [s[|s| - 1]];
      InsertMultiset(s[|s| - 1], SortDesc(s[..|s| - 1], key), key);
      InsertSorted(s[|s| - 1], SortDesc(s[..|s| - 1], key), key);
      Insert(s[|s| - 1], SortDesc(s[..|s| - 1], key), key)
  }

  /** The sum of an integer measure over a sequence. */
  function SumBy<T>(s: seq<T>, f: T -> int): int {
    if s == [] then 0 else SumBy(s[..|s| - 1], f) + f(s[|s| - 1])
  }

  lemma {:induction false} SumByConcat<T>(p: seq<T>, q: seq<T>, f: T -> int)
    ensures SumBy(p + q, f) == SumBy(p, f) + SumBy(q, f)
  {
    if q == [] {
      assert p + q == p;
    } else {
      assert (p + q)[..|p + q| - 1] == p + q[..|q| - 1];
      assert (p + q)[|p + q| - 1] == q[|q| - 1];
      SumByConcat(p, q[..|q| - 1], f);
    }
  }

  /** Inserting x adds f(x) to the sum. */
  lemma {:induction false} InsertSum<T>(x: T, s: seq<T>, key: T -> real, f: T -> int)
    ensures SumBy(Insert(x, s, key), f) == SumBy(s, f) + f(x)
  {
    if s == [] || key(s[0]) < key(x) {
      SumByConcat([x], s, f);
    } else {
      InsertSum(x, s[1..], key, f);
      SumByConcat([s[0]], Insert(x, s[1..], key), f);
      SumByConcat([s[0]], s[1..], f);
      assert s == [s[0]] + s[1..];
    }
  }

  /** Sorting does not change the sum. */
  lemma {:induction false} SortDescSum<T>(s: seq<T>, key: T -> real, f: T -> int)
    ensures SumBy(SortDesc(s, key), f) == SumBy(s, f)
  {
    if s != [] {
      SortDescSum(s[..|s| - 1], key, f);
      InsertSum(s[|s| - 1], SortDesc(s[..|s| - 1], key), key, f);
    }
  }

  /** The first element has the highest key and the last the lowest. */
  lemma SortedBounds<T>(s: seq<T>, key: T -> real)
    requires SortedDesc(s, key)
    ensures forall k :: 0 <= k < |s| ==> key(s[|s| - 1]) <= key(s[k]) <= key(s[0])
  {
    forall k | 0 <= k < |s| ensures key(s[|s| - 1]) <= key(s[k]) <= key(s[0]) {
      if 0 < k {
        assert key(s[0]) >= key(s[k]);
      }
      if k < |s| - 1 {
        assert key(s[k]) >= key(s[|s| - 1]);
      }
    }
  }

  /** Kotlin take(k) for k >= 0. */
  function Take<T>(s: seq<T>, k: nat): (r: seq<T>)
    ensures |r| == if k < |s| then k else |s|
    ensures r == s[..|r|]
  {
    if k < |s| then s[..k] else s
  }

  /** sortedByDescending followed by take(k). */
  function TopK<T>(s: seq<T>, key: T -> real, k: nat): (r: seq<T>)
    ensures |r| == if k < |s| then k else |s|
    ensures SortedDesc(r, key)
    ensures multiset(r) <= multiset(s)
  {
    var sorted := SortDesc(s, key);
    var r := Take(sorted, k);
    assert sorted == r + sorted[|r|..];
    r
  }

  /** Nothing left out of the top K scores above the last element returned. */
  lemma TopKOmittedNotHigher<T>(s: seq<T>, key: T -> real, k: nat, x: T)
    requires 0 < k
    requires x in multiset(s) - multiset(TopK(s, key, k))
    ensures key(x) <= key(TopK(s, key, k)[|TopK(s, key, k)| - 1])
  {
    var sorted := SortDesc(s, key);
    var r := TopK(s, key, k);
    assert sorted == r + sorted[|r|..];
    assert multiset(s) - multiset(r) == multiset(sorted[|r|..]);
    assert x in sorted[|r|..];
    var i :| 0 <= i < |sorted| - |r| && sorted[|r|..][i] == x;
    assert sorted[|r| + i] == x;
  }

  /** Every element of the top K comes from the input. */
  lemma TopKMembers<T>(s: seq<T>, key: T -> real, k: nat)
    ensures forall i :: 0 <= i < |TopK(s, key, k)| ==> TopK(s, key, k)[i] in s
  {
    var r := TopK(s, key, k);
    forall i | 0 <= i < |r| ensures r[i] in s {
      assert r[i] in multiset(r);
    }
  }

  /** Every element of a sorted arrangement comes from the input. */
  lemma SortDescMembers<T>(s: seq<T>, key: T -> real)
    ensures forall i :: 0 <= i < |SortDesc(s, key)| ==> SortDesc(s, key)[i] in s
  {
    var r := SortDesc(s, key);
    forall i | 0 <= i < |r| ensures r[i] in s {
      assert r[i] in multiset(r);
    }
  }

  /** An element is in the sorted arrangement exactly when it is in the input. */
  lemma SortDescSameElements<T>(s: seq<T>, key: T -> real, x: T)
    ensures x in SortDesc(s, key) <==> x in s
  {
    assert x in SortDesc(s, key) <==> x in multiset(SortDesc(s, key));
    assert x in s <==> x in multiset(s);
  }

  lemma {:induction false} DistinctMultiplicity<T>(s: seq<T>, x: T)
    requires NoDuplicates(s)
    ensures multiset(s)[x] <= 1
  {
    if s != [] {
      assert s == [s[0]] + s[1..];
      DistinctMultiplicity(s[1..], x);
      if x == s[0] {
        assert x !in s[1..];
      }
    }
  }

  /** In a list without repeats each element occurs once. */
  lemma DistinctCount<T>(s: seq<T>, x: T)
    requires NoDuplicates(s)
    ensures multiset(s)[x] == if x in s then 1 else 0
  {
    DistinctMultiplicity(s, x);
  }

  /** Two lists without repeats and without a common element join into one
      without repeats. */
  lemma DistinctConcat<T>(p: seq<T>, q: seq<T>)
    requires NoDuplicates(p) && NoDuplicates(q)
    requires forall i, j :: 0 <= i < |p| && 0 <= j < |q| ==> p[i] != q[j]
    ensures NoDuplicates(p + q)
  {
    var s := p + q;
    forall a, b | 0 <= a < b < |s| ensures s[a] != s[b] {
      if b < |p| {
        assert s[a] == p[a] && s[b] == p[b];
      } else if a >= |p| {
        assert s[a] == q[a - |p|] && s[b] == q[b - |p|];
      } else {
        assert s[a] == p[a] && s[b] == q[b - |p|];
      }
    }
  }

  lemma RepeatMultiplicity<T>(r: seq<T>, a: int, b: int)
    requires 0 <= a < b < |r| && r[a] == r[b]
    ensures multiset(r)[r[a]] >= 2
  {
    assert r == r[..b] + [r[b]] + r[b + 1..];
    assert r[a] in r[..b];
  }

  /** A rearrangement of a list without repeats has no repeats. */
  lemma PermutationKeepsDistinct<T>(s: seq<T>, r: seq<T>)
    requires multiset(r) == multiset(s) && NoDuplicates(s)
    ensures NoDuplicates(r)
  {
    forall a, b | 0 <= a < b < |r| ensures r[a] != r[b] {
      if r[a] == r[b] {
        RepeatMultiplicity(r, a, b);
        DistinctMultiplicity(s, r[a]);
      }
    }
  }

  /** Among elements with equal keys the input order is kept, told apart by
      a tag that grows along the input. */
  predicate StableBy<T>(s: seq<T>, key: T -> real, tag: T -> int) {
    forall i, j :: 0 <= i < j < |s| && key(s[i]) == key(s[j]) ==> tag(s[i]) < tag(s[j])
  }

  lemma StableTail<T>(s: seq<T>, key: T -> real, tag: T -> int)
    requires s != [] && StableBy(s, key, tag)
    ensures StableBy(s[1..], key, tag)
  {
    forall i, j | 0 <= i < j < |s[1..]| && key(s[1..][i]) == key(s[1..][j])
      ensures tag(s[1..][i]) < tag(s[1..][j])
    {
      assert s[1..][i] == s[i + 1] && s[1..][j] == s[j + 1];
    }
  }

  /** The head of s stays ahead of every equal key behind it after x is
      inserted further back. */
  lemma StableHead<T>(x: T, s: seq<T>, key: T -> real, tag: T -> int)
    requires s != [] && StableBy(s, key, tag) && tag(s[0]) < tag(x)
    ensures forall j :: 0 <= j < |Insert(x, s[1..], key)| && key(Insert(x, s[1..], key)[j]) == key(s[0]) ==>
              tag(s[0]) < tag(Insert(x, s[1..], key)[j])
  {
    var t := Insert(x, s[1..], key);
    InsertMembers(x, s[1..], key);
    forall j | 0 <= j < |t| && key(t[j]) == key(s[0]) ensures tag(s[0]) < tag(t[j]) {
      if t[j] != x {
        var m :| 0 <= m < |s[1..]| && s[1..][m] == t[j];
        assert s[m + 1] == t[j];
      }
    }
  }

  lemma {:induction false} InsertStable<T>(x: T, s: seq<T>, key: T -> real, tag: T -> int)
    requires SortedDesc(s, key) && StableBy(s, key, tag)
    requires forall i :: 0 <= i < |s| ==> tag(s[i]) < tag(x)
    ensures StableBy(Insert(x, s, key), key, tag)
  {
    if s != [] && key(s[0]) >= key(x) {
      var t := Insert(x, s[1..], key);
      StableTail(s, key, tag);
      InsertStable(x, s[1..], key, tag);
      StableHead(x, s, key, tag);
      var r := [s[0]] + t;
      forall i, j | 0 <= i < j < |r| && key(r[i]) == key(r[j]) ensures tag(r[i]) < tag(r[j]) {
        if i > 0 {
          assert r[i] == t[i - 1] && r[j] == t[j - 1];
        } else {
          assert r[j] == t[j - 1];
        }
      }
    } else {
      assert forall j :: 0 <= j < |s| ==> key(s[j]) <= key(s[0]);
    }
  }

  /** Kotlin's sortedByDescending is stable: equal keys keep their input order. */
  lemma {:induction false} SortDescStable<T>(s: seq<T>, key: T -> real, tag: T -> int)
    requires forall i, j :: 0 <= i < j < |s| ==> tag(s[i]) < tag(s[j])
    ensures StableBy(SortDesc(s, key), key, tag)
  {
    if s != [] {
      var p := s[..|s| - 1];
      var x := s[|s| - 1];
      SortDescStable(p, key, tag);
      var sp := SortDesc(p, key);
      forall i | 0 <= i < |sp| ensures tag(sp[i]) < tag(x) {
        assert sp[i] in multiset(p);
        var k :| 0 <= k < |p| && p[k] == sp[i];
        assert s[k] == sp[i];
      }
      InsertStable(x, sp, key, tag);
    }
  }
}
