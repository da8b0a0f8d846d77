/** Sequence helpers the store and the pages rely on: sums, filters, prefixes
    and the stable descending sort that `Array.prototype.sort` performs. */
module Seqs {

  /** Sum of `f` over the elements of `s`, left to right. */
  function SumBy<T>(s: seq<T>, f: T -> int): int
  {
    if |s| == 0 then 0 else f(s[0]) + SumBy(s[1..], f)
  }

  lemma {:induction false} SumByConcat<T>(a: seq<T>, b: seq<T>, f: T -> int)
    ensures SumBy(a + b, f) == SumBy(a, f) + SumBy(b, f)
    decreases |a|
  {
    if |a| == 0 {
      assert a + b == b;
    } else {
      assert (a + b)[1..] == a[1..] + b;
      SumByConcat(a[1..], b, f);
    }
  }

  /** The elements of `s` that satisfy `p`, in their original order. */
  function Filter<T(==)>(s: seq<T>, p: T -> bool): (r: seq<T>)
    ensures |r| <= |s|
    ensures forall i :: 0 <= i < |r| ==> p(r[i]) && r[i] in s
    ensures forall i :: 0 <= i < |s| && p(s[i]) ==> s[i] in r
  {
    if |s| == 0 then []
    else (if p(s[0]) then [s[0]] else []) + Filter(s[1..], p)
  }

  lemma {:induction false} FilterConcat<T>(a: seq<T>, b: seq<T>, p: T -> bool)
    ensures Filter(a + b, p) == Filter(a, p) + Filter(b, p)
    decreases |a|
  {
    if |a| == 0 {
      assert a + b == b;
    } else {
      assert (a + b)[1..] == a[1..] + b;
      FilterConcat(a[1..], b, p);
    }
  }

  lemma FilterSingle<T>(x: T, p: T -> bool)
    ensures Filter([x], p) == if p(x) then [x] else []
  {
    assert [x][1..] == [];
  }

  /** Filters that agree on every element select the same elements. */
  lemma {:induction false} FilterExt<T>(s: seq<T>, p: T -> bool, q: T -> bool)
    requires forall x :: p(x) == q(x)
    ensures Filter(s, p) == Filter(s, q)
    decreases |s|
  {
    if |s| > 0 {
      FilterExt(s[1..], p, q);
    }
  }

  /** Filtering twice is filtering once by the conjunction. */
  lemma {:induction false} FilterFilter<T>(s: seq<T>, p: T -> bool, q: T -> bool, pq: T -> bool)
    requires forall x :: pq(x) == (p(x) && q(x))
    ensures Filter(Filter(s, p), q) == Filter(s, pq)
    decreases |s|
  {
    if |s| > 0 {
      FilterFilter(s[1..], p, q, pq);
      var head := if p(s[0]) then [s[0]] else [];
      FilterConcat(head, Filter(s[1..], p), q);
      if p(s[0]) {
        FilterSingle(s[0], q);
      }
    }
  }

  /** At most the first `n` elements of `s` (JavaScript's `slice(0, n)`). */
  function Take<T>(s: seq<T>, n: nat): (r: seq<T>)
    ensures |r| == if |s| < n then |s| else n
    ensures forall i :: 0 <= i < |r| ==> r[i] == s[i]
  {
    if |s| <= n then s else s[..n]
  }

  /** `s` is ordered by non-increasing `key`. */
  predicate SortedDesc<T>(s: seq<T>, key: T -> int)
  {
    forall i, j :: 0 <= i < j < |s| ==> key(s[i]) >= key(s[j])
  }

  /** The elements of `s` whose key is exactly `k`, in their order in `s`.
      A sort is stable when it leaves every such subsequence unchanged. */
  function KeyFilter<T>(s: seq<T>, key: T -> int, k: int): seq<T>
  {
    if |s| == 0 then []
    else (if key(s[0]) == k then [s[0]] else []) + KeyFilter(s[1..], key, k)
  }

  lemma {:induction false} KeyFilterConcat<T>(a: seq<T>, b: seq<T>, key: T -> int, k: int)
    ensures KeyFilter(a + b, key, k) == KeyFilter(a, key, k) + KeyFilter(b, key, k)
    decreases |a|
  {
    if |a| == 0 {
      assert a + b == b;
    } else {
      var x, t := a[0], a[1..];
      assert a == [x] + t;
      assert a + b == [x] + (t + b);
      KeyFilterCons(x, t + b, key, k);
      KeyFilterCons(x, t, key, k);
      KeyFilterConcat(t, b, key, k);
      var h := if key(x) == k then [x] else [];
      assert h + (KeyFilter(t, key, k) + KeyFilter(b, key, k))
          == (h + KeyFilter(t, key, k)) + KeyFilter(b, key, k);
    }
  }

  /** In a sequence whose keys are all below `k`, no element has key `k`. */
  lemma {:induction false} KeyFilterAllBelow<T>(t: seq<T>, key: T -> int, k: int)
    requires forall i :: 0 <= i < |t| ==> key(t[i]) < k
    ensures KeyFilter(t, key, k) == []
    decreases |t|
  {
    if |t| > 0 {
      KeyFilterAllBelow(t[1..], key, k);
    }
  }

  /** Inserts `x` after every leading element whose key is at least `key(x)`. */
  function InsertDesc<T>(t: seq<T>, x: T, key: T -> int): (r: seq<T>)
    ensures |r| == |t| + 1
    ensures multiset(r) == multiset(t) + multiset{x}
    decreases |t|
  {
    if |t| == 0 then [x]
    else if key(t[0]) >= key(x) then
      assert t == [t[0]] + t[1..];
      [t[0]] + InsertDesc(t[1..], x, key)
    else
      [x] + t
  }

  /** An upper bound on the keys of `t` and of `x` bounds the keys of the insertion. */
  lemma {:induction false} InsertDescBound<T>(t: seq<T>, x: T, key: T -> int, b: int)
    requires forall i :: 0 <= i < |t| ==> key(t[i]) <= b
    requires key(x) <= b
    ensures forall i :: 0 <= i < |InsertDesc(t, x, key)| ==> key(InsertDesc(t, x, key)[i]) <= b
    decreases |t|
  {
    if |t| > 0 && key(t[0]) >= key(x) {
      InsertDescBound(t[1..], x, key, b);
    }
  }

  /** Inserting into a sorted sequence keeps it sorted. */
  lemma {:induction false} InsertDescSorted<T>(t: seq<T>, x: T, key: T -> int)
    requires SortedDesc(t, key)
    ensures SortedDesc(InsertDesc(t, x, key), key)
    decreases |t|
  {
    if |t| == 0 {
      assert InsertDesc(t, x, key) == [x];
    } else if key(t[0]) >= key(x) {
      var rest := InsertDesc(t[1..], x, key);
      assert InsertDesc(t, x, key) == [t[0]] + rest;
      SortedTail(t, key);
      InsertDescSorted(t[1..], x, key);
      InsertDescBound(t[1..], x, key, key(t[0]));
      SortedCons(t[0], rest, key);
    } else {
      assert InsertDesc(t, x, key) == [x] + t;
      SortedTail(t, key);
      SortedCons(x, t, key);
    }
  }

  /** The tail of a sorted sequence is sorted and bounded by its head. */
  lemma SortedTail<T>(t: seq<T>, key: T -> int)
    requires |t| > 0 && SortedDesc(t, key)
    ensures SortedDesc(t[1..], key)
    ensures forall i :: 0 <= i < |t[1..]| ==> key(t[1..][i]) <= key(t[0])
  {
    forall i, j | 0 <= i < j < |t[1..]| ensures key(t[1..][i]) >= key(t[1..][j]) {
      assert t[1..][i] == t[i + 1] && t[1..][j] == t[j + 1];
    }
    forall i | 0 <= i < |t[1..]| ensures key(t[1..][i]) <= key(t[0]) {
      assert t[1..][i] == t[i + 1];
    }
  }

  /** A head at least as large as every key of a sorted sequence extends it sorted. */
  lemma SortedCons<T>(h: T, rest: seq<T>, key: T -> int)
    requires SortedDesc(rest, key)
    requires forall i :: 0 <= i < |rest| ==> key(rest[i]) <= key(h)
    ensures SortedDesc([h] + rest, key)
  {
    var r := [h] + rest;
    forall i, j | 0 <= i < j < |r| ensures key(r[i]) >= key(r[j]) {
      assert r[j] == rest[j - 1];
      if i > 0 {
        assert r[i] == rest[i - 1];
      }
    }
  }

  lemma KeyFilterCons<T>(x: T, t: seq<T>, key: T -> int, k: int)
    ensures KeyFilter([x] + t, key, k) == (if key(x) == k then [x] else []) + KeyFilter(t, key, k)
  {
    assert ([x] + t)[1..] == t;
  }

  /** Inserting into a sorted sequence appends `x` to the subsequence of
      elements that share its key, and leaves every other such subsequence alone. */
  lemma {:induction false} InsertDescStable<T>(t: seq<T>, x: T, key: T -> int, k: int)
    requires SortedDesc(t, key)
    ensures KeyFilter(InsertDesc(t, x, key), key, k)
         == KeyFilter(t, key, k) + (if key(x) == k then [x] else [])
    decreases |t|
  {
    var hx := if key(x) == k then [x] else [];
    if |t| == 0 {
      assert InsertDesc(t, x, key) == [x] + t;
      KeyFilterCons(x, t, key, k);
    } else if key(t[0]) >= key(x) {
      var rest := InsertDesc(t[1..], x, key);
      var h0 := if key(t[0]) == k then [t[0]] else [];
      assert InsertDesc(t, x, key) == [t[0]] + rest;
      InsertDescStable(t[1..], x, key, k);
      KeyFilterCons(t[0], rest, key, k);
      KeyFilterCons(t[0], t[1..], key, k);
      assert t == [t[0]] + t[1..];
      calc {
        KeyFilter(InsertDesc(t, x, key), key, k);
        h0 + KeyFilter(rest, key, k);
        h0 + (KeyFilter(t[1..], key, k) + hx);
        (h0 + KeyFilter(t[1..], key, k)) + hx;
        KeyFilter(t, key, k) + hx;
      }
    } else {
      assert InsertDesc(t, x, key) == [x] + t;
      KeyFilterCons(x, t, key, k);
      if key(x) == k {
        KeyFilterAllBelow(t, key, k);
      }
    }
  }

  /** Stable insertion sort by non-increasing key. */
  function SortDesc<T>(s: seq<T>, key: T -> int): (r: seq<T>)
    ensures SortedDesc(r, key)
    ensures multiset(r) == multiset(s)
    ensures |r| == |s|
    decreases |s|
  {
    if |s| == 0 then []
    else
      var sorted := SortDesc(s[..|s| - 1], key);
      InsertDescSorted(sorted, s[|s| - 1], key);
      assert s == s[..|s| - 1] + [s[|s| - 1]];
      InsertDesc(sorted, s[|s| - 1], key)
  }

  /** No element occurs twice. */
  predicate Distinct<T(==)>(s: seq<T>)
  {
    forall i, j :: 0 <= i < j < |s| ==> s[i] != s[j]
  }

  lemma {:induction false} InsertDescDistinct<T>(t: seq<T>, x: T, key: T -> int)
    requires Distinct(t) && x !in t
    ensures Distinct(InsertDesc(t, x, key))
    decreases |t|
  {
    if |t| > 0 && key(t[0]) >= key(x) {
      var rest := InsertDesc(t[1..], x, key);
      assert Distinct(t[1..]) by {
        forall i, j | 0 <= i < j < |t[1..]| ensures t[1..][i] != t[1..][j] {
          assert t[1..][i] == t[i + 1] && t[1..][j] == t[j + 1];
        }
      }
      InsertDescDistinct(t[1..], x, key);
      assert t[0] !in rest by {
        assert t[0] !in multiset(t[1..]) + multiset{x} by {
          assert t[0] !in t[1..];
        }
      }
      var r := [t[0]] + rest;
      forall i, j | 0 <= i < j < |r| ensures r[i] != r[j] {
        assert r[j] == rest[j - 1];
        if i > 0 {
          assert r[i] == rest[i - 1];
        }
      }
    } else if |t| > 0 {
      var r := [x] + t;
      forall i, j | 0 <= i < j < |r| ensures r[i] != r[j] {
        assert r[j] == t[j - 1];
        if i > 0 {
          assert r[i] == t[i - 1];
        }
      }
    }
  }

  /** Sorting a sequence without repetitions yields one without repetitions. */
  lemma {:induction false} SortDescDistinct<T>(s: seq<T>, key: T -> int)
    requires Distinct(s)
    ensures Distinct(SortDesc(s, key))
    decreases |s|
  {
    if |s| > 0 {
      var pre := s[..|s| - 1];
      var last := s[|s| - 1];
      var sortedPre := SortDesc(pre, key);
      assert SortDesc(s, key) == InsertDesc(sortedPre, last, key);
      SortDescDistinct(pre, key);
      assert last !in sortedPre by {
        assert last !in pre;
        assert multiset(sortedPre) == multiset(pre);
        assert last !in multiset(pre);
      }
      InsertDescDistinct(sortedPre, last, key);
    }
  }

  /** Sequences with the same multiset of elements have the same members. */
  lemma SameElements<T>(a: seq<T>, b: seq<T>)
    requires multiset(a) == multiset(b)
    ensures forall x :: x in a <==> x in b
  {
    forall x ensures x in a <==> x in b {
      assert x in a <==> x in multiset(a);
      assert x in b <==> x in multiset(b);
    }
  }

  /** The sort is stable: elements with equal keys keep their relative order. */
  lemma {:induction false} SortDescStable<T>(s: seq<T>, key: T -> int, k: int)
    ensures KeyFilter(SortDesc(s, key), key, k) == KeyFilter(s, key, k)
    decreases |s|
  {
    if |s| > 0 {
      var pre := s[..|s| - 1];
      var last := s[|s| - 1];
      var sortedPre := SortDesc(pre, key);
      SortDescUnfold(s, key);
      SortDescStable(pre, key, k);
      InsertDescStable(sortedPre, last, key, k);
      KeyFilterLast(s, key, k);
    }
  }

  /** One step of the sort: the last element inserted into the sorted rest. */
  lemma SortDescUnfold<T>(s: seq<T>, key: T -> int)
    requires |s| > 0
    ensures SortDesc(s, key) == InsertDesc(SortDesc(s[..|s| - 1], key), s[|s| - 1], key)
    ensures SortedDesc(SortDesc(s[..|s| - 1], key), key)
  {
  }

  lemma KeyFilterLast<T>(s: seq<T>, key: T -> int, k: int)
    requires |s| > 0
    ensures KeyFilter(s, key, k) == KeyFilter(s[..|s| - 1], key, k) + (if key(s[|s| - 1]) == k then [s[|s| - 1]] else [])
  {
    assert s == s[..|s| - 1] + [s[|s| - 1]];
    KeyFilterSnoc(s[..|s| - 1], s[|s| - 1], key, k);
  }

  lemma KeyFilterSnoc<T>(pre: seq<T>, last: T, key: T -> int, k: int)
    ensures KeyFilter(pre + [last], key, k) == KeyFilter(pre, key, k) + (if key(last) == k then [last] else [])
  {
    KeyFilterConcat(pre, [last], key, k);
    KeyFilterCons(last, [], key, k);
    assert [last] + [] == [last];
  }
}
