/** The sequence operations the LINQ pipelines and the Python list code are
    built from: a stable descending sort by an integer key
    (OrderByDescending, list.sort(reverse=True)), keep-first de-duplication by
    identity (GroupBy(Id).Select(First)), and Skip/Take paging. */
module Ordering {

  /** Keys never increase from left to right. */
  predicate NonIncreasing<T>(s: seq<T>, key: T -> int)
  {
    forall i, j :: 0 <= i < j < |s| ==> key(s[i]) >= key(s[j])
  }

  /** The elements of `s` whose key is `k`, in their order in `s`. */
  function WithKey<T>(s: seq<T>, key: T -> int, k: int): seq<T>
  {
    if s == [] then [] else (if key(s[0]) == k then [s[0]] else []) + WithKey(s[1..], key, k)
  }

  /** Places `x` after every element with a strictly greater key and in front
      of the rest. */
  function InsertDesc<T>(x: T, s: seq<T>, key: T -> int): (r: seq<T>)
    requires NonIncreasing(s, key)
    ensures NonIncreasing(r, key)
    ensures multiset(r) == multiset(s) + multiset{x}
    ensures |r| == |s| + 1
    ensures r[0] == x || (s != [] && r[0] == s[0])
  {
    if s == [] || key(s[0]) <= key(x) then
      ConsNonIncreasing(x, s, key);
      [x] + s
    else
      TailNonIncreasing(s, key);
      var t := InsertDesc(x, s[1..], key);
      ConsInsertMultiset(s, t, x);
      ConsNonIncreasing(s[0], t, key);
      [s[0]] + t
  }

  /** Putting the head of `s` back in front of `s[1..]` with `x` inserted. */
  lemma ConsInsertMultiset<T>(s: seq<T>, t: seq<T>, x: T)
    requires s != [] && multiset(t) == multiset(s[1..]) + multiset{x}
    ensures multiset([s[0]] + t) == multiset(s) + multiset{x}
    ensures |[s[0]] + t| == |s| + 1
  {
    assert s == [s[0]] + s[1..];
  }

  /** The tail of an ordered sequence is ordered and starts no higher than
      its head. */
  lemma TailNonIncreasing<T>(s: seq<T>, key: T -> int)
    requires NonIncreasing(s, key) && s != []
    ensures NonIncreasing(s[1..], key)
    ensures |s| > 1 ==> key(s[0]) >= key(s[1..][0])
  {
    var t := s[1..];
    forall i, j | 0 <= i < j < |t| ensures key(t[i]) >= key(t[j]) {
      assert t[i] == s[i + 1] && t[j] == s[j + 1];
    }
  }

  /** An element no smaller than the head of an ordered sequence can go in
      front of it. */
  lemma ConsNonIncreasing<T>(y: T, t: seq<T>, key: T -> int)
    requires NonIncreasing(t, key) && (t != [] ==> key(y) >= key(t[0]))
    ensures NonIncreasing([y] + t, key)
  {
    var r := [y] + t;
    forall i, j | 0 <= i < j < |r| ensures key(r[i]) >= key(r[j]) {
      if i == 0 {
        assert r[j] == t[j - 1];
      } else {
        assert r[i] == t[i - 1] && r[j] == t[j - 1];
      }
    }
  }

  /** Stable sort by descending key (insertion sort). */
  function SortDesc<T>(s: seq<T>, key: T -> int): (r: seq<T>)
    ensures NonIncreasing(r, key)
    ensures multiset(r) == multiset(s)
    ensures |r| == |s|
  {
    if s == [] then []
    else
      assert s == [s[0]] + s[1..];
      InsertDesc(s[0], SortDesc(s[1..], key), key)
  }

  lemma WithKeyConcat<T>(a: seq<T>, b: seq<T>, key: T -> int, k: int)
    ensures WithKey(a + b, key, k) == WithKey(a, key, k) + WithKey(b, key, k)
  {
    if a != [] {
      assert (a + b)[1..] == a[1..] + b;
      WithKeyConcat(a[1..], b, key, k);
    } else {
      assert a + b == b;
    }
  }

  lemma {:induction false} WithKeyInsert<T>(x: T, s: seq<T>, key: T -> int, k: int)
    requires NonIncreasing(s, key)
    ensures WithKey(InsertDesc(x, s, key), key, k)
         == (if key(x) == k then [x] else []) + WithKey(s, key, k)
  {
    if s == [] || key(s[0]) <= key(x) {
      assert InsertDesc(x, s, key) == [x] + s;
      WithKeyCons(x, s, key, k);
      assert [] + WithKey(s, key, k) == WithKey(s, key, k);
    } else {
      InsertDescBehind(x, s, key);
      WithKeyInsert(x, s[1..], key, k);
      WithKeyBehind(s[0], InsertDesc(x, s[1..], key), s[1..], x, key, k);
      assert [s[0]] + s[1..] == s;
    }
  }

  /** Putting an element with a greater key in front of two sequences keeps
      the relation between their `k`-selections. */
  lemma WithKeyBehind<T>(y: T, t: seq<T>, u: seq<T>, x: T, key: T -> int, k: int)
    requires key(y) > key(x)
    requires WithKey(t, key, k) == (if key(x) == k then [x] else []) + WithKey(u, key, k)
    ensures WithKey([y] + t, key, k) == (if key(x) == k then [x] else []) + WithKey([y] + u, key, k)
  {
    WithKeyCons(y, t, key, k);
    WithKeyCons(y, u, key, k);
    if key(x) != k {
      assert WithKey(t, key, k) == WithKey(u, key, k);
    }
  }

  /** Behind a head with a greater key, insertion goes into the tail. */
  lemma InsertDescBehind<T>(x: T, s: seq<T>, key: T -> int)
    requires NonIncreasing(s, key) && s != [] && key(s[0]) > key(x)
    ensures InsertDesc(x, s, key) == [s[0]] + InsertDesc(x, s[1..], key)
  {
  }

  lemma WithKeyCons<T>(x: T, s: seq<T>, key: T -> int, k: int)
    ensures WithKey([x] + s, key, k) == (if key(x) == k then [x] + WithKey(s, key, k) else WithKey(s, key, k))
  {
    assert ([x] + s)[1..] == s;
  }

  /** Stability: among elements with equal keys the input order is kept. */
  lemma {:induction false} SortDescStable<T>(s: seq<T>, key: T -> int, k: int)
    ensures WithKey(SortDesc(s, key), key, k) == WithKey(s, key, k)
  {
    if s != [] {
      SortDescStable(s[1..], key, k);
      WithKeyInsert(s[0], SortDesc(s[1..], key), key, k);
    }
  }

  /** A sequence already in order is left as it is. */
  lemma {:induction false} SortDescSorted<T>(s: seq<T>, key: T -> int)
    requires NonIncreasing(s, key)
    ensures SortDesc(s, key) == s
  {
    if s != [] {
      SortDescSorted(s[1..], key);
      assert SortDesc(s[1..], key) == s[1..];
      if |s| > 1 { assert key(s[1]) <= key(s[0]); }
    }
  }

  /** `Where(p)`: the elements satisfying `p`, in order. */
  function Filter<T>(s: seq<T>, p: T -> bool): (r: seq<T>)
    ensures forall i :: 0 <= i < |r| ==> p(r[i])
    ensures |r| <= |s|
  {
    if s == [] then [] else (if p(s[0]) then [s[0]] else []) + Filter(s[1..], p)
  }

  /** What a prefix holds, the whole sequence holds. */
  lemma PrefixMembers<T>(m: seq<T>, r: seq<T>)
    requires m <= r
    ensures forall x :: x in m ==> x in r
  {
    forall x | x in m ensures x in r {
      var k :| 0 <= k < |m| && m[k] == x;
      assert r[k] == x;
    }
  }

  /** An element of the sequence that Where dropped fails the predicate. */
  lemma NotInFilter<T>(s: seq<T>, p: T -> bool, x: T)
    requires x in s && x !in Filter(s, p)
    ensures !p(x)
  {
    FilterMembers(s, p);
    var k :| 0 <= k < |s| && s[k] == x;
  }

  /** Where keeps exactly the elements satisfying the predicate. */
  lemma {:induction false} FilterMembers<T>(s: seq<T>, p: T -> bool)
    ensures forall i :: 0 <= i < |Filter(s, p)| ==> Filter(s, p)[i] in s
    ensures forall i :: 0 <= i < |s| && p(s[i]) ==> s[i] in Filter(s, p)
  {
    if s != [] {
      FilterMembers(s[1..], p);
      var r := Filter(s, p);
      var t := Filter(s[1..], p);
      assert r == (if p(s[0]) then [s[0]] else []) + t;
      forall i | 0 <= i < |r| ensures r[i] in s {
        if p(s[0]) && i == 0 {
        } else {
          var k := if p(s[0]) then i - 1 else i;
          assert r[i] == t[k];
          assert t[k] in s[1..];
        }
      }
      forall i | 0 <= i < |s| && p(s[i]) ensures s[i] in r {
        if i > 0 { assert s[i] == s[1..][i - 1]; }
      }
    }
  }

  lemma {:induction false} FilterOrdered<T>(s: seq<T>, p: T -> bool, key: T -> int)
    requires NonIncreasing(s, key)
    ensures NonIncreasing(Filter(s, p), key)
  {
    if s != [] {
      FilterOrdered(s[1..], p, key);
      var t := Filter(s[1..], p);
      if p(s[0]) {
        var r := [s[0]] + t;
        forall i, j | 0 <= i < j < |r| ensures key(r[i]) >= key(r[j]) {
          if i == 0 {
            assert r[j] == t[j - 1];
            FilterMembers(s[1..], p);
            assert r[j] in s[1..];
            var k :| 0 <= k < |s[1..]| && s[1..][k] == r[j];
            assert s[k + 1] == r[j];
          } else {
            assert r[i] == t[i - 1] && r[j] == t[j - 1];
          }
        }
      }
    }
  }

  lemma FilterCons<T>(x: T, s: seq<T>, p: T -> bool)
    ensures p(x) ==> Filter([x] + s, p) == [x] + Filter(s, p)
    ensures !p(x) ==> Filter([x] + s, p) == Filter(s, p)
  {
    assert ([x] + s)[0] == x;
    assert ([x] + s)[1..] == s;
    if !p(x) {
      assert [] + Filter(s, p) == Filter(s, p);
    }
  }

  /** An element that Where drops leaves the filtered sequence as it was,
      wherever it is inserted. */
  lemma {:induction false} FilterInsertDropped<T>(x: T, s: seq<T>, p: T -> bool, key: T -> int)
    requires NonIncreasing(s, key) && !p(x)
    ensures Filter(InsertDesc(x, s, key), p) == Filter(s, p)
  {
    if s == [] || key(s[0]) <= key(x) {
      FilterCons(x, s, p);
    } else {
      FilterInsertDropped(x, s[1..], p, key);
      var t := InsertDesc(x, s[1..], key);
      assert InsertDesc(x, s, key) == [s[0]] + t;
      FilterCons(s[0], t, p);
    }
  }

  /** Kept element inserted at the front. */
  lemma FilterInsertFront<T>(x: T, s: seq<T>, p: T -> bool, key: T -> int)
    requires NonIncreasing(s, key) && NonIncreasing(Filter(s, p), key) && p(x)
    requires s == [] || key(s[0]) <= key(x)
    ensures Filter(InsertDesc(x, s, key), p) == InsertDesc(x, Filter(s, p), key)
  {
    FilterCons(x, s, p);
    var f := Filter(s, p);
    if f != [] {
      FilterMembers(s, p);
      assert f[0] in s;
      var k :| 0 <= k < |s| && s[k] == f[0];
      assert key(s[0]) >= key(s[k]);
    }
  }

  lemma FilterUnfold<T>(s: seq<T>, p: T -> bool)
    requires s != []
    ensures p(s[0]) ==> Filter(s, p) == [s[0]] + Filter(s[1..], p)
    ensures !p(s[0]) ==> Filter(s, p) == Filter(s[1..], p)
  {
    if !p(s[0]) {
      assert [] + Filter(s[1..], p) == Filter(s[1..], p);
    }
  }

  /** Kept element inserted behind the head, given the claim for the tail. */
  lemma FilterInsertBehind<T>(x: T, s: seq<T>, p: T -> bool, key: T -> int)
    requires NonIncreasing(s, key) && p(x) && s != [] && key(s[0]) > key(x)
    requires NonIncreasing(Filter(s, p), key) && NonIncreasing(Filter(s[1..], p), key)
    requires Filter(InsertDesc(x, s[1..], key), p) == InsertDesc(x, Filter(s[1..], p), key)
    ensures Filter(InsertDesc(x, s, key), p) == InsertDesc(x, Filter(s, p), key)
  {
    var t := InsertDesc(x, s[1..], key);
    var f := Filter(s, p);
    var f1 := Filter(s[1..], p);
    assert InsertDesc(x, s, key) == [s[0]] + t;
    FilterCons(s[0], t, p);
    FilterUnfold(s, p);
    if p(s[0]) {
      InsertBehindHead(x, f, key);
    }
  }

  lemma InsertBehindHead<T>(x: T, s: seq<T>, key: T -> int)
    requires NonIncreasing(s, key) && s != [] && key(s[0]) > key(x)
    ensures InsertDesc(x, s, key) == [s[0]] + InsertDesc(x, s[1..], key)
  {
  }

  /** An element that Where keeps lands in the filtered sequence where the
      insertion would put it. */
  lemma {:induction false} FilterInsertKept<T>(x: T, s: seq<T>, p: T -> bool, key: T -> int)
    requires NonIncreasing(s, key) && p(x)
    ensures NonIncreasing(Filter(s, p), key)
    ensures Filter(InsertDesc(x, s, key), p) == InsertDesc(x, Filter(s, p), key)
  {
    FilterOrdered(s, p, key);
    if s == [] || key(s[0]) <= key(x) {
      FilterInsertFront(x, s, p, key);
    } else {
      FilterInsertKept(x, s[1..], p, key);
      FilterInsertBehind(x, s, p, key);
    }
  }

  /** Sorting a filtered sequence is filtering the sorted sequence: the
      stable sort commutes with Where. */
  lemma {:induction false} SortDescFilter<T>(s: seq<T>, p: T -> bool, key: T -> int)
    ensures Filter(SortDesc(s, key), p) == SortDesc(Filter(s, p), key)
  {
    if s != [] {
      SortDescFilter(s[1..], p, key);
      FilterUnfold(s, p);
      var f := Filter(s, p);
      if p(s[0]) {
        FilterInsertKept(s[0], SortDesc(s[1..], key), p, key);
        assert f[0] == s[0] && f[1..] == Filter(s[1..], p);
      } else {
        FilterInsertDropped(s[0], SortDesc(s[1..], key), p, key);
      }
    }
  }

  // ---------------------------------------------------------------- paging

  /** LINQ Skip: a non-positive count skips nothing. */
  function Skip<T>(s: seq<T>, n: int): (r: seq<T>)
    ensures |r| == if n <= 0 then |s| else if n >= |s| then 0 else |s| - n
  {
    if n <= 0 then s else if n >= |s| then [] else s[n..]
  }

  /** LINQ Take: a non-positive count takes nothing. */
  function Take<T>(s: seq<T>, n: int): (r: seq<T>)
    ensures |r| <= |s| && r == s[..|r|]
    ensures n >= 0 ==> |r| <= n
    ensures |r| == if n <= 0 then 0 else if n < |s| then n else |s|
  {
    if n <= 0 then [] else if n >= |s| then s else s[..n]
  }

  /** A prefix keeps the order, the distinctness and the membership of
      what it is taken from. */
  lemma TakePrefix<T>(s: seq<T>, n: int, key: T -> int, id: T -> int)
    ensures NonIncreasing(s, key) ==> NonIncreasing(Take(s, n), key)
    ensures DistinctIds(s, id) ==> DistinctIds(Take(s, n), id)
    ensures forall x :: x in Take(s, n) ==> x in s
    ensures multiset(Take(s, n)) <= multiset(s)
  {
    var r := Take(s, n);
    assert s == r + s[|r|..];
    forall x | x in r ensures x in s {
      var i :| 0 <= i < |r| && r[i] == x;
      assert s[i] == x;
    }
  }

  /** From a sequence in descending order, nothing a prefix leaves out
      ranks above anything it keeps. */
  lemma TakeBest<T>(s: seq<T>, key: T -> int, n: int)
    requires NonIncreasing(s, key)
    ensures forall x, i :: x in multiset(s) - multiset(Take(s, n)) && 0 <= i < |Take(s, n)|
                        ==> key(x) <= key(Take(s, n)[i])
  {
    var r := Take(s, n);
    var tail := s[|r|..];
    assert s == r + tail;
    assert multiset(s) - multiset(r) == multiset(tail);
    forall x, i | x in multiset(tail) && 0 <= i < |r|
      ensures key(x) <= key(r[i])
    {
      var j :| 0 <= j < |tail| && tail[j] == x;
      assert s[|r| + j] == x && s[i] == r[i];
    }
  }

  /** `.Skip((page - 1) * size).Take(size)`. */
  function Page<T>(s: seq<T>, page: int, size: int): seq<T>
  {
    Take(Skip(s, (page - 1) * size), size)
  }

  function Clamp(n: int, hi: nat): (r: nat)
    ensures r <= hi
  {
    if n <= 0 then 0 else if n >= hi then hi else n
  }

  /** A page is the contiguous slice starting at (page-1)*size, at most
      `size` long. */
  lemma PageIsSlice<T>(s: seq<T>, page: int, size: int)
    requires size >= 0
    ensures var lo := Clamp((page - 1) * size, |s|);
            Page(s, page, size) == s[lo..Clamp(lo + size, |s|)]
    ensures |Page(s, page, size)| <= size
  {
  }

  /** A page of an ordered sequence is ordered, and holds only elements of
      the sequence. */
  lemma PageOrdered<T>(s: seq<T>, page: int, size: int, key: T -> int)
    requires NonIncreasing(s, key)
    ensures NonIncreasing(Page(s, page, size), key)
    ensures multiset(Page(s, page, size)) <= multiset(s)
  {
    var k := Skip(s, (page - 1) * size);
    SkipSuffix(s, (page - 1) * size, key);
    TakePrefix(k, size, key, key);
  }

  /** What Skip leaves is a suffix: in order if the sequence is, and no
      more of any element. */
  lemma SkipSuffix<T>(s: seq<T>, n: int, key: T -> int)
    ensures NonIncreasing(s, key) ==> NonIncreasing(Skip(s, n), key)
    ensures multiset(Skip(s, n)) <= multiset(s)
  {
    var r := Skip(s, n);
    assert s == s[..|s| - |r|] + r;
  }

  /** A page holds only elements of the sequence. */
  lemma PageMembers<T>(s: seq<T>, page: int, size: int)
    ensures forall x :: x in Page(s, page, size) ==> x in s
  {
    var k := Skip(s, (page - 1) * size);
    forall x | x in k ensures x in s {
      var i :| 0 <= i < |k| && k[i] == x;
      assert s[|s| - |k| + i] == x;
    }
    forall x | x in Take(k, size) ensures x in k {
      var i :| 0 <= i < |Take(k, size)| && Take(k, size)[i] == x;
      assert k[i] == x;
    }
  }

  /** Pages 1 and 2 of size n, concatenated, are page 1 of size 2n: no
      overlap and no gap. */
  lemma PageConcat<T>(s: seq<T>, n: int)
    requires n >= 0
    ensures Page(s, 1, n) + Page(s, 2, n) == Page(s, 1, 2 * n)
  {
    if n < |s| {
      var p2 := Skip(s, n);
      assert p2 == s[n..];
      if 2 * n < |s| {
        assert Take(p2, n) == s[n..2 * n];
        assert s[..2 * n] == s[..n] + s[n..2 * n];
      } else {
        assert s == s[..n] + s[n..];
      }
    }
  }

  // ---------------------------------------------------------- de-duplication

  function IdSet<T>(s: seq<T>, id: T -> int): set<int>
  {
    set i | 0 <= i < |s| :: id(s[i])
  }

  lemma IdSetCons<T>(x: T, s: seq<T>, id: T -> int)
    ensures IdSet([x] + s, id) == {id(x)} + IdSet(s, id)
  {
    var l := [x] + s;
    forall k | k in IdSet(l, id) ensures k in {id(x)} + IdSet(s, id) {
      var i :| 0 <= i < |l| && id(l[i]) == k;
      if i > 0 { assert l[i] == s[i - 1]; }
    }
    forall k | k in IdSet(s, id) ensures k in IdSet(l, id) {
      var i :| 0 <= i < |s| && id(s[i]) == k;
      assert l[i + 1] == s[i];
    }
    assert l[0] == x;
  }

  predicate DistinctIds<T>(s: seq<T>, id: T -> int)
  {
    forall i, j :: 0 <= i < j < |s| ==> id(s[i]) != id(s[j])
  }

  /** Left-to-right pass that keeps an element only when its identity has
      not been seen; `seen` holds the identities already emitted. */
  function DedupFrom<T(==)>(s: seq<T>, id: T -> int, seen: set<int>): (r: seq<T>)
    ensures forall i :: 0 <= i < |r| ==> id(r[i]) !in seen && r[i] in s
    ensures DistinctIds(r, id)
    ensures IdSet(r, id) == IdSet(s, id) - seen
    ensures |r| <= |s|
  {
    if s == [] then []
    else if id(s[0]) in seen then
      var r := DedupFrom(s[1..], id, seen);
      assert IdSet(s, id) == {id(s[0])} + IdSet(s[1..], id) by { assert s == [s[0]] + s[1..]; IdSetCons(s[0], s[1..], id); }
      r
    else
      var t := DedupFrom(s[1..], id, seen + {id(s[0])});
      assert IdSet(s, id) == {id(s[0])} + IdSet(s[1..], id) by { assert s == [s[0]] + s[1..]; IdSetCons(s[0], s[1..], id); }
      IdSetCons(s[0], t, id);
      [s[0]] + t
  }

  lemma DistinctCons<T>(x: T, s: seq<T>, id: T -> int)
    ensures DistinctIds([x] + s, id) <==> id(x) !in IdSet(s, id) && DistinctIds(s, id)
  {
    var l := [x] + s;
    if DistinctIds(l, id) {
      forall i, j | 0 <= i < j < |s| ensures id(s[i]) != id(s[j]) {
        assert l[i + 1] == s[i] && l[j + 1] == s[j];
      }
      forall i | 0 <= i < |s| ensures id(s[i]) != id(x) {
        assert l[0] == x && l[i + 1] == s[i];
      }
    }
    if id(x) !in IdSet(s, id) && DistinctIds(s, id) {
      forall i, j | 0 <= i < j < |l| ensures id(l[i]) != id(l[j]) {
        assert l[j] == s[j - 1];
        if i > 0 { assert l[i] == s[i - 1]; } else { assert l[0] == x && id(s[j - 1]) in IdSet(s, id); }
      }
    }
  }

  lemma {:induction false} InsertDescIdSet<T>(x: T, s: seq<T>, key: T -> int, id: T -> int)
    requires NonIncreasing(s, key)
    ensures IdSet(InsertDesc(x, s, key), id) == {id(x)} + IdSet(s, id)
  {
    if s == [] || key(s[0]) <= key(x) {
      IdSetCons(x, s, id);
    } else {
      InsertDescIdSet(x, s[1..], key, id);
      assert s == [s[0]] + s[1..];
      IdSetCons(s[0], InsertDesc(x, s[1..], key), id);
      IdSetCons(s[0], s[1..], id);
    }
  }

  lemma {:induction false} InsertDescDistinct<T>(x: T, s: seq<T>, key: T -> int, id: T -> int)
    requires NonIncreasing(s, key)
    ensures DistinctIds(InsertDesc(x, s, key), id) <==> id(x) !in IdSet(s, id) && DistinctIds(s, id)
  {
    if s == [] || key(s[0]) <= key(x) {
      DistinctCons(x, s, id);
    } else {
      var t := InsertDesc(x, s[1..], key);
      InsertDescDistinct(x, s[1..], key, id);
      InsertDescIdSet(x, s[1..], key, id);
      assert s == [s[0]] + s[1..];
      IdSetCons(s[0], s[1..], id);
      DistinctCons(s[0], t, id);
      DistinctCons(s[0], s[1..], id);
    }
  }

  /** Sorting keeps the set of identities and their distinctness. */
  lemma {:induction false} SortDescIds<T>(s: seq<T>, key: T -> int, id: T -> int)
    ensures IdSet(SortDesc(s, key), id) == IdSet(s, id)
    ensures DistinctIds(SortDesc(s, key), id) <==> DistinctIds(s, id)
  {
    if s != [] {
      SortDescIds(s[1..], key, id);
      InsertDescIdSet(s[0], SortDesc(s[1..], key), key, id);
      InsertDescDistinct(s[0], SortDesc(s[1..], key), key, id);
      assert s == [s[0]] + s[1..];
      IdSetCons(s[0], s[1..], id);
      DistinctCons(s[0], s[1..], id);
    }
  }

  /** GroupBy(id).Select(g => g.First()): the first element of each identity,
      in order of first appearance. */
  function Dedup<T(==)>(s: seq<T>, id: T -> int): seq<T>
  {
    DedupFrom(s, id, {})
  }

  /** Reference reading of keep-first: element i survives iff no earlier
      element has its identity. */
  function FirstOccurrences<T(==)>(s: seq<T>, id: T -> int): seq<T>
  {
    if s == [] then []
    else
      var init := s[..|s| - 1];
      FirstOccurrences(init, id) + (if id(s[|s| - 1]) in IdSet(init, id) then [] else [s[|s| - 1]])
  }

  lemma {:induction false} DedupFromSnoc<T>(s: seq<T>, x: T, id: T -> int, seen: set<int>)
    ensures DedupFrom(s + [x], id, seen)
         == DedupFrom(s, id, seen) + (if id(x) in seen + IdSet(s, id) then [] else [x])
  {
    if s == [] {
      assert [] + [x] == [x];
    } else {
      assert (s + [x])[1..] == s[1..] + [x];
      assert (s + [x])[0] == s[0];
      assert IdSet(s, id) == {id(s[0])} + IdSet(s[1..], id) by { assert s == [s[0]] + s[1..]; IdSetCons(s[0], s[1..], id); }
      if id(s[0]) in seen {
        DedupFromSnoc(s[1..], x, id, seen);
      } else {
        DedupFromSnoc(s[1..], x, id, seen + {id(s[0])});
      }
    }
  }

  /** The left-to-right pass agrees with the reference reading. */
  lemma {:induction false} DedupIsFirstOccurrences<T>(s: seq<T>, id: T -> int)
    ensures Dedup(s, id) == FirstOccurrences(s, id)
  {
    if s != [] {
      var init := s[..|s| - 1];
      assert s == init + [s[|s| - 1]];
      DedupIsFirstOccurrences(init, id);
      DedupFromSnoc(init, s[|s| - 1], id, {});
    }
  }

  /** Input that is already identity-distinct passes through unchanged. */
  lemma {:induction false} DedupDistinct<T>(s: seq<T>, id: T -> int, seen: set<int>)
    requires DistinctIds(s, id)
    requires forall i :: 0 <= i < |s| ==> id(s[i]) !in seen
    ensures DedupFrom(s, id, seen) == s
  {
    if s != [] {
      DedupDistinct(s[1..], id, seen + {id(s[0])});
    }
  }

  /** No element occurs twice. */
  predicate Distinct<T(==)>(s: seq<T>)
  {
    forall i, j :: 0 <= i < j < |s| ==> s[i] != s[j]
  }

  lemma {:induction false} FilterDistinct<T>(s: seq<T>, p: T -> bool)
    requires Distinct(s)
    ensures Distinct(Filter(s, p))
  {
    if s != [] {
      FilterDistinct(s[1..], p);
      FilterMembers(s[1..], p);
      FilterUnfold(s, p);
      var t := Filter(s[1..], p);
      if p(s[0]) {
        assert s[0] !in s[1..];
        assert s[0] !in t;
        var r := [s[0]] + t;
        forall i, j | 0 <= i < j < |r| ensures r[i] != r[j] {
          if i > 0 {
            assert r[i] == t[i - 1] && r[j] == t[j - 1];
          } else {
            assert r[j] == t[j - 1];
          }
        }
      }
    }
  }

  // ------------------------------------------------------ loop helpers

  /** Appending one element extends Where's result by it when it is kept. */
  /** One step of a loop that filters `s` from the front. */
  lemma FilterPrefixStep<T>(s: seq<T>, i: int, p: T -> bool)
    requires 0 <= i < |s|
    ensures p(s[i]) ==> Filter(s[..i + 1], p) == Filter(s[..i], p) + [s[i]]
    ensures !p(s[i]) ==> Filter(s[..i + 1], p) == Filter(s[..i], p)
  {
    assert s[..i + 1] == s[..i] + [s[i]];
    FilterSnoc(s[..i], s[i], p);
    if !p(s[i]) {
      assert Filter(s[..i], p) + [] == Filter(s[..i], p);
    }
  }

  lemma {:induction false} FilterSnoc<T>(s: seq<T>, x: T, p: T -> bool)
    ensures Filter(s + [x], p) == Filter(s, p) + (if p(x) then [x] else [])
    decreases |s|
  {
    if s == [] {
      assert [] + [x] == [x];
      FilterUnfold([x], p);
    } else {
      assert (s + [x])[1..] == s[1..] + [x];
      FilterSnoc(s[1..], x, p);
      FilterUnfold(s + [x], p);
      FilterUnfold(s, p);
    }
  }

  lemma NoMemberIsEmpty<T>(p: set<T>)
    requires forall k :: k !in p
    ensures p == {}
  {
    assert forall k :: k in p <==> k in {};
  }

  /** A non-empty set has a member to visit. */
  lemma HasMember<T>(p: set<T>)
    requires p != {}
    ensures exists k :: k in p
  {
    if forall k :: k !in p {
      NoMemberIsEmpty(p);
    }
  }

  // ------------------------------------------- sorting (key, element) pairs

  /** The sort key of a (key, element) pair. */
  function PairKey<T>(p: (int, T)): int
  {
    p.0
  }

  /** The elements of a sequence of (key, element) pairs. */
  function Seconds<T>(s: seq<(int, T)>): (r: seq<T>)
    ensures |r| == |s|
    ensures forall i :: 0 <= i < |s| ==> r[i] == s[i].1
  {
    if s == [] then [] else [s[0].1] + Seconds(s[1..])
  }

  /** Every pair carries the key of its element. */
  predicate KeyedBy<T>(s: seq<(int, T)>, key: T -> int)
  {
    forall i :: 0 <= i < |s| ==> s[i].0 == key(s[i].1)
  }

  /** A rearrangement of keyed pairs is keyed. */
  lemma KeyedByPermutation<T>(s: seq<(int, T)>, t: seq<(int, T)>, key: T -> int)
    requires KeyedBy(s, key) && multiset(t) == multiset(s)
    ensures KeyedBy(t, key)
  {
    forall i | 0 <= i < |t| ensures t[i].0 == key(t[i].1) {
      assert t[i] in multiset(t);
      var j :| 0 <= j < |s| && s[j] == t[i];
    }
  }

  lemma SecondsCons<T>(x: (int, T), s: seq<(int, T)>)
    ensures Seconds([x] + s) == [x.1] + Seconds(s)
  {
    assert ([x] + s)[1..] == s;
  }

  lemma KeyedSeconds<T>(s: seq<(int, T)>, key: T -> int)
    requires KeyedBy(s, key) && NonIncreasing(s, PairKey)
    ensures NonIncreasing(Seconds(s), key)
  {
  }

  lemma InsertDescPairedFront<T>(x: (int, T), s: seq<(int, T)>, key: T -> int)
    requires x.0 == key(x.1) && KeyedBy(s, key) && NonIncreasing(s, PairKey)
    requires s == [] || s[0].0 <= x.0
    ensures NonIncreasing(Seconds(s), key)
    ensures Seconds(InsertDesc(x, s, PairKey)) == InsertDesc(x.1, Seconds(s), key)
  {
    KeyedSeconds(s, key);
    SecondsCons(x, s);
  }

  lemma SecondsTail<T>(s: seq<(int, T)>)
    requires s != []
    ensures Seconds(s)[1..] == Seconds(s[1..])
  {
  }

  lemma InsertDescPairedBehind<T>(x: (int, T), s: seq<(int, T)>, key: T -> int)
    requires x.0 == key(x.1) && KeyedBy(s, key) && NonIncreasing(s, PairKey)
    requires s != [] && s[0].0 > x.0
    requires Seconds(InsertDesc(x, s[1..], PairKey)) == InsertDesc(x.1, Seconds(s[1..]), key)
    ensures Seconds(InsertDesc(x, s, PairKey)) == InsertDesc(x.1, Seconds(s), key)
  {
    KeyedSeconds(s, key);
    SecondsTail(s);
    InsertBehindHead(x.1, Seconds(s), key);
    InsertBehindHead(x, s, PairKey);
    SecondsCons(s[0], InsertDesc(x, s[1..], PairKey));
  }

  lemma {:induction false} InsertDescPaired<T>(x: (int, T), s: seq<(int, T)>, key: T -> int)
    requires x.0 == key(x.1) && KeyedBy(s, key) && NonIncreasing(s, PairKey)
    ensures NonIncreasing(Seconds(s), key)
    ensures Seconds(InsertDesc(x, s, PairKey)) == InsertDesc(x.1, Seconds(s), key)
  {
    KeyedSeconds(s, key);
    if s == [] || s[0].0 <= x.0 {
      InsertDescPairedFront(x, s, key);
    } else {
      InsertDescPaired(x, s[1..], key);
      InsertDescPairedBehind(x, s, key);
    }
  }

  /** Sorting pairs by their keys sorts their elements by the key the pairs
      carry: scoring first and sorting the scored pairs is sorting by score. */
  lemma {:induction false} SortDescPaired<T>(s: seq<(int, T)>, key: T -> int)
    requires KeyedBy(s, key)
    ensures Seconds(SortDesc(s, PairKey)) == SortDesc(Seconds(s), key)
  {
    if s != [] {
      SortDescPaired(s[1..], key);
      var t := SortDesc(s[1..], PairKey);
      KeyedByPermutation(s[1..], t, key);
      InsertDescPaired(s[0], t, key);
      assert Seconds(s)[1..] == Seconds(s[1..]);
    }
  }
}
