/** Sequence vocabulary shared by the pages: `Array.prototype.filter`, the
    first-seen order of a `Set` built by `forEach`, and counting. */
module Seqs {

  /** `s.filter(p)`, defined on the last element so that it follows a left-to-right loop. */
  function Filter<T>(s: seq<T>, p: T -> bool): seq<T>
  {
    if s == [] then []
    else Filter(s[..|s| - 1], p) + (if p(s[|s| - 1]) then [s[|s| - 1]] else [])
  }

  /** `a` is `b` with some elements deleted, the rest in their original order. */
  predicate IsSubsequence<T(==)>(a: seq<T>, b: seq<T>)
  {
    if b == [] then a == []
    else
      (a != [] && a[|a| - 1] == b[|b| - 1] && IsSubsequence(a[..|a| - 1], b[..|b| - 1]))
      || IsSubsequence(a, b[..|b| - 1])
  }

  /** Deleting nothing is a subsequence too. */
  lemma {:induction false} SubsequenceOfItself<T>(s: seq<T>)
    ensures IsSubsequence(s, s)
  {
    if s != [] {
      SubsequenceOfItself(s[..|s| - 1]);
    }
  }

  lemma {:induction false} FilterFacts<T>(s: seq<T>, p: T -> bool)
    ensures |Filter(s, p)| <= |s|
    ensures forall x :: x in Filter(s, p) <==> x in s && p(x)
  {
    if s != [] {
      FilterFacts(s[..|s| - 1], p);
      assert s == s[..|s| - 1] + [s[|s| - 1]];
    }
  }

  lemma {:induction false} FilterIsSubsequence<T>(s: seq<T>, p: T -> bool)
    ensures IsSubsequence(Filter(s, p), s)
  {
    if s != [] {
      FilterIsSubsequence(s[..|s| - 1], p);
      var f := Filter(s, p);
      if p(s[|s| - 1]) {
        assert f == Filter(s[..|s| - 1], p) + [s[|s| - 1]];
        assert f[..|f| - 1] == Filter(s[..|s| - 1], p);
        assert f != [] && f[|f| - 1] == s[|s| - 1];
      } else {
        assert f == Filter(s[..|s| - 1], p);
      }
    }
  }

  /** When every element passes, filtering changes nothing. */
  lemma {:induction false} FilterAll<T>(s: seq<T>, p: T -> bool)
    requires forall i :: 0 <= i < |s| ==> p(s[i])
    ensures Filter(s, p) == s
  {
    if s != [] {
      FilterAll(s[..|s| - 1], p);
    }
  }

  /** When no element passes, nothing is kept. */
  lemma {:induction false} FilterNone<T>(s: seq<T>, p: T -> bool)
    requires forall i :: 0 <= i < |s| ==> !p(s[i])
    ensures Filter(s, p) == []
  {
    if s != [] {
      FilterNone(s[..|s| - 1], p);
    }
  }

  lemma FilterAppend<T>(s: seq<T>, x: T, p: T -> bool)
    ensures Filter(s + [x], p) == Filter(s, p) + (if p(x) then [x] else [])
  {
    assert (s + [x])[..|s|] == s;
  }

  /** Filtering by two predicates that agree everywhere gives the same sequence. */
  lemma {:induction false} FilterCongruence<T>(s: seq<T>, p: T -> bool, q: T -> bool)
    requires forall x :: p(x) == q(x)
    ensures Filter(s, p) == Filter(s, q)
  {
    if s != [] {
      FilterCongruence(s[..|s| - 1], p, q);
    }
  }

  predicate NoDuplicates<T(==)>(s: seq<T>)
  {
    forall i, j :: 0 <= i < j < |s| ==> s[i] != s[j]
  }

  /** Filtering a sequence without duplicates leaves none. */
  lemma {:induction false} FilterNoDuplicates<T>(s: seq<T>, p: T -> bool)
    requires NoDuplicates(s)
    ensures NoDuplicates(Filter(s, p))
  {
    if s != [] {
      var t := s[..|s| - 1];
      FilterNoDuplicates(t, p);
      FilterFacts(t, p);
      assert s[|s| - 1] !in t;
    }
  }

  lemma {:induction false} FilterConcat<T>(a: seq<T>, b: seq<T>, p: T -> bool)
    ensures Filter(a + b, p) == Filter(a, p) + Filter(b, p)
  {
    if b == [] {
      assert a + b == a;
    } else {
      var c := b[..|b| - 1];
      FilterConcat(a, c, p);
      assert (a + b)[..|a + b| - 1] == a + c;
    }
  }

  /** The distinct elements of `s` in first-seen order: what `Array.from(set)` gives
      for a `Set` filled by a loop over `s`. */
  function Distinct<T(==)>(s: seq<T>): seq<T>
  {
    if s == [] then []
    else
      var d := Distinct(s[..|s| - 1]);
      if s[|s| - 1] in d then d else d + [s[|s| - 1]]
  }

  lemma DistinctAppend<T>(s: seq<T>, x: T)
    ensures Distinct(s + [x]) == if x in Distinct(s) then Distinct(s) else Distinct(s) + [x]
  {
    assert (s + [x])[..|s|] == s;
  }

  /** Position of the first occurrence of `x` in `s`. */
  function IndexOf<T(==)>(s: seq<T>, x: T): (i: nat)
    requires x in s
    ensures i < |s| && s[i] == x && x !in s[..i]
  {
    if s[0] == x then 0 else 1 + IndexOf(s[1..], x)
  }

  lemma {:induction false} IndexOfPrefix<T>(s: seq<T>, x: T, n: nat)
    requires n <= |s| && x in s[..n]
    ensures IndexOf(s[..n], x) == IndexOf(s, x)
  {
    if s[0] != x {
      assert s[..n][1..] == s[1..][..n - 1];
      IndexOfPrefix(s[1..], x, n - 1);
    }
  }

  lemma {:induction false} DistinctMember<T>(s: seq<T>, y: T)
    ensures y in Distinct(s) <==> y in s
  {
    if s != [] {
      DistinctMember(s[..|s| - 1], y);
      assert s == s[..|s| - 1] + [s[|s| - 1]];
    }
  }

  /** Distinct(s) holds every element of `s` once, in the order of first appearance. */
  lemma {:induction false} DistinctFacts<T>(s: seq<T>)
    ensures NoDuplicates(Distinct(s))
    ensures forall x :: x in Distinct(s) <==> x in s
    ensures forall i, j :: 0 <= i < j < |Distinct(s)| ==>
              Distinct(s)[i] in s && Distinct(s)[j] in s &&
              IndexOf(s, Distinct(s)[i]) < IndexOf(s, Distinct(s)[j])
  {
    if s != [] {
      var t := s[..|s| - 1];
      var x := s[|s| - 1];
      assert s == t + [x];
      DistinctFacts(t);
      var d := Distinct(t);
      forall y | y in d ensures y in t && IndexOf(s, y) == IndexOf(t, y) && IndexOf(s, y) < |s| - 1 {
        DistinctMember(t, y);
        IndexOfPrefix(s, y, |s| - 1);
      }
      if x !in d {
        var e := d + [x];
        assert x !in t;
        assert IndexOf(s, x) == |s| - 1;
        forall i, j | 0 <= i < j < |e| ensures e[i] in s && e[j] in s && IndexOf(s, e[i]) < IndexOf(s, e[j]) {
          assert e[i] in d;
          if j < |d| {
            assert IndexOf(t, d[i]) < IndexOf(t, d[j]);
          }
        }
      } else {
        forall i, j | 0 <= i < j < |d| ensures d[i] in s && d[j] in s && IndexOf(s, d[i]) < IndexOf(s, d[j]) {
          assert IndexOf(t, d[i]) < IndexOf(t, d[j]);
        }
      }
    }
  }

  /** Number of occurrences of `x` in `s`. */
  function Occurrences<T(==)>(s: seq<T>, x: T): nat
  {
    multiset(s)[x]
  }

  lemma OccurrencesAppend<T>(s: seq<T>, x: T, k: T)
    ensures Occurrences(s + [x], k) == Occurrences(s, k) + (if k == x then 1 else 0)
  {
    assert multiset(s + [x]) == multiset(s) + multiset{x};
  }

  /** Sum of the occurrence counts in `s` of the labels in `keys`. */
  function SumOccurrences<T(==)>(keys: seq<T>, s: seq<T>): nat
  {
    if keys == [] then 0
    else SumOccurrences(keys[..|keys| - 1], s) + Occurrences(s, keys[|keys| - 1])
  }

  lemma {:induction false} SumOccurrencesAppend<T>(keys: seq<T>, s: seq<T>, x: T)
    requires NoDuplicates(keys)
    ensures SumOccurrences(keys, s + [x]) == SumOccurrences(keys, s) + (if x in keys then 1 else 0)
  {
    assert multiset(s + [x]) == multiset(s) + multiset{x};
    if keys != [] {
      var init := keys[..|keys| - 1];
      assert NoDuplicates(init);
      SumOccurrencesAppend(init, s, x);
      assert x in keys <==> x in init || x == keys[|keys| - 1];
      assert x == keys[|keys| - 1] ==> x !in init;
    }
  }

  /** Counting each distinct label once accounts for every element: the counts of a
      frequency table sum to the number of labelled items. */
  lemma {:induction false} SumOccurrencesOfDistinct<T>(s: seq<T>)
    ensures SumOccurrences(Distinct(s), s) == |s|
  {
    if s != [] {
      var t := s[..|s| - 1];
      var x := s[|s| - 1];
      assert s == t + [x];
      SumOccurrencesOfDistinct(t);
      DistinctFacts(t);
      var d := Distinct(t);
      SumOccurrencesAppend(d, t, x);
      if x !in d {
        assert multiset(t)[x] == 0;
        assert multiset(s) == multiset(t) + multiset{x};
        assert (d + [x])[..|d|] == d;
      }
    }
  }

  /** Number of elements of `s` that satisfy `p`: a counter bumped inside a loop. */
  function Count<T>(s: seq<T>, p: T -> bool): nat
  {
    if s == [] then 0 else Count(s[..|s| - 1], p) + (if p(s[|s| - 1]) then 1 else 0)
  }

  lemma CountAppend<T>(s: seq<T>, x: T, p: T -> bool)
    ensures Count(s + [x], p) == Count(s, p) + (if p(x) then 1 else 0)
  {
    assert (s + [x])[..|s|] == s;
  }

  /** A count never exceeds the number of elements, and equals the length of the filtered sequence. */
  lemma {:induction false} CountFacts<T>(s: seq<T>, p: T -> bool)
    ensures Count(s, p) == |Filter(s, p)|
    ensures Count(s, p) <= |s|
  {
    if s != [] {
      CountFacts(s[..|s| - 1], p);
    }
  }

  /** A subsequence made of passing elements has at most as many as pass. */
  lemma {:induction false} SubsequenceCount<T>(r: seq<T>, s: seq<T>, p: T -> bool)
    requires IsSubsequence(r, s)
    requires forall x :: x in r ==> p(x)
    ensures |r| <= Count(s, p)
  {
    if s != [] {
      var init, last := s[..|s| - 1], s[|s| - 1];
      if r != [] && r[|r| - 1] == last && IsSubsequence(r[..|r| - 1], init) {
        assert r[|r| - 1] in r;
        forall x | x in r[..|r| - 1] ensures p(x) {
          assert x in r;
        }
        SubsequenceCount(r[..|r| - 1], init, p);
      } else {
        SubsequenceCount(r, init, p);
      }
    }
  }

  /** A subsequence made of passing elements that has as many elements as pass is the
      filtered sequence: the three facts together determine `Filter`. */
  lemma {:induction false} FilterDetermined<T>(r: seq<T>, s: seq<T>, p: T -> bool)
    requires IsSubsequence(r, s)
    requires forall x :: x in r ==> p(x)
    requires |r| == Count(s, p)
    ensures r == Filter(s, p)
  {
    if s != [] {
      var init, last := s[..|s| - 1], s[|s| - 1];
      if r != [] && r[|r| - 1] == last && IsSubsequence(r[..|r| - 1], init) {
        assert r[|r| - 1] in r;
        forall x | x in r[..|r| - 1] ensures p(x) {
          assert x in r;
        }
        FilterDetermined(r[..|r| - 1], init, p);
        assert r == r[..|r| - 1] + [last];
      } else {
        SubsequenceCount(r, init, p);
        if p(last) {
          assert false;
        }
        FilterDetermined(r, init, p);
      }
    }
  }

  /** Splitting a sequence by a predicate and its negation loses nothing. */
  lemma {:induction false} FilterPartition<T>(s: seq<T>, p: T -> bool, q: T -> bool)
    requires forall x :: q(x) == !p(x)
    ensures multiset(Filter(s, p)) + multiset(Filter(s, q)) == multiset(s)
  {
    if s != [] {
      var t := s[..|s| - 1];
      var x := s[|s| - 1];
      FilterPartition(t, p, q);
      assert s == t + [x];
      FilterAppend(t, x, p);
      FilterAppend(t, x, q);
      assert q(x) == !p(x);
      PartitionStep(Filter(t, p), Filter(t, q), Filter(s, p), Filter(s, q), t, x);
    }
  }

  /** Adding `x` to one side of a split of `t` splits `t + [x]`. */
  lemma PartitionStep<T>(a: seq<T>, b: seq<T>, a': seq<T>, b': seq<T>, t: seq<T>, x: T)
    requires multiset(a) + multiset(b) == multiset(t)
    requires (a' == a + [x] && b' == b) || (a' == a && b' == b + [x])
    ensures multiset(a') + multiset(b') == multiset(t + [x])
  {
  }

  /** No element repeats exactly when no element occurs twice in the multiset. */
  lemma {:induction false} NoDuplicatesMultiset<T>(s: seq<T>)
    ensures NoDuplicates(s) <==> forall x :: multiset(s)[x] <= 1
  {
    if s != [] {
      var t := s[..|s| - 1];
      var y := s[|s| - 1];
      assert s == t + [y];
      NoDuplicatesMultiset(t);
      if NoDuplicates(s) {
        assert NoDuplicates(t);
        assert y !in t;
      } else {
        var i, j :| 0 <= i < j < |s| && s[i] == s[j];
        if j < |s| - 1 {
          assert t[i] == t[j];
          assert !NoDuplicates(t);
          var z :| multiset(t)[z] > 1;
          assert multiset(s)[z] >= multiset(t)[z];
        } else {
          assert t[i] == y;
          assert multiset(s)[y] == multiset(t)[y] + 1;
        }
      }
    }
  }

  /** Occurrence count of each label in `s`, as a function value. */
  function OccurrencesIn<T(==)>(s: seq<T>): T -> nat
  {
    x => Occurrences(s, x)
  }

  /** Sum of an integer measure over a sequence. */
  function SumBy<T>(s: seq<T>, f: T -> int): int
  {
    if s == [] then 0 else SumBy(s[..|s| - 1], f) + f(s[|s| - 1])
  }

  lemma SumByAppend<T>(s: seq<T>, x: T, f: T -> int)
    ensures SumBy(s + [x], f) == SumBy(s, f) + f(x)
  {
    assert (s + [x])[..|s|] == s;
  }

  lemma {:induction false} SumByRemove<T>(s: seq<T>, i: nat, f: T -> int)
    requires i < |s|
    ensures SumBy(s, f) == SumBy(s[..i] + s[i + 1..], f) + f(s[i])
  {
    var t := s[..|s| - 1];
    var last := s[|s| - 1];
    if i < |s| - 1 {
      SumByRemove(t, i, f);
      var r := t[..i] + t[i + 1..];
      assert s[..i] + s[i + 1..] == r + [last];
      SumByAppend(r, last, f);
      assert t[i] == s[i];
    } else {
      assert s[..i] + s[i + 1..] == t;
    }
  }

  lemma {:induction false} SumOccurrencesAsSum<T>(keys: seq<T>, s: seq<T>)
    ensures SumOccurrences(keys, s) == SumBy(keys, OccurrencesIn(s))
  {
    if keys != [] {
      SumOccurrencesAsSum(keys[..|keys| - 1], s);
    }
  }

  /** Sum of a sequence of counts. */
  function SumNat(s: seq<nat>): nat
  {
    if s == [] then 0 else SumNat(s[..|s| - 1]) + s[|s| - 1]
  }
  /** Counters that all start at zero add up to zero. */
  lemma {:induction false} SumNatZero(n: nat)
    ensures SumNat(seq(n, _ => 0)) == 0
  {
    if n > 0 {
      SumNatZero(n - 1);
      assert seq(n, _ => 0)[..n - 1] == seq(n - 1, _ => 0);
    }
  }

  /** `s.length || 1`: the length, with an empty sequence read as one so it can divide. */
  function LengthOrOne<T>(s: seq<T>): (t: nat)
    ensures t >= 1
    ensures s != [] ==> t == |s|
    ensures s == [] ==> t == 1
  {
    if |s| == 0 then 1 else |s|
  }


  /** Adding one to one count adds one to the sum. */
  lemma {:induction false} SumNatIncrement(s: seq<nat>, k: nat)
    requires k < |s|
    ensures SumNat(s[k := s[k] + 1]) == SumNat(s) + 1
  {
    var t := s[k := s[k] + 1];
    assert t[..|t| - 1] == if k < |s| - 1 then s[..|s| - 1][k := s[k] + 1] else s[..|s| - 1];
    if k < |s| - 1 {
      SumNatIncrement(s[..|s| - 1], k);
    }
  }

  /** `m[k] = (m[k] || 0) + 1` */
  function Bump<T>(m: map<T, nat>, k: T): map<T, nat>
  {
    m[k := (if k in m then m[k] else 0) + 1]
  }

  /** A counting dictionary filled from `s` in order. */
  function CountMap<T(==)>(s: seq<T>): map<T, nat>
  {
    if s == [] then map[] else Bump(CountMap(s[..|s| - 1]), s[|s| - 1])
  }

  lemma CountMapAppend<T>(s: seq<T>, x: T)
    ensures CountMap(s + [x]) == Bump(CountMap(s), x)
  {
    assert (s + [x])[..|s|] == s;
  }

  /** The counting dictionary's keys are the elements of `s`, each mapped to its number
      of occurrences. */
  lemma {:induction false} CountMapFacts<T>(s: seq<T>, x: T)
    ensures x in CountMap(s) <==> x in s
    ensures x in CountMap(s) ==> CountMap(s)[x] == Occurrences(s, x) >= 1
  {
    if s != [] {
      CountMapFacts(s[..|s| - 1], x);
      assert s == s[..|s| - 1] + [s[|s| - 1]];
      assert multiset(s) == multiset(s[..|s| - 1]) + multiset{s[|s| - 1]};
    }
  }

  /** A sum does not depend on the order of its terms. */
  lemma {:induction false} SumByPermutation<T>(a: seq<T>, b: seq<T>, f: T -> int)
    requires multiset(a) == multiset(b)
    ensures SumBy(a, f) == SumBy(b, f)
    decreases |a|
  {
    if a != [] {
      var x := a[|a| - 1];
      assert x in multiset(b);
      var i :| 0 <= i < |b| && b[i] == x;
      var b' := b[..i] + b[i + 1..];
      assert b == b[..i] + [b[i]] + b[i + 1..];
      assert a == a[..|a| - 1] + [x];
      assert multiset(a) == multiset(a[..|a| - 1]) + multiset{x};
      assert multiset(b) == multiset(b[..i]) + multiset{x} + multiset(b[i + 1..]);
      assert multiset(b') == multiset(b[..i]) + multiset(b[i + 1..]);
      assert multiset(a[..|a| - 1]) == multiset(a) - multiset{x};
      assert multiset(b') == multiset(b) - multiset{x};
      SumByPermutation(a[..|a| - 1], b', f);
      SumByRemove(b, i, f);
    } else {
      assert b == [];
    }
  }
}

/** `Array.prototype.sort` with a numeric comparator: a stable sort, ascending by a key. */
module Sorting {

  predicate SortedBy<T>(s: seq<T>, key: T -> real)
  {
    forall i, j :: 0 <= i < j < |s| ==> key(s[i]) <= key(s[j])
  }

  /** Put `x` after every element whose key is not larger, keeping equal keys in arrival order. */
  function Insert<T>(sorted: seq<T>, x: T, key: T -> real): seq<T>
  {
    if sorted == [] then [x]
    else if key(sorted[|sorted| - 1]) <= key(x) then sorted + [x]
    else Insert(sorted[..|sorted| - 1], x, key) + [sorted[|sorted| - 1]]
  }

  function SortBy<T>(s: seq<T>, key: T -> real): seq<T>
  {
    if s == [] then [] else Insert(SortBy(s[..|s| - 1], key), s[|s| - 1], key)
  }

  lemma {:induction false} InsertBound<T>(sorted: seq<T>, x: T, key: T -> real, b: real)
    requires forall i :: 0 <= i < |sorted| ==> key(sorted[i]) <= b
    requires key(x) <= b
    ensures forall i :: 0 <= i < |Insert(sorted, x, key)| ==> key(Insert(sorted, x, key)[i]) <= b
  {
    if sorted != [] && key(x) < key(sorted[|sorted| - 1]) {
      InsertBound(sorted[..|sorted| - 1], x, key, b);
    }
  }

  /** Appending an element whose key bounds every key keeps the order. */
  lemma AppendSorted<T>(s: seq<T>, x: T, key: T -> real)
    requires SortedBy(s, key)
    requires forall i :: 0 <= i < |s| ==> key(s[i]) <= key(x)
    ensures SortedBy(s + [x], key)
  {
    var t := s + [x];
    forall i, j | 0 <= i < j < |t|
      ensures key(t[i]) <= key(t[j])
    {
      assert t[i] == s[i];
      if j < |s| {
        assert t[j] == s[j];
      } else {
        assert t[j] == x;
      }
    }
  }

  lemma {:induction false} InsertCount<T>(sorted: seq<T>, x: T, key: T -> real)
    ensures multiset(Insert(sorted, x, key)) == multiset(sorted) + multiset{x}
    ensures |Insert(sorted, x, key)| == |sorted| + 1
  {
    if sorted != [] {
      var init := sorted[..|sorted| - 1];
      var last := sorted[|sorted| - 1];
      assert sorted == init + [last];
      if key(x) < key(last) {
        InsertCount(init, x, key);
        assert multiset(Insert(sorted, x, key)) == multiset(Insert(init, x, key)) + multiset{last};
      }
    }
  }

  lemma {:induction false} InsertFacts<T>(sorted: seq<T>, x: T, key: T -> real)
    requires SortedBy(sorted, key)
    ensures SortedBy(Insert(sorted, x, key), key)
    ensures multiset(Insert(sorted, x, key)) == multiset(sorted) + multiset{x}
    ensures |Insert(sorted, x, key)| == |sorted| + 1
  {
    InsertCount(sorted, x, key);
    if sorted != [] {
      var init := sorted[..|sorted| - 1];
      var last := sorted[|sorted| - 1];
      forall i | 0 <= i < |sorted|
        ensures key(sorted[i]) <= key(last)
      {
      }
      if key(x) < key(last) {
        assert SortedBy(init, key);
        InsertFacts(init, x, key);
        InsertBound(init, x, key, key(last));
        AppendSorted(Insert(init, x, key), last, key);
      } else {
        AppendSorted(sorted, x, key);
      }
    }
  }

  /** The sort returns its input reordered, ascending by the key. */
  lemma {:induction false} SortByFacts<T>(s: seq<T>, key: T -> real)
    ensures SortedBy(SortBy(s, key), key)
    ensures multiset(SortBy(s, key)) == multiset(s)
    ensures |SortBy(s, key)| == |s|
  {
    if s != [] {
      var init, last := s[..|s| - 1], s[|s| - 1];
      SortByFacts(init, key);
      InsertFacts(SortBy(init, key), last, key);
      assert SortBy(s, key) == Insert(SortBy(init, key), last, key);
      assert s == init + [last];
      assert multiset(s) == multiset(init) + multiset{last};
    }
  }
}
