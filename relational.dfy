/**
  Small relational building blocks shared by every query model: an Option
  for SQL NULL and for operations that may fail, row filters (SQL WHERE,
  pandas boolean masks), DISTINCT, GROUP BY counts and one-to-many joins.
 */
module Relational {

  datatype Option<+T> = None | Some(value: T)

  /** The rows of `s` that satisfy `p`, in their original order. */
  function Filter<T(!new)>(s: seq<T>, p: T -> bool): (r: seq<T>)
    ensures |r| <= |s|
    ensures forall x :: x in r <==> x in s && p(x)
    ensures forall i :: 0 <= i < |r| ==> p(r[i])
  {
    if s == [] then [] else (if p(s[0]) then [s[0]] else []) + Filter(s[1..], p)
  }

  lemma {:induction false} FilterConcat<T(!new)>(s: seq<T>, t: seq<T>, p: T -> bool)
    ensures Filter(s + t, p) == Filter(s, p) + Filter(t, p)
  {
    if s == [] {
      assert s + t == t;
    } else {
      assert (s + t)[1..] == s[1..] + t;
      FilterConcat(s[1..], t, p);
    }
  }

  /** Filtering by `p` and then by `q` is filtering by both. */
  lemma {:induction false} FilterTwice<T(!new)>(s: seq<T>, p: T -> bool, q: T -> bool)
    ensures Filter(Filter(s, p), q) == Filter(s, x => p(x) && q(x))
  {
    if s != [] {
      FilterTwice(s[1..], p, q);
      var head := if p(s[0]) then [s[0]] else [];
      FilterConcat(head, Filter(s[1..], p), q);
    }
  }

  /** Every element satisfies exactly one of three predicates: the three
      filtered parts add up to the whole. */
  lemma {:induction false} ThreeWayPartition<T(!new)>(s: seq<T>, p: T -> bool, q: T -> bool, r: T -> bool)
    requires forall i :: 0 <= i < |s| ==> (if p(s[i]) then 1 else 0) + (if q(s[i]) then 1 else 0) + (if r(s[i]) then 1 else 0) == 1
    ensures |Filter(s, p)| + |Filter(s, q)| + |Filter(s, r)| == |s|
  {
    if s != [] {
      assert forall i :: 0 <= i < |s[1..]| ==> s[1..][i] == s[i + 1];
      ThreeWayPartition(s[1..], p, q, r);
    }
  }

  /** Same for a two-way split by a predicate and its negation. */
  lemma {:induction false} TwoWayPartition<T(!new)>(s: seq<T>, p: T -> bool, q: T -> bool)
    requires forall i :: 0 <= i < |s| ==> p(s[i]) != q(s[i])
    ensures |Filter(s, p)| + |Filter(s, q)| == |s|
  {
    if s != [] {
      assert forall i :: 0 <= i < |s[1..]| ==> s[1..][i] == s[i + 1];
      TwoWayPartition(s[1..], p, q);
    }
  }

  /** A filter by a weaker predicate keeps at least as many rows. */
  lemma {:induction false} FilterMonotone<T(!new)>(s: seq<T>, p: T -> bool, q: T -> bool)
    requires forall i :: 0 <= i < |s| ==> p(s[i]) ==> q(s[i])
    ensures |Filter(s, p)| <= |Filter(s, q)|
  {
    if s != [] {
      assert forall i :: 0 <= i < |s[1..]| ==> s[1..][i] == s[i + 1];
      FilterMonotone(s[1..], p, q);
    }
  }

  /** A filter that every row passes keeps them all. */
  lemma {:induction false} FilterAll<T(!new)>(s: seq<T>, p: T -> bool)
    requires forall i :: 0 <= i < |s| ==> p(s[i])
    ensures Filter(s, p) == s
  {
    if s != [] {
      assert forall i :: 0 <= i < |s[1..]| ==> s[1..][i] == s[i + 1];
      FilterAll(s[1..], p);
    }
  }

  /** Two sequences of the same length whose rows agree pointwise on the
      predicates have filters of the same size. */
  lemma {:induction false} FilterSizeAlike<A(!new), B(!new)>(a: seq<A>, b: seq<B>, p: A -> bool, q: B -> bool)
    requires |a| == |b|
    requires forall i :: 0 <= i < |a| ==> p(a[i]) == q(b[i])
    ensures |Filter(a, p)| == |Filter(b, q)|
  {
    if a != [] {
      assert forall i :: 0 <= i < |a[1..]| ==> a[1..][i] == a[i + 1] && b[1..][i] == b[i + 1];
      FilterSizeAlike(a[1..], b[1..], p, q);
    }
  }

  /** A filter that no row passes keeps none. */
  lemma {:induction false} FilterNone<T(!new)>(s: seq<T>, p: T -> bool)
    requires forall i :: 0 <= i < |s| ==> !p(s[i])
    ensures Filter(s, p) == []
  {
    if s != [] {
      assert forall i :: 0 <= i < |s[1..]| ==> s[1..][i] == s[i + 1];
      FilterNone(s[1..], p);
    }
  }

  /** Filtering keeps distinct rows distinct. */
  lemma {:induction false} FilterKeepsNoDuplicates<T(!new)>(s: seq<T>, p: T -> bool)
    requires NoDuplicates(s)
    ensures NoDuplicates(Filter(s, p))
  {
    if s != [] {
      var tail := s[1..];
      assert NoDuplicates(tail) by {
        forall i, j | 0 <= i < j < |tail| ensures tail[i] != tail[j] {
          assert tail[i] == s[i + 1] && tail[j] == s[j + 1];
        }
      }
      FilterKeepsNoDuplicates(tail, p);
      forall j | 0 <= j < |tail| ensures tail[j] != s[0] {
        assert tail[j] == s[j + 1];
      }
    }
  }

  /** Where every row of `b` that passes `q` sits beside a row of `a` that
      passes `p`, `b` keeps no more rows than `a`. */
  lemma {:induction false} FilterSizeAtMost<A(!new), B(!new)>(a: seq<A>, b: seq<B>, p: A -> bool, q: B -> bool)
    requires |a| == |b|
    requires forall i :: 0 <= i < |a| ==> q(b[i]) ==> p(a[i])
    ensures |Filter(b, q)| <= |Filter(a, p)|
  {
    if a != [] {
      assert forall i :: 0 <= i < |a[1..]| ==> a[1..][i] == a[i + 1] && b[1..][i] == b[i + 1];
      FilterSizeAtMost(a[1..], b[1..], p, q);
    }
  }

  /** Number of occurrences of `x` in `s` (a GROUP BY ... COUNT(*) cell). */
  function Occurrences<T(==)>(s: seq<T>, x: T): nat
    decreases |s|
  {
    if s == [] then 0
    else Occurrences(s[..|s| - 1], x) + (if s[|s| - 1] == x then 1 else 0)
  }

  lemma {:induction false} OccurrencesFilter<T(!new)>(s: seq<T>, x: T)
    ensures Occurrences(s, x) == |Filter(s, y => y == x)|
    decreases |s|
  {
    if s != [] {
      var init, last := s[..|s| - 1], s[|s| - 1];
      assert s == init + [last];
      OccurrencesFilter(init, x);
      FilterConcat(init, [last], y => y == x);
    }
  }

  lemma {:induction false} OccurrencesAbsent<T>(s: seq<T>, x: T)
    requires x !in s
    ensures Occurrences(s, x) == 0
    decreases |s|
  {
    if s != [] {
      assert s == s[..|s| - 1] + [s[|s| - 1]];
      OccurrencesAbsent(s[..|s| - 1], x);
    }
  }

  predicate NoDuplicates<T(==)>(s: seq<T>) {
    forall i, j :: 0 <= i < j < |s| ==> s[i] != s[j]
  }

  /** SQL DISTINCT: the elements of `s` once each, in order of first occurrence. */
  function Distinct<T(==,!new)>(s: seq<T>): (d: seq<T>)
    ensures forall x :: x in d <==> x in s
    ensures NoDuplicates(d)
    ensures |d| <= |s|
    decreases |s|
  {
    if s == [] then []
    else
      var init, last := s[..|s| - 1], s[|s| - 1];
      assert s == init + [last];
      var d := Distinct(init);
      if last in d then d else d + [last]
  }

  /** Sum of the group counts of the keys in `keys` that satisfy `p`. */
  function SumCountsWhere<T(==)>(keys: seq<T>, s: seq<T>, p: T -> bool): nat
  {
    if keys == [] then 0
    else (if p(keys[0]) then Occurrences(s, keys[0]) else 0) + SumCountsWhere(keys[1..], s, p)
  }

  lemma {:induction false} SumCountsWhereAppendKey<T>(keys: seq<T>, k: T, s: seq<T>, p: T -> bool)
    ensures SumCountsWhere(keys + [k], s, p)
         == SumCountsWhere(keys, s, p) + (if p(k) then Occurrences(s, k) else 0)
  {
    if keys == [] {
      assert keys + [k] == [k];
    } else {
      assert (keys + [k])[1..] == keys[1..] + [k];
      SumCountsWhereAppendKey(keys[1..], k, s, p);
    }
  }

  lemma {:induction false} SumCountsWhereAppendRow<T>(keys: seq<T>, s: seq<T>, x: T, p: T -> bool)
    requires NoDuplicates(keys)
    ensures SumCountsWhere(keys, s + [x], p)
         == SumCountsWhere(keys, s, p) + (if x in keys && p(x) then 1 else 0)
  {
    if keys != [] {
      assert (s + [x])[..|s + [x]| - 1] == s;
      assert NoDuplicates(keys[1..]) by {
        forall i, j | 0 <= i < j < |keys[1..]| ensures keys[1..][i] != keys[1..][j] {
          assert keys[1..][i] == keys[i + 1] && keys[1..][j] == keys[j + 1];
        }
      }
      SumCountsWhereAppendRow(keys[1..], s, x, p);
      assert x in keys <==> x == keys[0] || x in keys[1..];
      assert x == keys[0] ==> x !in keys[1..];
    }
  }

  /**
    GROUP BY key, COUNT(*): summing the counts of the groups whose key
    satisfies `p` gives the number of rows whose key satisfies `p`.
   */
  lemma {:induction false} GroupCountsSum<T(!new)>(s: seq<T>, p: T -> bool)
    ensures SumCountsWhere(Distinct(s), s, p) == |Filter(s, p)|
    decreases |s|
  {
    if s != [] {
      var init, last := s[..|s| - 1], s[|s| - 1];
      assert s == init + [last];
      var d := Distinct(init);
      GroupCountsSum(init, p);
      SumCountsWhereAppendRow(d, init, last, p);
      FilterConcat(init, [last], p);
      if last !in d {
        SumCountsWhereAppendKey(d, last, s, p);
        OccurrencesAbsent(init, last);
      }
    }
  }

  /** The sum of `f` over the rows of `s` (a SUM aggregate). */
  function SumOf<T>(s: seq<T>, f: T -> nat): nat {
    if s == [] then 0 else f(s[0]) + SumOf(s[1..], f)
  }

  lemma {:induction false} SumOfConcat<T>(s: seq<T>, t: seq<T>, f: T -> nat)
    ensures SumOf(s + t, f) == SumOf(s, f) + SumOf(t, f)
  {
    if s == [] {
      assert s + t == t;
    } else {
      assert (s + t)[1..] == s[1..] + t;
      SumOfConcat(s[1..], t, f);
    }
  }

  /** Taking out the element at `j` takes one copy of it out of the multiset. */
  lemma RemoveAtMultiset<T>(t: seq<T>, j: nat)
    requires j < |t|
    ensures multiset(t) == multiset{t[j]} + multiset(t[..j] + t[j + 1..])
  {
    assert t == t[..j] + ([t[j]] + t[j + 1..]);
  }

  /** Taking out the element at `j` takes its term out of the sum. */
  lemma SumOfRemoveAt<T>(t: seq<T>, j: nat, f: T -> nat)
    requires j < |t|
    ensures SumOf(t, f) == f(t[j]) + SumOf(t[..j] + t[j + 1..], f)
  {
    assert t == t[..j] + t[j..];
    SumOfConcat(t[..j], t[j..], f);
    assert t[j..][1..] == t[j + 1..];
    assert SumOf(t[j..], f) == f(t[j]) + SumOf(t[j + 1..], f);
    SumOfConcat(t[..j], t[j + 1..], f);
  }

  /** An element of the multiset of `t` sits at some index of `t`. */
  lemma IndexOfMember<T>(t: seq<T>, x: T) returns (j: nat)
    requires x in multiset(t)
    ensures j < |t| && t[j] == x
  {
    assert x in t;
    j :| 0 <= j < |t| && t[j] == x;
  }

  /** The first element of `s` sits somewhere in a permutation `t` of it,
      and the rest of `s` is a permutation of `t` without it. */
  lemma HeadInPermutation<T>(s: seq<T>, t: seq<T>) returns (j: nat)
    requires multiset(s) == multiset(t) && s != []
    ensures j < |t| && t[j] == s[0] && multiset(s[1..]) == multiset(t[..j] + t[j + 1..])
  {
    assert s == [s[0]] + s[1..];
    assert multiset(s) == multiset{s[0]} + multiset(s[1..]);
    j := IndexOfMember(t, s[0]);
    RemoveAtMultiset(t, j);
    var a, b := multiset(s[1..]), multiset(t[..j] + t[j + 1..]);
    assert a == (multiset{s[0]} + a) - multiset{s[0]};
    assert b == (multiset{s[0]} + b) - multiset{s[0]};
  }

  /** A sum does not depend on the order of the rows. */
  lemma {:induction false} SumOfPermutation<T>(s: seq<T>, t: seq<T>, f: T -> nat)
    requires multiset(s) == multiset(t)
    ensures SumOf(s, f) == SumOf(t, f)
    decreases |s|
  {
    if s == [] {
      assert |t| == |multiset(t)| == 0;
    } else {
      var j := HeadInPermutation(s, t);
      SumOfPermutation(s[1..], t[..j] + t[j + 1..], f);
      SumOfRemoveAt(t, j, f);
    }
  }

  /** Summing `f` over the rows that pass `p` is summing `g`, which is `f`
      on those rows and zero elsewhere, over all rows. */
  lemma {:induction false} SumOfFilter<T(!new)>(s: seq<T>, p: T -> bool, f: T -> nat, g: T -> nat)
    requires forall x :: g(x) == if p(x) then f(x) else 0
    ensures SumOf(Filter(s, p), f) == SumOf(s, g)
  {
    if s != [] {
      SumOfFilter(s[1..], p, f, g);
      var head := if p(s[0]) then [s[0]] else [];
      SumOfConcat(head, Filter(s[1..], p), f);
    }
  }

  /** A GROUP BY group: a key and its `COUNT(*)`. */
  datatype Counted<T> = Counted(key: T, count: nat)

  function CountOf<T>(c: Counted<T>): nat {
    c.count
  }

  function CountsOf<T(==)>(keys: seq<T>, s: seq<T>): (g: seq<Counted<T>>)
    ensures |g| == |keys|
    ensures forall i :: 0 <= i < |g| ==> g[i] == Counted(keys[i], Occurrences(s, keys[i]))
  {
    if keys == [] then [] else [Counted(keys[0], Occurrences(s, keys[0]))] + CountsOf(keys[1..], s)
  }

  /** `GROUP BY key`, `COUNT(*)`: one group per distinct key, in order of first occurrence. */
  function GroupBy<T(==,!new)>(s: seq<T>): (g: seq<Counted<T>>)
    ensures |g| == |Distinct(s)|
    ensures forall i :: 0 <= i < |g| ==> g[i] == Counted(Distinct(s)[i], Occurrences(s, Distinct(s)[i]))
  {
    CountsOf(Distinct(s), s)
  }

  lemma {:induction false} CountsOfSum<T>(keys: seq<T>, s: seq<T>, p: T -> bool, w: Counted<T> -> nat)
    requires forall c :: w(c) == if p(c.key) then c.count else 0
    ensures SumOf(CountsOf(keys, s), w) == SumCountsWhere(keys, s, p)
  {
    if keys != [] {
      CountsOfSum(keys[1..], s, p, w);
      assert CountsOf(keys, s)[1..] == CountsOf(keys[1..], s);
    }
  }

  /** The counts of the groups whose key satisfies `p` add up to the number
      of rows whose key satisfies `p`; `w` weighs a group by its count where
      `p` holds and by zero elsewhere. */
  lemma GroupBySum<T(!new)>(s: seq<T>, p: T -> bool, w: Counted<T> -> nat)
    requires forall c :: w(c) == if p(c.key) then c.count else 0
    ensures SumOf(GroupBy(s), w) == |Filter(s, p)|
  {
    CountsOfSum(Distinct(s), s, p, w);
    GroupCountsSum(s, p);
  }

  /** Each group is a key of `s` with the number of rows that carry it,
      and each key of `s` has its group. */
  lemma {:induction false} GroupByMember<T(!new)>(s: seq<T>, g: Counted<T>)
    ensures g in GroupBy(s) <==> g.key in s && g.count == Occurrences(s, g.key)
  {
    if g in GroupBy(s) {
      var i :| 0 <= i < |GroupBy(s)| && GroupBy(s)[i] == g;
      assert Distinct(s)[i] in Distinct(s);
    }
    if g.key in s && g.count == Occurrences(s, g.key) {
      var i :| 0 <= i < |Distinct(s)| && Distinct(s)[i] == g.key;
      assert GroupBy(s)[i] == g;
    }
  }

  /** The concatenation of `f(a)` for every `a` in `s` (a one-to-many join). */
  function FlatMap<A, B>(s: seq<A>, f: A -> seq<B>): seq<B>
  {
    if s == [] then [] else f(s[0]) + FlatMap(s[1..], f)
  }

  lemma {:induction false} FlatMapConstantLength<A, B>(s: seq<A>, f: A -> seq<B>, k: nat)
    requires forall i :: 0 <= i < |s| ==> |f(s[i])| == k
    ensures |FlatMap(s, f)| == |s| * k
  {
    if s != [] {
      assert forall i :: 0 <= i < |s[1..]| ==> s[1..][i] == s[i + 1];
      FlatMapConstantLength(s[1..], f, k);
      assert |s| * k == k + (|s| - 1) * k;
    }
  }

  lemma {:induction false} FlatMapLengthAtLeast<A, B>(s: seq<A>, f: A -> seq<B>)
    requires forall i :: 0 <= i < |s| ==> |f(s[i])| >= 1
    ensures |FlatMap(s, f)| >= |s|
  {
    if s != [] {
      assert forall i :: 0 <= i < |s[1..]| ==> s[1..][i] == s[i + 1];
      FlatMapLengthAtLeast(s[1..], f);
    }
  }

  /** A join that yields one row for each row passing `p` and none for the
      others has as many rows as the filter. */
  lemma {:induction false} FlatMapLengthFilter<A(!new), B>(s: seq<A>, f: A -> seq<B>, p: A -> bool)
    requires forall i :: 0 <= i < |s| ==> |f(s[i])| == if p(s[i]) then 1 else 0
    ensures |FlatMap(s, f)| == |Filter(s, p)|
  {
    if s != [] {
      assert forall i :: 0 <= i < |s[1..]| ==> s[1..][i] == s[i + 1];
      FlatMapLengthFilter(s[1..], f, p);
    }
  }

  lemma {:induction false} FlatMapMember<A, B>(s: seq<A>, f: A -> seq<B>, y: B)
    ensures y in FlatMap(s, f) <==> exists i :: 0 <= i < |s| && y in f(s[i])
  {
    if s != [] {
      FlatMapMember(s[1..], f, y);
      if y in FlatMap(s[1..], f) {
        var i :| 0 <= i < |s[1..]| && y in f(s[1..][i]);
        assert y in f(s[i + 1]);
      }
      if exists i :: 0 <= i < |s| && y in f(s[i]) {
        var i :| 0 <= i < |s| && y in f(s[i]);
        if i > 0 {
          assert s[1..][i - 1] == s[i];
        }
      }
    }
  }

  lemma {:induction false} FlatMapConcat<A, B>(s: seq<A>, t: seq<A>, f: A -> seq<B>)
    ensures FlatMap(s + t, f) == FlatMap(s, f) + FlatMap(t, f)
  {
    if s == [] {
      assert s + t == t;
    } else {
      assert (s + t)[1..] == s[1..] + t;
      FlatMapConcat(s[1..], t, f);
    }
  }

  /** The first `n` rows (SQL LIMIT, pandas head). */
  function Take<T>(s: seq<T>, n: nat): (r: seq<T>)
    ensures |r| == if |s| < n then |s| else n
    ensures forall i :: 0 <= i < |r| ==> r[i] == s[i]
  {
    if |s| <= n then s else s[..n]
  }
}
