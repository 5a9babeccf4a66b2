/**
  SQL ORDER BY on a (rank, date) key, where NULL dates sort first as in
  BigQuery's ascending order. Rows with equal keys keep their input order.
 */
module Sorting {
  import opened Relational
  import opened Dates

  datatype SortKey = SortKey(rank: int, date: Option<Date>)

  /** NULLs first, then chronological. */
  predicate DateAtMost(a: Option<Date>, b: Option<Date>) {
    a.None? || (b.Some? && !Before(b.value, a.value))
  }

  predicate KeyAtMost(a: SortKey, b: SortKey) {
    a.rank < b.rank || (a.rank == b.rank && DateAtMost(a.date, b.date))
  }

  predicate SortedBy<T>(s: seq<T>, key: T -> SortKey) {
    forall i, j :: 0 <= i < j < |s| ==> KeyAtMost(key(s[i]), key(s[j]))
  }

  lemma KeyAtMostTotal(a: SortKey, b: SortKey)
    ensures KeyAtMost(a, b) || KeyAtMost(b, a)
  {
  }

  function Insert<T(!new)>(x: T, s: seq<T>, key: T -> SortKey): (r: seq<T>)
    ensures multiset(r) == multiset(s) + multiset{x}
  {
    if s == [] then [x]
    else if KeyAtMost(key(x), key(s[0])) then [x] + s
    else
      assert s == [s[0]] + s[1..];
      [s[0]] + Insert(x, s[1..], key)
  }

  lemma SortedTail<T>(s: seq<T>, key: T -> SortKey)
    requires SortedBy(s, key) && s != []
    ensures SortedBy(s[1..], key)
  {
    var tail := s[1..];
    forall i, j | 0 <= i < j < |tail| ensures KeyAtMost(key(tail[i]), key(tail[j])) {
      assert tail[i] == s[i + 1] && tail[j] == s[j + 1];
    }
  }

  /** A row placed before a sorted sequence of rows with keys at least its own. */
  lemma ConsSorted<T>(h: T, rest: seq<T>, key: T -> SortKey)
    requires SortedBy(rest, key)
    requires forall j :: 0 <= j < |rest| ==> KeyAtMost(key(h), key(rest[j]))
    ensures SortedBy([h] + rest, key)
  {
    var r := [h] + rest;
    forall i, j | 0 <= i < j < |r| ensures KeyAtMost(key(r[i]), key(r[j])) {
      if i == 0 {
        assert r[j] == rest[j - 1];
      } else {
        assert r[i] == rest[i - 1] && r[j] == rest[j - 1];
      }
    }
  }

  /** Every row of a sorted sequence, and a row that does not go before its
      head, has a key at least the head's. */
  lemma HeadAtMostInserted<T(!new)>(x: T, s: seq<T>, key: T -> SortKey)
    requires SortedBy(s, key) && s != [] && !KeyAtMost(key(x), key(s[0]))
    ensures forall j :: 0 <= j < |Insert(x, s[1..], key)| ==> KeyAtMost(key(s[0]), key(Insert(x, s[1..], key)[j]))
  {
    var tail := s[1..];
    var rest := Insert(x, tail, key);
    forall j | 0 <= j < |rest| ensures KeyAtMost(key(s[0]), key(rest[j])) {
      assert rest[j] in multiset(rest);
      if rest[j] != x {
        assert rest[j] in tail;
        var k :| 0 <= k < |tail| && tail[k] == rest[j];
        assert tail[k] == s[k + 1];
      } else {
        KeyAtMostTotal(key(x), key(s[0]));
      }
    }
  }

  lemma {:induction false} InsertSorted<T(!new)>(x: T, s: seq<T>, key: T -> SortKey)
    requires SortedBy(s, key)
    ensures SortedBy(Insert(x, s, key), key)
  {
    if s != [] && !KeyAtMost(key(x), key(s[0])) {
      SortedTail(s, key);
      InsertSorted(x, s[1..], key);
      HeadAtMostInserted(x, s, key);
      ConsSorted(s[0], Insert(x, s[1..], key), key);
    }
  }

  /** `LIMIT n` of a sorted sequence: still sorted, and no row left out sorts before a row kept. */
  lemma TakeSortedLowest<T>(s: seq<T>, key: T -> SortKey, n: nat)
    requires SortedBy(s, key)
    ensures SortedBy(Take(s, n), key)
    ensures forall i, k :: 0 <= i < |Take(s, n)| && 0 <= k < |s| && s[k] !in Take(s, n) ==>
      KeyAtMost(key(Take(s, n)[i]), key(s[k]))
  {
    var out := Take(s, n);
    forall i, k | 0 <= i < |out| && 0 <= k < |s| && s[k] !in out
      ensures KeyAtMost(key(out[i]), key(s[k]))
    {
      assert k >= |out| by {
        if k < |out| {
          assert false;
        }
      }
    }
  }

  /** A stable insertion sort: a permutation of the input. */
  function SortBy<T(!new)>(s: seq<T>, key: T -> SortKey): (r: seq<T>)
    ensures multiset(r) == multiset(s)
    ensures |r| == |s|
  {
    if s == [] then []
    else
      assert s == [s[0]] + s[1..];
      var r := Insert(s[0], SortBy(s[1..], key), key);
      assert |r| == |multiset(r)|;
      r
  }

  /** ... and ordered by the key. */
  lemma {:induction false} SortBySorted<T(!new)>(s: seq<T>, key: T -> SortKey)
    ensures SortedBy(SortBy(s, key), key)
  {
    if s != [] {
      SortBySorted(s[1..], key);
      InsertSorted(s[0], SortBy(s[1..], key), key);
    }
  }
}
