/**
 * Querysets over an in-memory table: a table is a sequence of rows,
 * `.filter(...)` keeps the rows satisfying a condition in their order, and
 * `.order_by(...)` returns a permutation ordered by a total preorder (the
 * database gives no promise about ties, so neither does the contract).
 */
module Querysets {
  import opened Wrappers

  /** `a` is obtained from `b` by deleting elements: nothing added, nothing reordered. */
  predicate IsSubsequence<T(==)>(a: seq<T>, b: seq<T>)
    decreases |b|
  {
    |a| <= |b| &&
    (a == [] || (a[0] == b[0] && IsSubsequence(a[1..], b[1..])) || IsSubsequence(a, b[1..]))
  }

  /** `queryset.filter(keep)`. */
  function Filter<T(!new)>(s: seq<T>, keep: T -> bool): (r: seq<T>)
    ensures forall x :: multiset(r)[x] == if keep(x) then multiset(s)[x] else 0
    ensures forall x :: x in r <==> x in s && keep(x)
    ensures forall i :: 0 <= i < |r| ==> keep(r[i])
    ensures IsSubsequence(r, s)
  {
    if s == [] then []
    else
      assert s == [s[0]] + s[1..];
      var rest := Filter(s[1..], keep);
      if keep(s[0]) then [s[0]] + rest else rest
  }

  /** `if param: queryset = queryset.filter(keep)`: the filter applies only when the parameter is present. */
  function FilterWhen<T(!new)>(s: seq<T>, present: bool, keep: T -> bool): (r: seq<T>)
    ensures forall x :: multiset(r)[x] == if !present || keep(x) then multiset(s)[x] else 0
  {
    if present then Filter(s, keep) else s
  }

  /**
   * `queryset.get(...)`: the position of the row satisfying `p`, or None for
   * `DoesNotExist`. `get` raises `MultipleObjectsReturned` when several rows
   * match; the model uses it only on unique ids, where the first match is the
   * only one.
   */
  function FirstIndex<T>(s: seq<T>, p: T -> bool): (k: Option<nat>)
    ensures k.Some? ==> k.value < |s| && p(s[k.value])
    ensures k.Some? ==> forall i :: 0 <= i < k.value ==> !p(s[i])
    ensures k.None? <==> forall i :: 0 <= i < |s| ==> !p(s[i])
  {
    if s == [] then None
    else if p(s[0]) then Some(0)
    else
      var k := FirstIndex(s[1..], p);
      if k.None? then None else Some(k.value + 1)
  }

  /** Filtering twice keeps exactly the rows that satisfy both conditions, in the same order. */
  lemma {:induction false} FilterFilter<T(!new)>(s: seq<T>, p: T -> bool, q: T -> bool, pq: T -> bool)
    requires forall x :: pq(x) == (p(x) && q(x))
    ensures Filter(Filter(s, p), q) == Filter(s, pq)
  {
    if s != [] {
      FilterFilter(s[1..], p, q, pq);
    }
  }

  /** A condition every row satisfies removes nothing. */
  lemma {:induction false} FilterAll<T(!new)>(s: seq<T>, keep: T -> bool)
    requires forall x :: keep(x)
    ensures Filter(s, keep) == s
  {
    if s != [] {
      FilterAll(s[1..], keep);
    }
  }

  /** Conditions that agree on every row filter alike. */
  lemma {:induction false} FilterExt<T(!new)>(s: seq<T>, p: T -> bool, q: T -> bool)
    requires forall x :: p(x) == q(x)
    ensures Filter(s, p) == Filter(s, q)
  {
    if s != [] {
      FilterExt(s[1..], p, q);
    }
  }

  /**
   * One more `if param: queryset = queryset.filter(keep)` after the filters `p`
   * is a single filter by `p` and the new condition (when the parameter is present).
   */
  lemma FilterWhenAfterFilter<T(!new)>(s: seq<T>, p: T -> bool, present: bool, keep: T -> bool, pk: T -> bool)
    requires forall x :: pk(x) == (p(x) && (!present || keep(x)))
    ensures FilterWhen(Filter(s, p), present, keep) == Filter(s, pk)
  {
    if present {
      FilterFilter(s, p, keep, pk);
    } else {
      FilterExt(s, p, pk);
    }
  }

  ghost predicate TotalPreorder<T(!new)>(leq: (T, T) -> bool)
  {
    (forall a, b :: leq(a, b) || leq(b, a)) &&
    (forall a, b, c :: leq(a, b) && leq(b, c) ==> leq(a, c))
  }

  /** Every earlier row comes before every later one. */
  ghost predicate SortedBy<T>(s: seq<T>, leq: (T, T) -> bool)
  {
    forall i, j :: 0 <= i < j < |s| ==> leq(s[i], s[j])
  }

  function InsertBy<T(!new)>(x: T, s: seq<T>, leq: (T, T) -> bool): (r: seq<T>)
    ensures multiset(r) == multiset(s) + multiset{x}
    ensures TotalPreorder(leq) && SortedBy(s, leq) ==> SortedBy(r, leq)
  {
    if s == [] then [x]
    else if leq(x, s[0]) then
      assert TotalPreorder(leq) && SortedBy(s, leq) ==> SortedBy([x] + s, leq) by {
        if TotalPreorder(leq) && SortedBy(s, leq) { SortedCons(x, s, leq); }
      }
      [x] + s
    else
      assert s == [s[0]] + s[1..];
      var rest := InsertBy(x, s[1..], leq);
      assert TotalPreorder(leq) && SortedBy(s, leq) ==> SortedBy([s[0]] + rest, leq) by {
        if TotalPreorder(leq) && SortedBy(s, leq) {
          assert leq(s[0], x);
          forall k | 0 <= k < |rest| ensures leq(s[0], rest[k]) {
            assert rest[k] in multiset(rest);
            if rest[k] != x {
              assert rest[k] in s[1..];
            }
          }
          SortedConsAll(s[0], rest, leq);
        }
      }
      [s[0]] + rest
  }

  /** A row before the head of a sorted sequence goes in front of it. */
  lemma SortedCons<T(!new)>(x: T, s: seq<T>, leq: (T, T) -> bool)
    requires TotalPreorder(leq) && SortedBy(s, leq)
    requires s != [] && leq(x, s[0])
    ensures SortedBy([x] + s, leq)
  {
    forall j | 0 <= j < |s| ensures leq(x, s[j]) {
      if j > 0 { assert leq(s[0], s[j]); }
    }
    SortedConsAll(x, s, leq);
  }

  /** A row before every row of a sorted sequence goes in front of it. */
  lemma SortedConsAll<T>(x: T, s: seq<T>, leq: (T, T) -> bool)
    requires SortedBy(s, leq)
    requires forall j :: 0 <= j < |s| ==> leq(x, s[j])
    ensures SortedBy([x] + s, leq)
  {
    var t := [x] + s;
    forall i, j | 0 <= i < j < |t| ensures leq(t[i], t[j]) {
      if i > 0 { assert t[i] == s[i - 1] && t[j] == s[j - 1]; } else { assert t[j] == s[j - 1]; }
    }
  }

  /** `queryset.order_by(...)`: a permutation of the rows, ordered by `leq`. */
  function SortBy<T(!new)>(s: seq<T>, leq: (T, T) -> bool): (r: seq<T>)
    ensures multiset(r) == multiset(s)
    ensures |r| == |s|
    ensures TotalPreorder(leq) ==> SortedBy(r, leq)
  {
    if s == [] then []
    else
      assert s == [s[0]] + s[1..];
      InsertBy(s[0], SortBy(s[1..], leq), leq)
  }

  /** No two rows share a key: a `unique_together` constraint or a primary key. */
  ghost predicate DistinctBy<T, K>(s: seq<T>, key: T -> K)
  {
    forall i, j :: 0 <= i < j < |s| ==> key(s[i]) != key(s[j])
  }

  /** Appending a row whose key is new keeps the keys distinct. */
  lemma DistinctByAppend<T, K>(s: seq<T>, x: T, key: T -> K)
    requires DistinctBy(s, key)
    requires forall y :: y in s ==> key(y) != key(x)
    ensures DistinctBy(s + [x], key)
  {
    var t := s + [x];
    forall i, j | 0 <= i < j < |t| ensures key(t[i]) != key(t[j]) {
      if j == |s| { assert t[i] in s; }
    }
  }

  /** Deleting one row keeps the keys distinct. */
  lemma DistinctByRemove<T, K>(s: seq<T>, k: nat, key: T -> K)
    requires k < |s|
    requires DistinctBy(s, key)
    ensures DistinctBy(s[..k] + s[k + 1..], key)
  {
    var t := s[..k] + s[k + 1..];
    forall i, j | 0 <= i < j < |t| ensures key(t[i]) != key(t[j]) {
      var i' := if i < k then i else i + 1;
      var j' := if j < k then j else j + 1;
      assert t[i] == s[i'] && t[j] == s[j'];
    }
  }
}
