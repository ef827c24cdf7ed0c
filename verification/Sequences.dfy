/**
 * Sorting, filtering and mapping of sequences, for the places where the source sorts a list, keeps part
 * of it or maps it. Sorting is stable insertion; what matters about it is that the result is sorted,
 * is a rearrangement, and forgets the order the list arrived in where keys are distinct.
 */
module Sequences {

  /** `leq` is a total preorder: the shape of every comparator the source hands to `sort`. */
  ghost predicate TotalPreorder<T(!new)>(leq: (T, T) -> bool) {
    && (forall a, b :: leq(a, b) || leq(b, a))
    && (forall a, b, c :: leq(a, b) && leq(b, c) ==> leq(a, c))
  }

  ghost predicate Sorted<T>(s: seq<T>, leq: (T, T) -> bool) {
    forall i, j :: 0 <= i < j < |s| ==> leq(s[i], s[j])
  }

  /** Puts `x` in front of the first element it may precede. */
  function Insert<T>(x: T, s: seq<T>, leq: (T, T) -> bool): (r: seq<T>) {
    if s == [] || leq(x, s[0]) then [x] + s else [s[0]] + Insert(x, s[1..], leq)
  }

  /** A stable sort, as ECMAScript's `Array.prototype.sort` is. */
  function Sort<T>(s: seq<T>, leq: (T, T) -> bool): (r: seq<T>) {
    if s == [] then [] else Insert(s[0], Sort(s[1..], leq), leq)
  }

  lemma {:induction false} InsertMultiset<T>(x: T, s: seq<T>, leq: (T, T) -> bool)
    ensures multiset(Insert(x, s, leq)) == multiset{x} + multiset(s)
  {
    if s != [] && !leq(x, s[0]) {
      InsertMultiset(x, s[1..], leq);
      assert s == [s[0]] + s[1..];
    }
  }

  /** A lower bound of the list and of `x` is one of the list with `x` in it. */
  lemma {:induction false} InsertAbove<T>(low: T, x: T, s: seq<T>, leq: (T, T) -> bool)
    requires leq(low, x) && forall i :: 0 <= i < |s| ==> leq(low, s[i])
    ensures forall i :: 0 <= i < |Insert(x, s, leq)| ==> leq(low, Insert(x, s, leq)[i])
  {
    if s != [] && !leq(x, s[0]) {
      InsertAbove(low, x, s[1..], leq);
    }
  }

  lemma {:induction false} InsertSorted<T(!new)>(x: T, s: seq<T>, leq: (T, T) -> bool)
    requires TotalPreorder(leq) && Sorted(s, leq)
    ensures Sorted(Insert(x, s, leq), leq)
  {
    if s == [] {
    } else if leq(x, s[0]) {
      assert forall i :: 0 <= i < |s| ==> leq(x, s[i]);
    } else {
      assert leq(s[0], x);
      InsertSorted(x, s[1..], leq);
      InsertAbove(s[0], x, s[1..], leq);
    }
  }

  lemma InsertKeeps<T(!new)>(x: T, s: seq<T>, leq: (T, T) -> bool)
    ensures multiset(Insert(x, s, leq)) == multiset{x} + multiset(s)
    ensures TotalPreorder(leq) && Sorted(s, leq) ==> Sorted(Insert(x, s, leq), leq)
  {
    InsertMultiset(x, s, leq);
    if TotalPreorder(leq) && Sorted(s, leq) {
      InsertSorted(x, s, leq);
    }
  }

  lemma {:induction false} SortSorts<T(!new)>(s: seq<T>, leq: (T, T) -> bool)
    requires TotalPreorder(leq)
    ensures Sorted(Sort(s, leq), leq)
    ensures multiset(Sort(s, leq)) == multiset(s)
    ensures |Sort(s, leq)| == |s|
    ensures forall x :: x in Sort(s, leq) <==> x in s
  {
    if s != [] {
      SortSorts(s[1..], leq);
      InsertKeeps(s[0], Sort(s[1..], leq), leq);
      assert s == [s[0]] + s[1..];
    }
    SameElements(Sort(s, leq), s);
  }

  lemma RemoveAt<T>(s: seq<T>, i: nat)
    requires i < |s|
    ensures multiset(s[..i] + s[i + 1..]) == multiset(s) - multiset{s[i]}
    ensures multiset(s) == multiset{s[i]} + multiset(s[..i] + s[i + 1..])
  {
    assert s == s[..i] + ([s[i]] + s[i + 1..]);
  }

  lemma SameElements<T(!new)>(a: seq<T>, b: seq<T>)
    requires multiset(a) == multiset(b)
    ensures |a| == |b|
    ensures forall x :: x in a <==> x in b
  {
    assert |multiset(a)| == |a| && |multiset(b)| == |b|;
    forall x ensures x in a <==> x in b {
      assert x in a <==> x in multiset(a);
      assert x in b <==> x in multiset(b);
    }
  }

  /** Equal comparator keys only for equal elements: distinct ids, distinct keys. */
  ghost predicate Antisymmetric<T>(s: seq<T>, leq: (T, T) -> bool) {
    forall x, y :: x in s && y in s && leq(x, y) && leq(y, x) ==> x == y
  }

  lemma FirstIsLeast<T>(a: seq<T>, x: T, leq: (T, T) -> bool)
    requires Sorted(a, leq) && x in a
    ensures x == a[0] || leq(a[0], x)
  {
  }

  lemma TailMultiset<T>(a: seq<T>)
    requires a != []
    ensures multiset(a[1..]) == multiset(a) - multiset{a[0]}
  {
    assert a == [a[0]] + a[1..];
  }

  /** Two sorted arrangements of the same elements are the same list. */
  lemma {:induction false} SortedUnique<T(!new)>(a: seq<T>, b: seq<T>, leq: (T, T) -> bool)
    requires TotalPreorder(leq) && Sorted(a, leq) && Sorted(b, leq)
    requires multiset(a) == multiset(b)
    requires Antisymmetric(a, leq)
    ensures a == b
    decreases |a|, 1
  {
    if a == [] {
      SameElements(a, b);
    } else {
      SameHeads(a, b, leq);
      TailMultiset(a);
      TailMultiset(b);
      SortedUniqueTails(a, b, leq);
      assert a == [a[0]] + a[1..] && b == [b[0]] + b[1..];
    }
  }

  lemma SameHeads<T(!new)>(a: seq<T>, b: seq<T>, leq: (T, T) -> bool)
    requires Sorted(a, leq) && Sorted(b, leq) && multiset(a) == multiset(b) && a != []
    requires Antisymmetric(a, leq)
    ensures b != [] && a[0] == b[0]
  {
    SameElements(a, b);
    assert a[0] in b && b[0] in a;
    FirstIsLeast(a, b[0], leq);
    FirstIsLeast(b, a[0], leq);
  }

  lemma {:induction false} SortedUniqueTails<T(!new)>(a: seq<T>, b: seq<T>, leq: (T, T) -> bool)
    requires TotalPreorder(leq) && Sorted(a, leq) && Sorted(b, leq) && a != [] && b != []
    requires multiset(a[1..]) == multiset(b[1..])
    requires Antisymmetric(a, leq)
    ensures a[1..] == b[1..]
    decreases |a|, 0
  {
    assert Antisymmetric(a[1..], leq);
    SortedUnique(a[1..], b[1..], leq);
  }

  /** Sorting forgets the order the elements arrived in, when no two of them compare equal. */
  lemma SortForgetsOrder<T(!new)>(a: seq<T>, b: seq<T>, leq: (T, T) -> bool)
    requires TotalPreorder(leq)
    requires multiset(a) == multiset(b)
    requires Antisymmetric(a, leq)
    ensures Sort(a, leq) == Sort(b, leq)
  {
    SortSorts(a, leq);
    SortSorts(b, leq);
    SortedUnique(Sort(a, leq), Sort(b, leq), leq);
  }

  function Filter<T>(s: seq<T>, keep: T -> bool): seq<T> {
    if s == [] then [] else (if keep(s[0]) then [s[0]] else []) + Filter(s[1..], keep)
  }

  lemma {:induction false} FilterMember<T>(s: seq<T>, keep: T -> bool, x: T)
    ensures x in Filter(s, keep) <==> x in s && keep(x)
  {
    if s != [] {
      FilterMember(s[1..], keep, x);
      assert s == [s[0]] + s[1..];
    }
  }

  lemma {:induction false} FilterAppend<T>(a: seq<T>, b: seq<T>, keep: T -> bool)
    ensures Filter(a + b, keep) == Filter(a, keep) + Filter(b, keep)
  {
    if a == [] {
      assert a + b == b;
    } else {
      assert (a + b)[1..] == a[1..] + b && (a + b)[0] == a[0];
      FilterAppend(a[1..], b, keep);
      var head := if keep(a[0]) then [a[0]] else [];
      assert head + (Filter(a[1..], keep) + Filter(b, keep)) == head + Filter(a[1..], keep) + Filter(b, keep);
    }
  }

  lemma {:induction false} FilterMultiset<T(!new)>(s: seq<T>, keep: T -> bool)
    ensures forall x :: multiset(Filter(s, keep))[x] == if keep(x) then multiset(s)[x] else 0
  {
    if s != [] {
      FilterMultiset(s[1..], keep);
      assert s == [s[0]] + s[1..];
    }
  }

  lemma {:induction false} FilterSame<T>(s: seq<T>, f: T -> bool, g: T -> bool)
    requires forall x :: x in s ==> f(x) == g(x)
    ensures Filter(s, f) == Filter(s, g)
  {
    if s != [] {
      assert s[0] in s && forall x :: x in s[1..] ==> x in s;
      FilterSame(s[1..], f, g);
    }
  }

  function Map<A, B>(s: seq<A>, f: A -> B): (r: seq<B>)
    ensures |r| == |s|
    ensures forall i :: 0 <= i < |s| ==> r[i] == f(s[i])
  {
    if s == [] then [] else [f(s[0])] + Map(s[1..], f)
  }

  lemma MapAppend<A, B>(a: seq<A>, b: seq<A>, f: A -> B)
    ensures Map(a + b, f) == Map(a, f) + Map(b, f)
  {
    var whole, parts := Map(a + b, f), Map(a, f) + Map(b, f);
    assert |whole| == |parts|;
    forall i | 0 <= i < |whole| ensures whole[i] == parts[i] {
    }
  }

  lemma MapMember<A(!new), B>(s: seq<A>, f: A -> B, y: B)
    ensures y in Map(s, f) <==> exists x :: x in s && f(x) == y
  {
    if y in Map(s, f) {
      var i := IndexOf(Map(s, f), y);
      assert s[i] in s;
    }
    if x :| x in s && f(x) == y {
      var i := IndexOf(s, x);
      assert Map(s, f)[i] == y;
    }
  }

  lemma IndexOf<T>(s: seq<T>, x: T) returns (i: nat)
    requires x in s
    ensures i < |s| && s[i] == x
  {
    i :| 0 <= i < |s| && s[i] == x;
  }

  lemma MapSlices<A, B>(s: seq<A>, f: A -> B, i: nat)
    requires i < |s|
    ensures Map(s, f)[..i] == Map(s[..i], f) && Map(s, f)[i + 1..] == Map(s[i + 1..], f)
  {
    var all, early, late := Map(s, f), Map(s[..i], f), Map(s[i + 1..], f);
    forall k | 0 <= k < i ensures all[..i][k] == early[k] {
    }
    forall k | 0 <= k < |s| - i - 1 ensures all[i + 1..][k] == late[k] {
    }
  }

  lemma MapRemoveAt<A, B>(s: seq<A>, f: A -> B, i: nat)
    requires i < |s|
    ensures multiset(Map(s, f)) == multiset{f(s[i])} + multiset(Map(s[..i] + s[i + 1..], f))
  {
    MapSlices(s, f, i);
    MapAppend(s[..i], s[i + 1..], f);
    RemoveAt(Map(s, f), i);
  }

  /** Mapping commutes with rearranging. */
  lemma {:induction false} MapRearranges<A(!new), B>(a: seq<A>, b: seq<A>, f: A -> B)
    requires multiset(a) == multiset(b)
    ensures multiset(Map(a, f)) == multiset(Map(b, f))
  {
    if a == [] {
      assert b == [] by { SameElements(a, b); }
    } else {
      assert a[0] in b by { SameElements(a, b); }
      var i := IndexOf(b, a[0]);
      var rest := b[..i] + b[i + 1..];
      assert multiset(a[1..]) == multiset(rest) by {
        RemoveAt(b, i);
        assert a == [a[0]] + a[1..];
      }
      MapRearranges(a[1..], rest, f);
      MapRemoveAt(b, f, i);
    }
  }

  lemma RepeatCounts<T(!new)>(s: seq<T>, i: nat, j: nat)
    requires i < j < |s| && s[i] == s[j]
    ensures multiset(s)[s[i]] >= 2
  {
    RemoveAt(s, i);
    assert (s[..i] + s[i + 1..])[j - 1] == s[j];
    assert s[j] in s[..i] + s[i + 1..];
  }

  lemma DistinctCounts<T(!new)>(s: seq<T>, x: T)
    requires forall i, j :: 0 <= i < j < |s| ==> s[i] != s[j]
    ensures multiset(s)[x] <= 1
  {
    if x in s {
      var a := IndexOf(s, x);
      RemoveAt(s, a);
      assert x !in s[..a] + s[a + 1..];
    } else {
      assert x !in multiset(s);
    }
  }

  /** Elements whose images are pairwise distinct keep them so once rearranged. */
  lemma DistinctImages<A(!new), B(!new)>(a: seq<A>, b: seq<A>, f: A -> B)
    requires multiset(a) == multiset(b)
    requires forall i, j :: 0 <= i < j < |a| ==> f(a[i]) != f(a[j])
    ensures forall i, j :: 0 <= i < j < |b| ==> f(b[i]) != f(b[j])
  {
    MapRearranges(a, b, f);
    forall i: nat, j: nat | i < j < |b| ensures f(b[i]) != f(b[j]) {
      if f(b[i]) == f(b[j]) {
        RepeatCounts(Map(b, f), i, j);
        DistinctCounts(Map(a, f), f(b[i]));
      }
    }
  }

  lemma {:induction false} FilterDistinct<T(!new)>(s: seq<T>, keep: T -> bool)
    requires forall i, j :: 0 <= i < j < |s| ==> s[i] != s[j]
    ensures forall i, j :: 0 <= i < j < |Filter(s, keep)| ==> Filter(s, keep)[i] != Filter(s, keep)[j]
  {
    if s != [] {
      FilterDistinct(s[1..], keep);
      var rest := Filter(s[1..], keep);
      forall j | 0 <= j < |rest| ensures rest[j] != s[0] {
        FilterMember(s[1..], keep, rest[j]);
      }
    }
  }

  // ---- Strictly ascending lists ---------------------------------------------

  predicate AscendingBy<T>(s: seq<T>, less: (T, T) -> bool) {
    forall i, j :: 0 <= i < j < |s| ==> less(s[i], s[j])
  }

  ghost predicate Asymmetric<T(!new)>(less: (T, T) -> bool) {
    forall x, y :: less(x, y) ==> !less(y, x)
  }

  lemma AscendingTail<T(!new)>(s: seq<T>, less: (T, T) -> bool, x: T)
    requires s != [] && AscendingBy(s, less) && Asymmetric(less)
    ensures x in s[1..] <==> x in s && x != s[0]
  {
    assert s == [s[0]] + s[1..];
    if x in s[1..] {
      var k := IndexOf(s[1..], x);
      assert s[k + 1] == x && less(s[0], s[k + 1]);
    }
  }

  lemma HeadIsBelow<T>(s: seq<T>, less: (T, T) -> bool, x: T)
    requires AscendingBy(s, less) && x in s
    ensures x == s[0] || less(s[0], x)
  {
    var k := IndexOf(s, x);
    assert k > 0 ==> less(s[0], s[k]);
  }

  /** A strictly ascending list is fixed by its members. */
  lemma {:induction false} SameAscending<T(!new)>(a: seq<T>, b: seq<T>, less: (T, T) -> bool)
    requires AscendingBy(a, less) && AscendingBy(b, less) && Asymmetric(less) && forall x :: x in a <==> x in b
    ensures a == b
  {
    if a != [] { assert a[0] in b; }
    if b != [] { assert b[0] in a; }
    if a != [] {
      HeadIsBelow(b, less, a[0]);
      HeadIsBelow(a, less, b[0]);
      forall x ensures x in a[1..] <==> x in b[1..] {
        AscendingTail(a, less, x);
        AscendingTail(b, less, x);
      }
      SameAscending(a[1..], b[1..], less);
      assert a == [a[0]] + a[1..] && b == [b[0]] + b[1..];
    }
  }
}
