/**
 * The audit trail: each of three logs is cut to its newest rows before they are merged, sorted and
 * cut again. The cut made early must not show.
 */
module AuditTrail {
  import opened Sequences

  datatype Kind = Consent | Authorisation | Transfer

  /** `id` stands for everything an entry says beyond when it happened and what kind it is. */
  datatype Entry = Entry(at: int, kind: Kind, id: string)

  datatype Key = Key(at: int, kind: Kind)

  function KeyOf(e: Entry): Key {
    Key(e.at, e.kind)
  }

  function KindOrder(k: Kind): nat {
    match k case Transfer => 0 case Authorisation => 1 case Consent => 2
  }

  /** Newest first; in one instant a transfer before its authorisation before the consent behind it. */
  predicate KeyLeq(a: Key, b: Key) {
    a.at > b.at || (a.at == b.at && KindOrder(a.kind) <= KindOrder(b.kind))
  }

  predicate EntryLeq(a: Entry, b: Entry) {
    KeyLeq(KeyOf(a), KeyOf(b))
  }

  function Cut<T>(s: seq<T>, limit: nat): seq<T> {
    if |s| <= limit then s else s[..limit]
  }

  /** The trail of whole logs, without any early cut. */
  function Trail(entries: seq<Entry>, limit: nat): seq<Entry> {
    Cut(Sort(entries, EntryLeq), limit)
  }

  /**
   * What "newest first, at most `limit`" may return for a log of one kind: `rest` is what it leaves out,
   * nothing newer than anything it returns, and it leaves out something only when it is full.
   */
  ghost predicate Page(log: seq<Entry>, limit: nat, got: seq<Entry>, rest: seq<Entry>) {
    && multiset(log) == multiset(got) + multiset(rest)
    && |got| <= limit && (rest != [] ==> |got| == limit)
    && (forall x, y :: x in got && y in rest ==> y.at <= x.at)
  }

  predicate OneKind(log: seq<Entry>, kind: Kind) {
    forall x :: x in log ==> x.kind == kind
  }

  /** Newer, or at the same instant no later in the order of causes: a transfer, its authorisation, the consent behind it. */
  predicate Precedes(x: Entry, y: Entry) {
    x.at > y.at || (x.at == y.at && (x.kind == y.kind || x.kind == Transfer || y.kind == Consent))
  }

  lemma PrecedesIs(x: Entry, y: Entry)
    ensures EntryLeq(x, y) <==> Precedes(x, y)
  {
  }

  /**
   * A trail of these entries: in order, as long as the limit lets it be, made of entries it was given,
   * and with nothing left out that precedes anything kept.
   */
  ghost predicate IsTrailOf(entries: seq<Entry>, limit: nat, trail: seq<Entry>) {
    && (forall i, j :: 0 <= i < j < |trail| ==> Precedes(trail[i], trail[j]))
    && |trail| == (if |entries| <= limit then |entries| else limit)
    && exists rest :: LeftOut(entries, trail, rest)
  }

  ghost predicate LeftOut(entries: seq<Entry>, trail: seq<Entry>, rest: seq<Entry>) {
    multiset(entries) == multiset(trail) + multiset(rest) && forall x, y :: x in trail && y in rest ==> Precedes(x, y)
  }

  lemma SplitsInOrder(sorted: seq<Entry>, trail: seq<Entry>, rest: seq<Entry>)
    requires sorted == trail + rest && Sorted(sorted, EntryLeq)
    ensures Sorted(trail, EntryLeq) && forall x, y :: x in trail && y in rest ==> EntryLeq(x, y)
  {
    forall i, j | 0 <= i < j < |trail| ensures EntryLeq(trail[i], trail[j]) {
      assert sorted[i] == trail[i] && sorted[j] == trail[j];
    }
    forall x, y | x in trail && y in rest ensures EntryLeq(x, y) {
      var i := IndexOf(trail, x);
      var j := IndexOf(rest, y);
      assert sorted[i] == x && sorted[|trail| + j] == y;
    }
  }

  lemma TrailIsTrail(entries: seq<Entry>, limit: nat)
    ensures IsTrailOf(entries, limit, Trail(entries, limit))
  {
    var sorted := Sort(entries, EntryLeq);
    EntryOrders();
    SortSorts(entries, EntryLeq);
    SameElements(entries, sorted);
    var n := if |sorted| <= limit then |sorted| else limit;
    TrailFrom(entries, sorted, sorted[..n], sorted[n..]);
    CutIsPrefix(sorted, limit, n);
    MakesATrail(entries, limit, sorted[..n], sorted[n..]);
  }

  lemma CutIsPrefix(s: seq<Entry>, limit: nat, n: nat)
    requires n == if |s| <= limit then |s| else limit
    ensures Cut(s, limit) == s[..n]
  {
  }

  lemma MakesATrail(entries: seq<Entry>, limit: nat, trail: seq<Entry>, rest: seq<Entry>)
    requires Sorted(trail, EntryLeq) && LeftOut(entries, trail, rest)
    requires |trail| == if |entries| <= limit then |entries| else limit
    ensures IsTrailOf(entries, limit, trail)
  {
    forall i, j | 0 <= i < j < |trail| ensures Precedes(trail[i], trail[j]) {
      PrecedesIs(trail[i], trail[j]);
    }
  }

  lemma EntryOrders()
    ensures TotalPreorder(EntryLeq)
  {
    KeyOrders();
  }

  lemma TrailFrom(entries: seq<Entry>, sorted: seq<Entry>, trail: seq<Entry>, rest: seq<Entry>)
    requires multiset(entries) == multiset(sorted) && Sorted(sorted, EntryLeq) && sorted == trail + rest
    ensures Sorted(trail, EntryLeq) && LeftOut(entries, trail, rest)
  {
    SplitsInOrder(sorted, trail, rest);
    forall x, y | x in trail && y in rest ensures Precedes(x, y) {
      PrecedesIs(x, y);
    }
  }

  /** `getAuditTrail` over the three pages. */
  method GetAuditTrail(consents: seq<Entry>, authorisations: seq<Entry>, transfers: seq<Entry>, limit: nat) returns (trail: seq<Entry>)
    ensures IsTrailOf(consents + authorisations + transfers, limit, trail)
    ensures trail == Trail(consents + authorisations + transfers, limit)
  {
    TrailIsTrail(consents + authorisations + transfers, limit);
    var entries := consents + authorisations + transfers;
    var sorted := Sort(entries, EntryLeq);
    trail := if |sorted| <= limit then sorted else sorted[..limit];
  }

  // ---- Sorting entries sorts their keys -------------------------------------

  lemma {:induction false} InsertMapsToInsert(x: Entry, s: seq<Entry>)
    ensures Map(Insert(x, s, EntryLeq), KeyOf) == Insert(KeyOf(x), Map(s, KeyOf), KeyLeq)
  {
    if s == [] || EntryLeq(x, s[0]) {
      MapAppend([x], s, KeyOf);
      assert Map([x], KeyOf) == [KeyOf(x)];
    } else {
      InsertMapsToInsert(x, s[1..]);
      MapAppend([s[0]], Insert(x, s[1..], EntryLeq), KeyOf);
      assert Map([s[0]], KeyOf) == [KeyOf(s[0])];
      assert Map(s, KeyOf)[1..] == Map(s[1..], KeyOf);
    }
  }

  lemma {:induction false} SortMapsToSort(s: seq<Entry>)
    ensures Map(Sort(s, EntryLeq), KeyOf) == Sort(Map(s, KeyOf), KeyLeq)
  {
    if s != [] {
      SortMapsToSort(s[1..]);
      InsertMapsToInsert(s[0], Sort(s[1..], EntryLeq));
      assert Map(s, KeyOf)[1..] == Map(s[1..], KeyOf);
    }
  }

  lemma KeyOrders()
    ensures TotalPreorder(KeyLeq)
    ensures forall a, b :: KeyLeq(a, b) && KeyLeq(b, a) ==> a == b
  {
  }

  // ---- Adding what a page left out ------------------------------------------

  /** Putting in a key that at least `n` keys already precede leaves the first `n` alone. */
  lemma {:induction false} InsertBehind(x: Key, s: seq<Key>, n: nat)
    requires Sorted(s, KeyLeq) && n <= |s| && (n > 0 ==> KeyLeq(s[n - 1], x))
    ensures |Insert(x, s, KeyLeq)| == |s| + 1 && Insert(x, s, KeyLeq)[..n] == s[..n]
    ensures Sorted(Insert(x, s, KeyLeq), KeyLeq)
  {
    KeyOrders();
    InsertKeeps(x, s, KeyLeq);
    if s == [] {
    } else if KeyLeq(x, s[0]) {
      forall j | 0 <= j < n ensures ([x] + s)[j] == s[j] {
        assert KeyLeq(s[0], s[j]) || j == 0;
        assert KeyLeq(s[j], s[n - 1]) || j == n - 1;
        assert s[j] == x;
        assert j > 0 ==> (KeyLeq(s[0], s[j - 1]) || j == 1) && KeyLeq(s[j - 1], s[n - 1]) && s[j - 1] == x;
      }
      assert ([x] + s)[..n] == s[..n];
    } else {
      if n > 0 {
        InsertBehind(x, s[1..], n - 1);
        assert s[..n] == [s[0]] + s[1..][..n - 1];
      } else {
        InsertBehind(x, s[1..], 0);
      }
    }
  }

  /** Every key of `more` comes after the first `n` of the sorted keys. */
  predicate Behind(more: seq<Key>, s: seq<Key>, n: nat) {
    n <= |s| && forall x :: x in more ==> n == 0 || KeyLeq(s[n - 1], x)
  }

  function InsertAll(more: seq<Key>, s: seq<Key>): seq<Key> {
    if more == [] then s else Insert(more[0], InsertAll(more[1..], s), KeyLeq)
  }

  lemma {:induction false} InsertAllBehind(more: seq<Key>, s: seq<Key>, n: nat)
    requires Sorted(s, KeyLeq) && Behind(more, s, n)
    ensures Sorted(InsertAll(more, s), KeyLeq) && |InsertAll(more, s)| == |s| + |more|
    ensures InsertAll(more, s)[..n] == s[..n]
    ensures multiset(InsertAll(more, s)) == multiset(more) + multiset(s)
  {
    if more != [] {
      assert more == [more[0]] + more[1..];
      assert more[0] in more && forall x :: x in more[1..] ==> x in more;
      InsertAllBehind(more[1..], s, n);
      var before := InsertAll(more[1..], s);
      assert n > 0 ==> before[..n][n - 1] == before[n - 1] && s[..n][n - 1] == s[n - 1];
      InsertBehind(more[0], before, n);
      InsertKeeps(more[0], before, KeyLeq);
    }
  }

  // ---- Enough precede everything left out -----------------------------------

  /** If `n` of the sorted keys do not come after `x`, neither does the `n`-th. */
  lemma NthIsNotAfter(s: seq<Key>, some: seq<Key>, x: Key, n: nat)
    requires Sorted(s, KeyLeq) && multiset(some) <= multiset(s) && |some| == n > 0
    requires forall y :: y in some ==> KeyLeq(y, x)
    ensures n <= |s| && KeyLeq(s[n - 1], x)
  {
    KeyOrders();
    assert |multiset(some)| <= |multiset(s)| by { SubMultisetSize(multiset(some), multiset(s)); }
    if !KeyLeq(s[n - 1], x) {
      var early, late := s[..n - 1], s[n - 1..];
      assert s == early + late;
      forall y | y in some ensures y !in late {
        if y in late { LateIsAfter(s, n - 1, y); }
      }
      forall y ensures multiset(some)[y] <= multiset(early)[y] {
        assert y in multiset(some) <==> y in some;
        assert y in multiset(late) <==> y in late;
      }
      SubMultisetSize(multiset(some), multiset(early));
    }
  }

  lemma LateIsAfter(s: seq<Key>, i: nat, y: Key)
    requires Sorted(s, KeyLeq) && i < |s| && y in s[i..]
    ensures KeyLeq(s[i], y)
  {
    var k := IndexOf(s[i..], y);
    assert s[i + k] == y;
  }

  lemma SubMultisetSize<T>(a: multiset<T>, b: multiset<T>)
    requires a <= b
    ensures |a| <= |b|
  {
    assert b == a + (b - a);
  }

  // ---- The early cut does not show ------------------------------------------

  function Keys(entries: seq<Entry>): seq<Key> {
    Map(entries, KeyOf)
  }

  /** Everything a page left out comes behind the first `limit` of whatever its rows are merged with. */
  lemma LeftOutIsBehind(log: seq<Entry>, kind: Kind, limit: nat, got: seq<Entry>, rest: seq<Entry>, others: seq<Key>, s: seq<Key>)
    requires Page(log, limit, got, rest) && OneKind(log, kind)
    requires Sorted(s, KeyLeq) && multiset(s) == multiset(Keys(got)) + multiset(others)
    ensures rest == [] || Behind(Keys(rest), s, limit)
  {
    if rest != [] && limit > 0 {
      forall k | k in Keys(rest) ensures limit <= |s| && KeyLeq(s[limit - 1], k) {
        var i := IndexOf(Keys(rest), k);
        GotPrecedesRest(log, kind, limit, got, rest, rest[i]);
        NthIsNotAfter(s, Keys(got), k, limit);
      }
      assert Keys(rest)[0] in Keys(rest);
    }
  }

  lemma GotPrecedesRest(log: seq<Entry>, kind: Kind, limit: nat, got: seq<Entry>, rest: seq<Entry>, y: Entry)
    requires Page(log, limit, got, rest) && OneKind(log, kind) && y in rest
    ensures forall k :: k in Keys(got) ==> KeyLeq(k, KeyOf(y))
  {
    assert y in multiset(log);
    assert y in log;
    forall k | k in Keys(got) ensures KeyLeq(k, KeyOf(y)) {
      var i := IndexOf(Keys(got), k);
      assert got[i] in multiset(log);
      assert got[i] in log;
    }
  }

  /**
   * Keeping the newest `limit` of each log, merging and cutting gives the same sequence of times and
   * kinds as sorting the whole logs and cutting, however a log breaks ties at its own cut.
   */
  lemma EarlyCutDoesNotShow(consents: seq<Entry>, authorisations: seq<Entry>, transfers: seq<Entry>, limit: nat,
                            c: seq<Entry>, a: seq<Entry>, t: seq<Entry>,
                            cRest: seq<Entry>, aRest: seq<Entry>, tRest: seq<Entry>)
    requires OneKind(consents, Consent) && OneKind(authorisations, Authorisation) && OneKind(transfers, Transfer)
    requires Page(consents, limit, c, cRest) && Page(authorisations, limit, a, aRest) && Page(transfers, limit, t, tRest)
    ensures Keys(Trail(c + a + t, limit)) == Keys(Trail(consents + authorisations + transfers, limit))
  {
    var s := Sort(Keys(c + a + t), KeyLeq);
    SortedMerge(c, a, t, s);
    LeftOutIsBehind(consents, Consent, limit, c, cRest, Keys(a) + Keys(t), s);
    LeftOutIsBehind(authorisations, Authorisation, limit, a, aRest, Keys(c) + Keys(t), s);
    LeftOutIsBehind(transfers, Transfer, limit, t, tRest, Keys(c) + Keys(a), s);
    RestsBehind(cRest, aRest, tRest, s, limit);
    LogsSplit(consents, authorisations, transfers, c, a, t, cRest, aRest, tRest, limit);
    CutOfMore(c + a + t, cRest + aRest + tRest, consents + authorisations + transfers, limit, s);
  }

  lemma SortedMerge(c: seq<Entry>, a: seq<Entry>, t: seq<Entry>, s: seq<Key>)
    requires s == Sort(Keys(c + a + t), KeyLeq)
    ensures Sorted(s, KeyLeq)
    ensures multiset(s) == multiset(Keys(c)) + multiset(Keys(a) + Keys(t))
    ensures multiset(s) == multiset(Keys(a)) + multiset(Keys(c) + Keys(t))
    ensures multiset(s) == multiset(Keys(t)) + multiset(Keys(c) + Keys(a))
  {
    SortedKeys(c + a + t);
    KeysOfThree(c, a, t);
  }

  lemma SortedKeys(entries: seq<Entry>)
    ensures Sorted(Sort(Keys(entries), KeyLeq), KeyLeq) && multiset(Sort(Keys(entries), KeyLeq)) == multiset(Keys(entries))
  {
    KeyOrders();
    SortSorts(Keys(entries), KeyLeq);
  }

  lemma KeysOfThree(c: seq<Entry>, a: seq<Entry>, t: seq<Entry>)
    ensures multiset(Keys(c + a + t)) == multiset(Keys(c)) + multiset(Keys(a)) + multiset(Keys(t))
  {
    MapAppend(c + a, t, KeyOf);
    MapAppend(c, a, KeyOf);
  }

  lemma RestsBehind(c: seq<Entry>, a: seq<Entry>, t: seq<Entry>, s: seq<Key>, limit: nat)
    requires c == [] || Behind(Keys(c), s, limit)
    requires a == [] || Behind(Keys(a), s, limit)
    requires t == [] || Behind(Keys(t), s, limit)
    ensures c + a + t == [] || Behind(Keys(c + a + t), s, limit)
  {
    MapAppend(c + a, t, KeyOf);
    MapAppend(c, a, KeyOf);
  }

  lemma LogsSplit(consents: seq<Entry>, authorisations: seq<Entry>, transfers: seq<Entry>, c: seq<Entry>, a: seq<Entry>, t: seq<Entry>,
                  cRest: seq<Entry>, aRest: seq<Entry>, tRest: seq<Entry>, limit: nat)
    requires Page(consents, limit, c, cRest) && Page(authorisations, limit, a, aRest) && Page(transfers, limit, t, tRest)
    ensures multiset(consents + authorisations + transfers) == multiset(c + a + t) + multiset(cRest + aRest + tRest)
  {
  }

  lemma CutOfMore(got: seq<Entry>, rest: seq<Entry>, all: seq<Entry>, limit: nat, s: seq<Key>)
    requires multiset(all) == multiset(got) + multiset(rest) && s == Sort(Keys(got), KeyLeq)
    requires rest == [] || Behind(Keys(rest), s, limit)
    ensures Keys(Trail(got, limit)) == Keys(Trail(all, limit))
  {
    SortedWithRest(got, rest, all);
    var whole := Sort(Keys(all), KeyLeq);
    if rest != [] {
      InsertAllCut(Keys(rest), s, limit);
    }
    CutKeys(got, limit);
    CutKeys(all, limit);
  }

  lemma InsertAllCut(more: seq<Key>, s: seq<Key>, n: nat)
    requires Sorted(s, KeyLeq) && Behind(more, s, n)
    ensures Cut(InsertAll(more, s), n) == Cut(s, n)
  {
    InsertAllBehind(more, s, n);
    assert |s| == n ==> s[..n] == s;
    var after := InsertAll(more, s);
    assert |after| == n ==> after[..n] == after;
  }

  /** Sorting everything is inserting what was left out into the sorted rest. */
  lemma SortedWithRest(got: seq<Entry>, rest: seq<Entry>, all: seq<Entry>)
    requires multiset(all) == multiset(got) + multiset(rest)
    ensures Sorted(Sort(Keys(got), KeyLeq), KeyLeq)
    ensures Sort(Keys(all), KeyLeq) == InsertAll(Keys(rest), Sort(Keys(got), KeyLeq))
  {
    KeyOrders();
    SortSorts(Keys(got), KeyLeq);
    SortSorts(Keys(all), KeyLeq);
    InsertAllBehind(Keys(rest), Sort(Keys(got), KeyLeq), 0);
    MapRearranges(all, got + rest, KeyOf);
    MapAppend(got, rest, KeyOf);
    SortedUnique(InsertAll(Keys(rest), Sort(Keys(got), KeyLeq)), Sort(Keys(all), KeyLeq), KeyLeq);
  }

  lemma CutKeys(entries: seq<Entry>, limit: nat)
    ensures Keys(Trail(entries, limit)) == Cut(Sort(Keys(entries), KeyLeq), limit)
  {
    SortMapsToSort(entries);
  }
}
