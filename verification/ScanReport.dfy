/**
 * The diff of two whole scans: the entries of five collections in one list sorted by status and then
 * by fingerprint, with counts by kind and in total. The order in which a scan observed its resources
 * must not show, and does not where duplicates agree.
 */
module ScanReport {
  import opened Text
  import opened Sequences
  import opened ScanDiff

  datatype Scan = Scan(cookies: seq<Item>, scripts: seq<Item>, requests: seq<Item>, storage: seq<Item>, technologies: seq<Item>)

  function Of(scan: Scan, k: Kind): seq<Item> {
    match k
    case Cookie => scan.cookies case Script => scan.scripts case Request => scan.requests
    case Storage => scan.storage case Technology => scan.technologies
  }

  /** Most interesting first, then by fingerprint. */
  function Rank(s: Status): nat {
    match s case New => 0 case Changed => 1 case Removed => 2 case Unchanged => 3
  }

  predicate EntryLeq(a: Entry, b: Entry) {
    Rank(a.status) < Rank(b.status) || (Rank(a.status) == Rank(b.status) && Leq(a.fingerprint, b.fingerprint))
  }

  function Collected(kinds: seq<Kind>, before: Scan, after: Scan): seq<Entry> {
    if kinds == [] then []
    else
      var k := kinds[|kinds| - 1];
      Collected(kinds[..|kinds| - 1], before, after) + Diff(k, Of(before, k), Of(after, k))
  }

  function Report(before: Scan, after: Scan): seq<Entry> {
    Sort(Collected(KINDS, before, after), EntryLeq)
  }

  function CountsOf(entries: seq<Entry>): Counts {
    Counts(CountOf(entries, New), CountOf(entries, Removed), CountOf(entries, Changed), CountOf(entries, Unchanged))
  }

  function Add(a: Counts, b: Counts): Counts {
    Counts(a.added + b.added, a.removed + b.removed, a.changed + b.changed, a.same + b.same)
  }

  function Total(kinds: seq<Kind>, before: Scan, after: Scan): Counts {
    if kinds == [] then Counts(0, 0, 0, 0)
    else
      var k := kinds[|kinds| - 1];
      Add(Total(kinds[..|kinds| - 1], before, after), CountsOf(Diff(k, Of(before, k), Of(after, k))))
  }

  predicate DistinctKinds(kinds: seq<Kind>) {
    forall i, j :: 0 <= i < j < |kinds| ==> kinds[i] != kinds[j]
  }

  /**
   * `diffScans`: the entries of all five kinds, sorted; the counts of each kind are those of its own
   * collection and the totals their sum.
   */
  method DiffScans(before: Scan, after: Scan) returns (entries: seq<Entry>, totals: Counts, byKind: map<Kind, Counts>)
    ensures entries == Report(before, after)
    ensures totals == Total(KINDS, before, after)
    ensures totals == Counts(CountOf(entries, New), CountOf(entries, Removed), CountOf(entries, Changed), CountOf(entries, Unchanged))
    ensures forall k :: k in byKind <==> k in KINDS
    ensures forall k :: k in KINDS ==>
              var d := Diff(k, Of(before, k), Of(after, k));
              byKind[k] == Counts(CountOf(d, New), CountOf(d, Removed), CountOf(d, Changed), CountOf(d, Unchanged))
  {
    KindsAreDistinct();
    entries, totals, byKind := DiffKinds(KINDS, before, after);
  }

  lemma KindsAreDistinct()
    ensures DistinctKinds(KINDS)
  {
  }

  method DiffKinds(kinds: seq<Kind>, before: Scan, after: Scan) returns (entries: seq<Entry>, totals: Counts, byKind: map<Kind, Counts>)
    requires DistinctKinds(kinds)
    ensures entries == Sort(Collected(kinds, before, after), EntryLeq)
    ensures totals == Total(kinds, before, after) == CountsOf(entries)
    ensures forall k :: k in byKind <==> k in kinds
    ensures forall k :: k in kinds ==> byKind[k] == CountsOf(Diff(k, Of(before, k), Of(after, k)))
  {
    entries := Collect(kinds, before, after);
    SortedSame(entries);
    CountsPermute(Sort(entries, EntryLeq), entries);
    entries := Sort(entries, EntryLeq);
    byKind := CountKinds(kinds, before, after, entries);
    totals := Tally(entries);
    TotalIsCounts(kinds, before, after);
  }

  method Collect(kinds: seq<Kind>, before: Scan, after: Scan) returns (entries: seq<Entry>)
    ensures entries == Collected(kinds, before, after)
  {
    entries := [];
    for i := 0 to |kinds|
      invariant entries == Collected(kinds[..i], before, after)
    {
      assert kinds[..i + 1][..i] == kinds[..i];
      var collection := DiffCollection(kinds[i], Of(before, kinds[i]), Of(after, kinds[i]));
      entries := entries + collection;
    }
    assert kinds[..|kinds|] == kinds;
  }

  method CountKinds(kinds: seq<Kind>, before: Scan, after: Scan, entries: seq<Entry>) returns (byKind: map<Kind, Counts>)
    requires multiset(entries) == multiset(Collected(kinds, before, after)) && DistinctKinds(kinds)
    ensures forall k :: k in byKind <==> k in kinds
    ensures forall k :: k in kinds ==> byKind[k] == CountsOf(Diff(k, Of(before, k), Of(after, k)))
  {
    byKind := map[];
    for i := 0 to |kinds|
      invariant forall k :: k in byKind <==> k in kinds[..i]
      invariant forall k :: k in kinds[..i] ==> byKind[k] == CountsOf(Diff(k, Of(before, k), Of(after, k)))
    {
      KindCounts(kinds, before, after, entries, kinds[i]);
      var k := kinds[i];
      var counts := Tally(Filter(entries, (e: Entry) => e.kind == k));
      byKind := byKind[k := counts];
    }
  }

  lemma SortedSame(entries: seq<Entry>)
    ensures multiset(Sort(entries, EntryLeq)) == multiset(entries) && Sorted(Sort(entries, EntryLeq), EntryLeq)
    ensures forall e :: e in Sort(entries, EntryLeq) <==> e in entries
  {
    EntryLeqOrders();
    SortSorts(entries, EntryLeq);
  }

  lemma EntryLeqOrders()
    ensures TotalPreorder(EntryLeq)
  {
    LeqOrders();
  }

  predicate MoreInteresting(a: Status, b: Status) {
    (a == New && b != New) || (a == Changed && b in {Removed, Unchanged}) || (a == Removed && b == Unchanged)
  }

  /** What is new comes first, then what changed, what is gone and what stayed; within each in the order of fingerprints. */
  lemma ReportIsOrdered(before: Scan, after: Scan)
    ensures forall i, j :: 0 <= i < j < |Report(before, after)| ==>
              var a, b := Report(before, after)[i], Report(before, after)[j];
              MoreInteresting(a.status, b.status) || (a.status == b.status && Leq(a.fingerprint, b.fingerprint))
  {
    SortedSame(Collected(KINDS, before, after));
  }

  // ---- Counting does not depend on order ------------------------------------

  lemma {:induction false} CountAppend(a: seq<Entry>, b: seq<Entry>, status: Status)
    ensures CountOf(a + b, status) == CountOf(a, status) + CountOf(b, status)
    decreases |b|
  {
    if b == [] {
      assert a + b == a;
    } else {
      assert (a + b)[..|a + b| - 1] == a + b[..|b| - 1];
      CountAppend(a, b[..|b| - 1], status);
    }
  }

  lemma CountRemove(s: seq<Entry>, i: nat, status: Status)
    requires i < |s|
    ensures CountOf(s, status) == CountOf(s[..i] + s[i + 1..], status) + if s[i].status == status then 1 else 0
  {
    var early, upTo, late := s[..i], s[..i + 1], s[i + 1..];
    CountAppend(early, late, status);
    CountAppend(upTo, late, status);
    assert upTo + late == s;
    assert upTo[..|upTo| - 1] == early;
  }

  lemma {:induction false} CountPermutes(a: seq<Entry>, b: seq<Entry>, status: Status)
    requires multiset(a) == multiset(b)
    ensures CountOf(a, status) == CountOf(b, status)
  {
    SameElements(a, b);
    if a != [] {
      var n := |a| - 1;
      var i := IndexOf(b, a[n]);
      var rest := b[..i] + b[i + 1..];
      DropSame(a, b, i, rest);
      CountPermutes(a[..n], rest, status);
      CountRemove(b, i, status);
    }
  }

  lemma DropSame(a: seq<Entry>, b: seq<Entry>, i: nat, rest: seq<Entry>)
    requires multiset(a) == multiset(b) && a != [] && i < |b| && b[i] == a[|a| - 1]
    requires rest == b[..i] + b[i + 1..]
    ensures multiset(a[..|a| - 1]) == multiset(rest)
  {
    RemoveAt(b, i);
    assert a == a[..|a| - 1] + [a[|a| - 1]];
  }

  lemma CountsPermute(a: seq<Entry>, b: seq<Entry>)
    requires multiset(a) == multiset(b)
    ensures CountsOf(a) == CountsOf(b)
  {
    CountPermutes(a, b, New);
    CountPermutes(a, b, Removed);
    CountPermutes(a, b, Changed);
    CountPermutes(a, b, Unchanged);
  }

  lemma {:induction false} TotalIsCounts(kinds: seq<Kind>, before: Scan, after: Scan)
    ensures CountsOf(Collected(kinds, before, after)) == Total(kinds, before, after)
  {
    if kinds != [] {
      var k := kinds[|kinds| - 1];
      var earlier, one := Collected(kinds[..|kinds| - 1], before, after), Diff(k, Of(before, k), Of(after, k));
      TotalIsCounts(kinds[..|kinds| - 1], before, after);
      CountsAppend(earlier, one, earlier + one);
    }
  }

  lemma CountsAppend(a: seq<Entry>, b: seq<Entry>, whole: seq<Entry>)
    requires whole == a + b
    ensures CountsOf(whole) == Add(CountsOf(a), CountsOf(b))
  {
    forall status ensures CountOf(whole, status) == CountOf(a, status) + CountOf(b, status) {
      CountAppend(a, b, status);
    }
  }

  lemma DiffIsOfItsKind(k: Kind, before: seq<Item>, after: seq<Item>)
    ensures forall e :: e in Diff(k, before, after) ==> e.kind == k
  {
    var previous, current := Indexed(k, before), Indexed(k, after);
    forall e | e in Diff(k, before, after) ensures e.kind == k {
      EntryMembers(k, previous, current, e);
      EntrySays(k, previous, current, e.fingerprint);
    }
  }

  lemma {:induction false} KeepAll(s: seq<Entry>, keep: Entry -> bool)
    ensures (forall e :: e in s ==> keep(e)) ==> Filter(s, keep) == s
    ensures (forall e :: e in s ==> !keep(e)) ==> Filter(s, keep) == []
  {
    if s != [] {
      assert s[0] in s && forall e :: e in s[1..] ==> e in s;
      KeepAll(s[1..], keep);
    }
  }

  lemma FilterConcat(a: seq<Entry>, b: seq<Entry>, keep: Entry -> bool, x: seq<Entry>, y: seq<Entry>)
    requires Filter(a, keep) == x && Filter(b, keep) == y
    ensures Filter(a + b, keep) == x + y
  {
    FilterAppend(a, b, keep);
  }

  lemma DistinctShorter(kinds: seq<Kind>)
    requires kinds != [] && DistinctKinds(kinds)
    ensures DistinctKinds(kinds[..|kinds| - 1]) && kinds[|kinds| - 1] !in kinds[..|kinds| - 1]
    ensures forall k :: k in kinds <==> k in kinds[..|kinds| - 1] || k == kinds[|kinds| - 1]
  {
    assert kinds == kinds[..|kinds| - 1] + [kinds[|kinds| - 1]];
  }

  /** Filtering the collected entries by kind gives back that kind's own diff. */
  lemma {:induction false} FilteredIsItsDiff(kinds: seq<Kind>, before: Scan, after: Scan, k: Kind)
    requires DistinctKinds(kinds)
    ensures Filter(Collected(kinds, before, after), (e: Entry) => e.kind == k)
            == if k in kinds then Diff(k, Of(before, k), Of(after, k)) else []
  {
    if kinds != [] {
      var shorter, last := kinds[..|kinds| - 1], kinds[|kinds| - 1];
      DistinctShorter(kinds);
      FilteredIsItsDiff(shorter, before, after, k);
      KeptOrNot(last, Of(before, last), Of(after, last), k);
      var mine := Diff(k, Of(before, k), Of(after, k));
      FilterConcat(Collected(shorter, before, after), Diff(last, Of(before, last), Of(after, last)), (e: Entry) => e.kind == k,
                   if k in shorter then mine else [], if last == k then mine else []);
    }
  }

  lemma KeptOrNot(kind: Kind, before: seq<Item>, after: seq<Item>, k: Kind)
    ensures Filter(Diff(kind, before, after), (e: Entry) => e.kind == k) == if kind == k then Diff(kind, before, after) else []
  {
    DiffIsOfItsKind(kind, before, after);
    KeepAll(Diff(kind, before, after), (e: Entry) => e.kind == k);
  }

  lemma KindCounts(kinds: seq<Kind>, before: Scan, after: Scan, entries: seq<Entry>, k: Kind)
    requires multiset(entries) == multiset(Collected(kinds, before, after)) && k in kinds && DistinctKinds(kinds)
    ensures CountsOf(Filter(entries, (e: Entry) => e.kind == k)) == CountsOf(Diff(k, Of(before, k), Of(after, k)))
  {
    FilteredIsItsDiff(kinds, before, after, k);
    FilteredCounts(entries, Collected(kinds, before, after), (e: Entry) => e.kind == k);
  }

  lemma FilteredCounts(a: seq<Entry>, b: seq<Entry>, keep: Entry -> bool)
    requires multiset(a) == multiset(b)
    ensures CountsOf(Filter(a, keep)) == CountsOf(Filter(b, keep))
  {
    FilterMultiset(a, keep);
    FilterMultiset(b, keep);
    assert multiset(Filter(a, keep)) == multiset(Filter(b, keep));
    CountsPermute(Filter(a, keep), Filter(b, keep));
  }

  // ---- One namespace --------------------------------------------------------

  predicate InReport(before: Scan, after: Scan, e: Entry) {
    IsEntry(e.kind, Indexed(e.kind, Of(before, e.kind)), Indexed(e.kind, Of(after, e.kind)), e)
  }

  lemma {:induction false} CollectedMembers(kinds: seq<Kind>, before: Scan, after: Scan, e: Entry)
    ensures e in Collected(kinds, before, after) <==> e.kind in kinds && InReport(before, after, e)
  {
    if kinds != [] {
      var shorter, k := kinds[..|kinds| - 1], kinds[|kinds| - 1];
      assert kinds == shorter + [k];
      CollectedMembers(shorter, before, after, e);
      DiffIsOfItsKind(k, Of(before, k), Of(after, k));
      EntryMembers(k, Indexed(k, Of(before, k)), Indexed(k, Of(after, k)), e);
    }
  }

  lemma FingerprintsKeepApart(before: Scan, after: Scan, d: Entry, e: Entry)
    requires InReport(before, after, d) && InReport(before, after, e) && d.fingerprint == e.fingerprint
    ensures d.kind == e.kind && d == e
  {
    FromSomeItem(before, after, d);
    FromSomeItem(before, after, e);
    var x: string :| d.fingerprint == Fingerprint(d.kind, x);
    var y: string :| e.fingerprint == Fingerprint(e.kind, y);
    FingerprintInjective(d.kind, e.kind, x, y);
  }

  lemma FromSomeItem(before: Scan, after: Scan, e: Entry)
    requires InReport(before, after, e)
    ensures exists x: string :: e.fingerprint == Fingerprint(e.kind, x)
  {
    IndexedMembers(e.kind, Of(before, e.kind));
    IndexedMembers(e.kind, Of(after, e.kind));
  }

  lemma {:induction false} CollectedDistinct(kinds: seq<Kind>, before: Scan, after: Scan)
    requires DistinctKinds(kinds)
    ensures DistinctFingerprints(Collected(kinds, before, after))
  {
    if kinds != [] {
      var shorter, k := kinds[..|kinds| - 1], kinds[|kinds| - 1];
      var earlier, one := Collected(shorter, before, after), Diff(k, Of(before, k), Of(after, k));
      CollectedDistinct(shorter, before, after);
      EntriesDistinct(k, Indexed(k, Of(before, k)), Indexed(k, Of(after, k)));
      forall d, e | d in earlier && e in one ensures d.fingerprint != e.fingerprint {
        CollectedMembers(shorter, before, after, d);
        DiffIsOfItsKind(k, Of(before, k), Of(after, k));
        EntryMembers(k, Indexed(k, Of(before, k)), Indexed(k, Of(after, k)), e);
        assert shorter[..] == shorter && k !in shorter;
        if d.fingerprint == e.fingerprint {
          FingerprintsKeepApart(before, after, d, e);
        }
      }
      DistinctTogether(earlier, one);
    }
  }

  lemma DistinctTogether(a: seq<Entry>, b: seq<Entry>)
    requires DistinctFingerprints(a) && DistinctFingerprints(b)
    requires forall d, e :: d in a && e in b ==> d.fingerprint != e.fingerprint
    ensures DistinctFingerprints(a + b)
  {
    forall i, j | 0 <= i < j < |a + b| ensures (a + b)[i].fingerprint != (a + b)[j].fingerprint {
      if i < |a| <= j {
        assert a[i] in a && b[j - |a|] in b;
      }
    }
  }

  /** Across all five kinds, every resource seen in either scan has exactly one entry in the report. */
  lemma ReportHasOneEntryEach(before: Scan, after: Scan)
    ensures DistinctFingerprints(Report(before, after))
    ensures forall e :: e in Report(before, after) <==> InReport(before, after, e)
    ensures Sorted(Report(before, after), EntryLeq)
  {
    AllKindsAreListed();
    OneEntryEach(KINDS, before, after, Report(before, after));
  }

  lemma OneEntryEach(kinds: seq<Kind>, before: Scan, after: Scan, report: seq<Entry>)
    requires DistinctKinds(kinds) && (forall k: Kind :: k in kinds)
    requires report == Sort(Collected(kinds, before, after), EntryLeq)
    ensures DistinctFingerprints(report) && Sorted(report, EntryLeq)
    ensures forall e :: e in report <==> InReport(before, after, e)
  {
    SortedSame(Collected(kinds, before, after));
    CollectedDistinct(kinds, before, after);
    SortStaysDistinct(Collected(kinds, before, after));
    forall e ensures e in report <==> InReport(before, after, e) {
      CollectedMembers(kinds, before, after, e);
    }
  }

  lemma AllKindsAreListed()
    ensures DistinctKinds(KINDS) && forall k: Kind :: k in KINDS
  {
    forall k: Kind ensures k in KINDS {
      EveryKindIsListed(k);
    }
  }

  lemma EveryKindIsListed(k: Kind)
    ensures k in KINDS
  {
    assert KINDS[0] == Cookie && KINDS[1] == Script && KINDS[2] == Request && KINDS[3] == Storage && KINDS[4] == Technology;
  }

  lemma SortStaysDistinct(entries: seq<Entry>)
    requires DistinctFingerprints(entries)
    ensures DistinctFingerprints(Sort(entries, EntryLeq))
  {
    SortedSame(entries);
    DistinctImages(entries, Sort(entries, EntryLeq), (e: Entry) => e.fingerprint);
  }

  // ---- The order of observation ---------------------------------------------

  /** Items of one identity are the same item. */
  predicate Consistent(items: seq<Item>) {
    forall x, y :: x in items && y in items && x.identity == y.identity ==> x == y
  }

  /** Items of one identity agree as far as they can be seen: in material, and in title where the identity is gone later. */
  predicate ConsistentBefore(items: seq<Item>, later: seq<Item>) {
    forall x, y :: x in items && y in items && x.identity == y.identity ==>
      x.material == y.material && (!Holds(later, x.identity) ==> x.title == y.title)
  }

  predicate Holds(items: seq<Item>, identity: string) {
    exists x :: x in items && x.identity == identity
  }

  predicate Rearranged(scan: Scan, other: Scan) {
    && multiset(scan.cookies) == multiset(other.cookies) && multiset(scan.scripts) == multiset(other.scripts)
    && multiset(scan.requests) == multiset(other.requests) && multiset(scan.storage) == multiset(other.storage)
    && multiset(scan.technologies) == multiset(other.technologies)
  }

  lemma SameSortedEntries(a: seq<Entry>, b: seq<Entry>)
    requires DistinctFingerprints(a) && DistinctFingerprints(b) && Sorted(a, EntryLeq) && Sorted(b, EntryLeq)
    requires forall e :: e in a <==> e in b
    ensures a == b
  {
    EntryLeqOrders();
    LeqOrders();
    forall e ensures multiset(a)[e] == multiset(b)[e] {
      OnceAtMost(a, e);
      OnceAtMost(b, e);
    }
    assert multiset(a) == multiset(b);
    forall x, y | x in a && y in a && EntryLeq(x, y) && EntryLeq(y, x) ensures x == y {
      var i := IndexOf(a, x);
      var j := IndexOf(a, y);
    }
    SortedUnique(a, b, EntryLeq);
  }

  lemma OnceAtMost(a: seq<Entry>, e: Entry)
    requires DistinctFingerprints(a)
    ensures multiset(a)[e] == if e in a then 1 else 0
  {
    DistinctCounts(a, e);
    assert e in a <==> e in multiset(a);
  }

  // ---- Which item an identity stands for ------------------------------------

  lemma HeldIsSeen(k: Kind, items: seq<Item>, identity: string)
    ensures Get(Indexed(k, items), Fingerprint(k, identity)).Some? <==> Holds(items, identity)
    ensures Get(Indexed(k, items), Fingerprint(k, identity)).Some? ==>
              var x := Get(Indexed(k, items), Fingerprint(k, identity)).value; x in items && x.identity == identity
  {
    var key := Fingerprint(k, identity);
    SeenIsIndexed(k, items, key);
    if Seen(k, items, key) {
      var x :| x in items && Fingerprint(k, x.identity) == key;
      FingerprintInjective(k, k, x.identity, identity);
      FingerprintInjective(k, k, Indexed(k, items).table[key].identity, identity);
    }
    if x :| x in items && x.identity == identity {
      assert Fingerprint(k, x.identity) == key;
    }
  }

  lemma {:induction false} FirstIsHeld(k: Kind, x: Item, rest: seq<Item>)
    ensures Get(Indexed(k, [x] + rest), Fingerprint(k, x.identity)) == Some(x)
  {
    var items, key := [x] + rest, Fingerprint(k, x.identity);
    if rest == [] {
      assert items[..0] == [];
      IndexedOneMore(k, [], x, items);
    } else {
      var n := |rest| - 1;
      FirstIsHeld(k, x, rest[..n]);
      assert items == ([x] + rest[..n]) + [rest[n]];
      IndexedOneMore(k, [x] + rest[..n], rest[n], items);
    }
  }

  /** The scan with one collection replaced. */
  function With(scan: Scan, k: Kind, items: seq<Item>): Scan {
    match k
    case Cookie => scan.(cookies := items) case Script => scan.(scripts := items) case Request => scan.(requests := items)
    case Storage => scan.(storage := items) case Technology => scan.(technologies := items)
  }

  /** Some rearrangement of the scan has this item first in its collection, and nothing else moved. */
  lemma BroughtFirst(scan: Scan, k: Kind, x: Item) returns (moved: Scan)
    requires x in Of(scan, k)
    ensures Rearranged(scan, moved)
    ensures Get(Indexed(k, Of(moved, k)), Fingerprint(k, x.identity)) == Some(x)
  {
    var items := Of(scan, k);
    var i := IndexOf(items, x);
    var rest := items[..i] + items[i + 1..];
    RemoveAt(items, i);
    moved := With(scan, k, [x] + rest);
    assert multiset([x] + rest) == multiset{x} + multiset(rest);
    FirstIsHeld(k, x, rest);
  }

  // ---- What an entry gives away ---------------------------------------------

  ghost predicate FieldsAre(k: Kind, m: Material) {
    forall f :: f in m <==> f in FieldsOf(k)
  }

  lemma UnpickedAgree(k: Kind, was: Material, now: Material, f: string)
    requires FieldsAre(k, was) && FieldsAre(k, now) && f in FieldsOf(k) && f !in ChangedFields(k, was, now)
    ensures was[f] == now[f]
  {
    ChangedFieldsMembers(k, was, now);
  }

  lemma NowShows(k: Kind, key: string, was: Option<Item>, x: Item, y: Item)
    requires x.identity == y.identity && FieldsAre(k, x.material) && FieldsAre(k, y.material)
    requires was.Some? ==> FieldsAre(k, was.value.material)
    requires EntryFor(k, key, was, Some(x)) == EntryFor(k, key, was, Some(y))
    ensures x == y
  {
    if was.Some? {
      var o := was.value.material;
      var p, q := ChangedFields(k, o, x.material), ChangedFields(k, o, y.material);
      ComparedShows(k, key, was.value, x, y, p, q);
      ComparedChanged(k, key, was.value, x, p);
      ComparedChanged(k, key, was.value, y, q);
      SameMaterial(k, o, x.material, y.material, p);
    }
  }

  lemma ComparedChanged(k: Kind, key: string, o: Item, n: Item, fields: seq<string>)
    ensures Compared(k, key, o, n, fields).changedFields == fields
  {
  }

  lemma ComparedShows(k: Kind, key: string, o: Item, x: Item, y: Item, p: seq<string>, q: seq<string>)
    requires Compared(k, key, o, x, p) == Compared(k, key, o, y, q)
    ensures x.title == y.title && p == q && Picked(x.material, p) == Picked(y.material, p)
  {
    ComparedChanged(k, key, o, x, p);
    ComparedChanged(k, key, o, y, q);
    if p == [] {
      assert Picked(x.material, p) == map[] == Picked(y.material, p);
    }
  }

  lemma SameMaterial(k: Kind, o: Material, m: Material, n: Material, fields: seq<string>)
    requires FieldsAre(k, o) && FieldsAre(k, m) && FieldsAre(k, n)
    requires fields == ChangedFields(k, o, m) == ChangedFields(k, o, n) && Picked(m, fields) == Picked(n, fields)
    ensures m == n
  {
    forall f | f in m ensures m[f] == n[f] {
      if f in fields {
        assert Picked(m, fields)[f] == m[f] && Picked(n, fields)[f] == n[f];
      } else {
        UnpickedAgree(k, o, m, f);
        UnpickedAgree(k, o, n, f);
      }
    }
  }

  lemma WasShows(k: Kind, key: string, x: Item, y: Item, now: Option<Item>)
    requires FieldsAre(k, x.material) && FieldsAre(k, y.material)
    requires now.Some? ==> FieldsAre(k, now.value.material)
    requires EntryFor(k, key, Some(x), now) == EntryFor(k, key, Some(y), now)
    ensures x.material == y.material && (now.None? ==> x.title == y.title)
  {
    if now.Some? {
      var n := now.value;
      var p, q := ChangedFields(k, x.material, n.material), ChangedFields(k, y.material, n.material);
      ComparedChanged(k, key, x, n, p);
      ComparedChanged(k, key, y, n, q);
      assert Picked(x.material, p) == Picked(y.material, p) by {
        if p == [] {
          assert Picked(x.material, p) == map[] == Picked(y.material, p);
        }
      }
      SameEarlierMaterial(k, x.material, y.material, n.material, p);
    }
  }

  lemma SameEarlierMaterial(k: Kind, l: Material, m: Material, n: Material, fields: seq<string>)
    requires FieldsAre(k, l) && FieldsAre(k, m) && FieldsAre(k, n)
    requires fields == ChangedFields(k, l, n) == ChangedFields(k, m, n) && Picked(l, fields) == Picked(m, fields)
    ensures l == m
  {
    forall f | f in l ensures l[f] == m[f] {
      if f in fields {
        assert Picked(l, fields)[f] == l[f] && Picked(m, fields)[f] == m[f];
      } else {
        UnpickedAgree(k, l, n, f);
        UnpickedAgree(k, m, n, f);
      }
    }
  }

  // ---- When the order does not show -----------------------------------------

  ghost predicate ShapedScan(scan: Scan) {
    forall k: Kind :: Shaped(k, Of(scan, k))
  }

  ghost predicate Agreeing(before: Scan, after: Scan) {
    forall k: Kind :: Consistent(Of(after, k)) && ConsistentBefore(Of(before, k), Of(after, k))
  }

  ghost predicate OrderIsIrrelevant(before: Scan, after: Scan) {
    forall before2, after2 :: Rearranged(before, before2) && Rearranged(after, after2) ==> Report(before, after) == Report(before2, after2)
  }

  lemma RearrangedKind(scan: Scan, other: Scan, k: Kind)
    requires Rearranged(scan, other)
    ensures multiset(Of(scan, k)) == multiset(Of(other, k))
    ensures forall x :: x in Of(scan, k) <==> x in Of(other, k)
  {
    SameElements(Of(scan, k), Of(other, k));
  }

  lemma EntrySeesTheSame(k: Kind, key: string, o: Option<Item>, n: Option<Item>, o2: Option<Item>)
    requires o.Some? || n.Some?
    requires o.Some? <==> o2.Some?
    requires o.Some? ==> o.value.material == o2.value.material && (n.None? ==> o.value.title == o2.value.title)
    ensures EntryFor(k, key, o, n) == EntryFor(k, key, o2, n)
  {
  }

  lemma EntryStays(before: Scan, after: Scan, before2: Scan, after2: Scan, k: Kind, identity: string)
    requires Rearranged(before, before2) && Rearranged(after, after2) && Agreeing(before, after)
    ensures var key := Fingerprint(k, identity);
            && (Known(Indexed(k, Of(before, k)), Indexed(k, Of(after, k)), key)
                <==> Known(Indexed(k, Of(before2, k)), Indexed(k, Of(after2, k)), key))
            && EntryAt(k, Indexed(k, Of(before, k)), Indexed(k, Of(after, k)), key)
               == EntryAt(k, Indexed(k, Of(before2, k)), Indexed(k, Of(after2, k)), key)
  {
    var key := Fingerprint(k, identity);
    RearrangedKind(before, before2, k);
    RearrangedKind(after, after2, k);
    HeldIsSeen(k, Of(before, k), identity);
    HeldIsSeen(k, Of(before2, k), identity);
    HeldIsSeen(k, Of(after, k), identity);
    HeldIsSeen(k, Of(after2, k), identity);
    var o, n := Get(Indexed(k, Of(before, k)), key), Get(Indexed(k, Of(after, k)), key);
    var o2, n2 := Get(Indexed(k, Of(before2, k)), key), Get(Indexed(k, Of(after2, k)), key);
    assert n == n2;
    if o.Some? || n.Some? {
      EntrySeesTheSame(k, key, o, n, o2);
    }
  }

  lemma InReportHasIdentity(before: Scan, after: Scan, e: Entry) returns (identity: string)
    requires InReport(before, after, e)
    ensures e.fingerprint == Fingerprint(e.kind, identity)
  {
    FromSomeItem(before, after, e);
    identity :| e.fingerprint == Fingerprint(e.kind, identity);
  }

  /** The report is the same whatever order its two scans were observed in, where duplicates agree. */
  lemma ObservationOrderIsIrrelevant(before: Scan, after: Scan, before2: Scan, after2: Scan)
    requires Rearranged(before, before2) && Rearranged(after, after2) && Agreeing(before, after)
    ensures Report(before, after) == Report(before2, after2)
  {
    ReportHasOneEntryEach(before, after);
    ReportHasOneEntryEach(before2, after2);
    forall e ensures InReport(before, after, e) <==> InReport(before2, after2, e) {
      if InReport(before, after, e) {
        var identity := InReportHasIdentity(before, after, e);
        EntryStays(before, after, before2, after2, e.kind, identity);
      }
      if InReport(before2, after2, e) {
        var identity := InReportHasIdentity(before2, after2, e);
        EntryStays(before, after, before2, after2, e.kind, identity);
      }
    }
    SameSortedEntries(Report(before, after), Report(before2, after2));
  }

  /** Two equal reports say the same of a resource. */
  lemma SameReportSameEntry(before: Scan, after: Scan, before2: Scan, after2: Scan, k: Kind, key: string)
    requires Report(before, after) == Report(before2, after2)
    requires Known(Indexed(k, Of(before, k)), Indexed(k, Of(after, k)), key)
    ensures Known(Indexed(k, Of(before2, k)), Indexed(k, Of(after2, k)), key)
    ensures EntryAt(k, Indexed(k, Of(before, k)), Indexed(k, Of(after, k)), key)
            == EntryAt(k, Indexed(k, Of(before2, k)), Indexed(k, Of(after2, k)), key)
  {
    ReportHasOneEntryEach(before, after);
    ReportHasOneEntryEach(before2, after2);
    var e := EntryAt(k, Indexed(k, Of(before, k)), Indexed(k, Of(after, k)), key);
    EntrySays(k, Indexed(k, Of(before, k)), Indexed(k, Of(after, k)), key);
    assert InReport(before, after, e);
    assert e in Report(before2, after2);
  }

  lemma HeldIsShaped(k: Kind, items: seq<Item>, key: string)
    requires Shaped(k, items)
    ensures Get(Indexed(k, items), key).Some? ==> FieldsAre(k, Get(Indexed(k, items), key).value.material)
  {
    SeenIsIndexed(k, items, key);
  }

  lemma LaterMustAgree(before: Scan, after: Scan, k: Kind, x: Item, y: Item)
    requires ShapedScan(before) && ShapedScan(after) && OrderIsIrrelevant(before, after)
    requires x in Of(after, k) && y in Of(after, k) && x.identity == y.identity
    ensures x == y
  {
    var key := Fingerprint(k, x.identity);
    var one := BroughtFirst(after, k, x);
    var two := BroughtFirst(after, k, y);
    assert Rearranged(before, before);
    SameReportSameEntry(before, one, before, two, k, key);
    assert Shaped(k, Of(after, k)) && Shaped(k, Of(before, k));
    HeldIsShaped(k, Of(before, k), key);
    NowShows(k, key, Get(Indexed(k, Of(before, k)), key), x, y);
  }

  lemma EarlierMustAgree(before: Scan, after: Scan, k: Kind, x: Item, y: Item)
    requires ShapedScan(before) && ShapedScan(after) && OrderIsIrrelevant(before, after)
    requires x in Of(before, k) && y in Of(before, k) && x.identity == y.identity
    ensures x.material == y.material && (!Holds(Of(after, k), x.identity) ==> x.title == y.title)
  {
    var key := Fingerprint(k, x.identity);
    var one := BroughtFirst(before, k, x);
    var two := BroughtFirst(before, k, y);
    assert Rearranged(after, after);
    SameReportSameEntry(one, after, two, after, k, key);
    assert Shaped(k, Of(after, k)) && Shaped(k, Of(before, k));
    HeldIsShaped(k, Of(after, k), key);
    HeldIsSeen(k, Of(after, k), x.identity);
    WasShows(k, key, x, y, Get(Indexed(k, Of(after, k)), key));
  }

  /**
   * For scans as the descriptors present them: no order of observation shows in the report exactly when
   * items of one identity are equal in the later scan, and in the earlier one agree in material, and in
   * title where the identity is gone from the later scan.
   */
  lemma OrderIsIrrelevantIff(before: Scan, after: Scan)
    requires ShapedScan(before) && ShapedScan(after)
    ensures OrderIsIrrelevant(before, after) <==> Agreeing(before, after)
  {
    if Agreeing(before, after) {
      forall before2, after2 | Rearranged(before, before2) && Rearranged(after, after2) ensures Report(before, after) == Report(before2, after2) {
        ObservationOrderIsIrrelevant(before, after, before2, after2);
      }
    }
    if OrderIsIrrelevant(before, after) {
      forall k: Kind ensures Consistent(Of(after, k)) && ConsistentBefore(Of(before, k), Of(after, k)) {
        forall x, y | x in Of(after, k) && y in Of(after, k) && x.identity == y.identity ensures x == y {
          LaterMustAgree(before, after, k, x, y);
        }
        forall x, y | x in Of(before, k) && y in Of(before, k) && x.identity == y.identity
          ensures x.material == y.material && (!Holds(Of(after, k), x.identity) ==> x.title == y.title)
        {
          EarlierMustAgree(before, after, k, x, y);
        }
      }
    }
  }

  // ---- Cookies that collide -------------------------------------------------

  /** A cookie as a scan records it. */
  datatype CookieSeen = CookieSeen(
    name: string, domain: string, path: string, secure: bool, httpOnly: bool, sameSite: Option<string>,
    thirdParty: bool, expires: bool)

  function Norm(s: string): string {
    Lower(Trim(s))
  }

  /** The cookie descriptor: name, domain and path identify it, in lower case; five fields are material. */
  function AsItem(c: CookieSeen): Item {
    var path, sameSite := Norm(c.path), if c.sameSite.Some? then Norm(c.sameSite.value) else "";
    Item(Norm(c.name) + "|" + Norm(c.domain) + "|" + (if path == "" then "/" else path),
         map["secure" := Flag(c.secure), "http_only" := Flag(c.httpOnly),
             "same_site" := if sameSite == "" then Null else Word(sameSite),
             "third_party" := Flag(c.thirdParty), "persistent" := Flag(c.expires)],
         c.name + " (" + c.domain + c.path + ")")
  }

  /** A cookie without a path is at the root. */
  function PathOf(c: CookieSeen): string {
    if Blank(c.path) then "/" else Norm(c.path)
  }

  /** Nothing said, or nothing but white space, is no policy. */
  function SiteOf(c: CookieSeen): Option<string> {
    if c.sameSite.None? || Blank(c.sameSite.value) then None else Some(Norm(c.sameSite.value))
  }

  lemma {:induction false} LowerEmpty(s: string)
    ensures Lower(s) == "" <==> s == ""
  {
  }

  lemma NormBlank(s: string)
    ensures Norm(s) == "" <==> Blank(s)
  {
    TrimBlank(s);
    LowerEmpty(Trim(s));
  }

  lemma SplitAtBar(a: string, b: string, x: string, y: string)
    requires '|' !in a && '|' !in x && a + "|" + b == x + "|" + y
    ensures a == x && b == y
  {
    assert a + "|" + b == a + ['|'] + b && x + "|" + y == x + ['|'] + y;
    BeforeFirst(a, '|', b);
    BeforeFirst(x, '|', y);
    assert (a + "|" + b)[|a| + 1..] == b && (x + "|" + y)[|x| + 1..] == y;
  }

  lemma IdentityIs(c: CookieSeen)
    ensures AsItem(c).identity == Norm(c.name) + "|" + (Norm(c.domain) + "|" + PathOf(c))
  {
    NormBlank(c.path);
  }

  /** Where neither name nor domain has a bar in it, two cookies are the same exactly when name, domain and path are, case and padding aside. */
  lemma SameCookieIff(c: CookieSeen, d: CookieSeen)
    requires '|' !in Norm(c.name) && '|' !in Norm(d.name) && '|' !in Norm(c.domain) && '|' !in Norm(d.domain)
    ensures AsItem(c).identity == AsItem(d).identity <==>
            Norm(c.name) == Norm(d.name) && Norm(c.domain) == Norm(d.domain) && PathOf(c) == PathOf(d)
  {
    IdentityIs(c);
    IdentityIs(d);
    SameInThree(Norm(c.name), Norm(c.domain), PathOf(c), Norm(d.name), Norm(d.domain), PathOf(d));
  }

  lemma SameInThree(a: string, b: string, c: string, x: string, y: string, z: string)
    requires '|' !in a && '|' !in x && '|' !in b && '|' !in y
    ensures a + "|" + (b + "|" + c) == x + "|" + (y + "|" + z) <==> a == x && b == y && c == z
  {
    if a + "|" + (b + "|" + c) == x + "|" + (y + "|" + z) {
      SplitAtBar(a, b + "|" + c, x, y + "|" + z);
      SplitAtBar(b, c, y, z);
    }
  }

  function Policy(c: CookieSeen): Value {
    if SiteOf(c).None? then Null else Word(SiteOf(c).value)
  }

  lemma MaterialIs(c: CookieSeen)
    ensures AsItem(c).material ==
            map["secure" := Flag(c.secure), "http_only" := Flag(c.httpOnly), "same_site" := Policy(c),
                "third_party" := Flag(c.thirdParty), "persistent" := Flag(c.expires)]
  {
    if c.sameSite.Some? { NormBlank(c.sameSite.value); }
  }

  /** And it has changed exactly when one of five things has: the flags, the policy on other sites, or whether it outlives the session. */
  lemma SameMaterialIff(c: CookieSeen, d: CookieSeen)
    ensures AsItem(c).material == AsItem(d).material <==>
            && c.secure == d.secure && c.httpOnly == d.httpOnly && c.thirdParty == d.thirdParty && c.expires == d.expires
            && SiteOf(c) == SiteOf(d)
  {
    MaterialIs(c);
    MaterialIs(d);
    SameFive(Flag(c.secure), Flag(c.httpOnly), Policy(c), Flag(c.thirdParty), Flag(c.expires),
             Flag(d.secure), Flag(d.httpOnly), Policy(d), Flag(d.thirdParty), Flag(d.expires));
  }

  lemma SameFive(a: Value, b: Value, c: Value, d: Value, e: Value, v: Value, w: Value, x: Value, y: Value, z: Value)
    ensures map["secure" := a, "http_only" := b, "same_site" := c, "third_party" := d, "persistent" := e]
            == map["secure" := v, "http_only" := w, "same_site" := x, "third_party" := y, "persistent" := z]
            <==> a == v && b == w && c == x && d == y && e == z
  {
    var m := map["secure" := a, "http_only" := b, "same_site" := c, "third_party" := d, "persistent" := e];
    var n := map["secure" := v, "http_only" := w, "same_site" := x, "third_party" := y, "persistent" := z];
    assert m["secure"] == a && m["http_only"] == b && m["same_site"] == c && m["third_party"] == d && m["persistent"] == e;
    assert n["secure"] == v && n["http_only"] == w && n["same_site"] == x && n["third_party"] == y && n["persistent"] == z;
  }

  lemma CookiesAreShaped(cookies: seq<CookieSeen>)
    ensures Shaped(Cookie, Map(cookies, AsItem))
  {
    forall x | x in Map(cookies, AsItem) ensures FieldsAre(Cookie, x.material) {
      MapMember(cookies, AsItem, x);
      var c :| c in cookies && AsItem(c) == x;
      CookieFields(c);
    }
  }

  lemma CookieFields(c: CookieSeen)
    ensures FieldsAre(Cookie, AsItem(c).material)
  {
  }

  function OnlyCookies(cookies: seq<CookieSeen>): Scan {
    Scan(Map(cookies, AsItem), [], [], [], [])
  }

  lemma OnlyCookiesAreShaped(cookies: seq<CookieSeen>)
    ensures ShapedScan(OnlyCookies(cookies))
  {
    CookiesAreShaped(cookies);
    var scan := OnlyCookies(cookies);
    forall k: Kind ensures Shaped(k, Of(scan, k)) {
      if k != Cookie { assert Of(scan, k) == []; }
    }
  }

  lemma TitleShowsTheName(c: CookieSeen, d: CookieSeen)
    requires c.name != d.name && |c.name| == |d.name|
    ensures AsItem(c).title != AsItem(d).title
  {
    assert AsItem(c).title[..|c.name|] == c.name && AsItem(d).title[..|d.name|] == d.name;
  }

  lemma TwoCookies(c: CookieSeen, d: CookieSeen)
    ensures Map([c, d], AsItem) == [AsItem(c), AsItem(d)]
  {
    assert [c, d][1..] == [d] && [d][1..] == [];
  }

  lemma TwoItemsShow(none: Scan, scan: Scan, x: Item, y: Item)
    requires ShapedScan(none) && ShapedScan(scan) && scan.cookies == [x, y] && x.identity == y.identity && x != y
    ensures !OrderIsIrrelevant(none, scan)
  {
    OrderIsIrrelevantIff(none, scan);
    assert x in Of(scan, Cookie) && y in Of(scan, Cookie);
  }

  /** Two cookies whose names differ in case alone share an identity, and which was seen first shows in the report. */
  lemma CookiesOfOneIdentityShow(c: CookieSeen, d: CookieSeen)
    requires c.name != d.name && Norm(c.name) == Norm(d.name) && |c.name| == |d.name|
    requires d == c.(name := d.name)
    ensures AsItem(c).identity == AsItem(d).identity
    ensures !OrderIsIrrelevant(OnlyCookies([]), OnlyCookies([c, d]))
  {
    OnlyCookiesAreShaped([]);
    OnlyCookiesAreShaped([c, d]);
    TwoCookies(c, d);
    TitleShowsTheName(c, d);
    TwoItemsShow(OnlyCookies([]), OnlyCookies([c, d]), AsItem(c), AsItem(d));
  }

  /** Such cookies exist: `_GA` and `_ga`. */
  lemma DisagreeingDuplicatesShow()
    ensures var c := CookieSeen("_GA", "example.com", "/", true, false, None, false, true);
            !OrderIsIrrelevant(OnlyCookies([]), OnlyCookies([c, c.(name := "_ga")]))
  {
    var c := CookieSeen("_GA", "example.com", "/", true, false, None, false, true);
    assert Trim("_GA") == "_GA" && Trim("_ga") == "_ga";
    assert Lower("_GA") == "_ga" == Lower("_ga");
    assert "_GA"[1] != "_ga"[1];
    CookiesOfOneIdentityShow(c, c.(name := "_ga"));
  }
}
