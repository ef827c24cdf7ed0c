/**
 * Comparing two scans of a site, one collection at a time: one entry per resource identity, and together
 * a patch that turns what the earlier scan saw into what the later one saw.
 */
module ScanDiff {
  import opened Text
  import opened Sequences
  import opened InsertionMaps

  datatype Kind = Cookie | Script | Request | Storage | Technology

  const KINDS := [Cookie, Script, Request, Storage, Technology]

  function NameOf(k: Kind): string {
    match k
    case Cookie => "cookie" case Script => "script" case Request => "request"
    case Storage => "storage" case Technology => "technology"
  }

  datatype Value = Flag(on: bool) | Word(text: string) | Null

  type Material = map<string, Value>

  /** A resource as its kind's descriptor presents it: what identifies it and what, if different, is a change. */
  datatype Item = Item(identity: string, material: Material, title: string)

  /** The material fields every item of a kind has. */
  function FieldsOf(k: Kind): seq<string> {
    match k
    case Cookie => ["secure", "http_only", "same_site", "third_party", "persistent"]
    case Script => ["third_party", "host"]
    case Request => ["third_party"]
    case Storage => []
    case Technology => ["category", "confidence", "crosses_border", "destination_country"]
  }

  /** What is compared, kind by kind; nothing of what is stored. */
  lemma FieldsByKind(f: string, k: Kind)
    ensures f in FieldsOf(k) <==>
            || (k == Cookie && f in {"secure", "http_only", "same_site", "third_party", "persistent"})
            || (k in {Script, Request} && f == "third_party") || (k == Script && f == "host")
            || (k == Technology && f in {"category", "confidence", "crosses_border", "destination_country"})
  {
    var fields := FieldsOf(k);
    if k == Cookie {
      assert fields[0] == "secure" && fields[1] == "http_only" && fields[2] == "same_site" && fields[3] == "third_party" && fields[4] == "persistent";
    }
    if k == Technology {
      assert fields[0] == "category" && fields[1] == "confidence" && fields[2] == "crosses_border" && fields[3] == "destination_country";
    }
    assert k == Script ==> fields[0] == "third_party" && fields[1] == "host";
    assert k == Request ==> fields[0] == "third_party";
  }

  ghost predicate Shaped(k: Kind, items: seq<Item>) {
    forall x, f :: x in items ==> (f in x.material <==> f in FieldsOf(k))
  }

  function Fingerprint(k: Kind, identity: string): string {
    NameOf(k) + ":" + identity
  }

  /** One namespace covers every kind without collisions. */
  lemma FingerprintInjective(k: Kind, l: Kind, x: string, y: string)
    requires Fingerprint(k, x) == Fingerprint(l, y)
    ensures k == l && x == y
  {
    var text := Fingerprint(k, x);
    assert text[0] == NameOf(k)[0] == NameOf(l)[0] && text[1] == NameOf(k)[1] == NameOf(l)[1];
    assert k == l;
    assert text[|NameOf(k)| + 1..] == x && text[|NameOf(l)| + 1..] == y;
  }

  datatype Status = New | Changed | Removed | Unchanged

  datatype Entry = Entry(kind: Kind, fingerprint: string, status: Status, title: string,
                         changedFields: seq<string>, before: Material, after: Material)

  // ---- One collection -------------------------------------------------------

  type Index = Dict<string, Item>

  /** The first item under each fingerprint. */
  function Indexed(k: Kind, items: seq<Item>): (index: Index)
    ensures index.Valid()
  {
    if items == [] then Empty()
    else
      var before, last := Indexed(k, items[..|items| - 1]), items[|items| - 1];
      var key := Fingerprint(k, last.identity);
      if key in before.table then before else before.Put(key, last)
  }

  method IndexItems(k: Kind, items: seq<Item>) returns (index: Index)
    ensures index == Indexed(k, items)
  {
    index := Empty();
    for i := 0 to |items|
      invariant index == Indexed(k, items[..i])
    {
      assert items[..i + 1][..i] == items[..i];
      var key := Fingerprint(k, items[i].identity);
      if key !in index.table {
        index := index.Put(key, items[i]);
      }
    }
    assert items[..|items|] == items;
  }

  predicate Differs(was: Material, now: Material, field: string) {
    field in now && (field !in was || was[field] != now[field])
  }

  /** The fields whose material value differs, in order. */
  function ChangedFields(k: Kind, was: Material, now: Material): seq<string> {
    Sort(Filter(FieldsOf(k), (f: string) => Differs(was, now, f)), Leq)
  }

  function Picked(m: Material, fields: seq<string>): Material {
    map f | f in fields && f in m :: m[f]
  }

  /** The entry of a resource seen in both scans. */
  function Compared(k: Kind, key: string, was: Item, now: Item, fields: seq<string>): Entry {
    if fields == [] then Entry(k, key, Unchanged, now.title, [], map[], map[])
    else Entry(k, key, Changed, now.title, fields, Picked(was.material, fields), Picked(now.material, fields))
  }

  function EntryFor(k: Kind, key: string, was: Option<Item>, now: Option<Item>): Entry
    requires was.Some? || now.Some?
  {
    if was.None? then Entry(k, key, New, now.value.title, [], map[], now.value.material)
    else if now.None? then Entry(k, key, Removed, was.value.title, [], was.value.material, map[])
    else
      Compared(k, key, was.value, now.value, ChangedFields(k, was.value.material, now.value.material))
  }

  function Get(index: Index, key: string): Option<Item> {
    if key in index.table then Some(index.table[key]) else None
  }

  predicate Known(previous: Index, current: Index, key: string) {
    key in previous.table || key in current.table
  }

  function EntryAt(k: Kind, previous: Index, current: Index, key: string): Entry {
    if Known(previous, current, key) then EntryFor(k, key, Get(previous, key), Get(current, key))
    else Entry(k, key, Unchanged, "", [], map[], map[])
  }

  /** The keys in the order the entries come out: what is there now, then what is gone. */
  function EntryKeys(previous: Index, current: Index): seq<string> {
    current.keys + Filter(previous.keys, (key: string) => key !in current.table)
  }

  function Entries(k: Kind, previous: Index, current: Index): seq<Entry> {
    Map(EntryKeys(previous, current), (key: string) => EntryAt(k, previous, current, key))
  }

  function Diff(k: Kind, before: seq<Item>, after: seq<Item>): seq<Entry> {
    Entries(k, Indexed(k, before), Indexed(k, after))
  }

  method EntryOf(k: Kind, key: string, item: Item, previous: Index) returns (e: Entry)
    ensures e == EntryFor(k, key, Get(previous, key), Some(item))
  {
    if key !in previous.table {
      return Entry(k, key, New, item.title, [], map[], item.material);
    }
    var oldMaterial, newMaterial := previous.table[key].material, item.material;
    var changedFields := ChangedFields(k, oldMaterial, newMaterial);
    if |changedFields| == 0 {
      return Entry(k, key, Unchanged, item.title, [], map[], map[]);
    }
    e := Entry(k, key, Changed, item.title, changedFields, Picked(oldMaterial, changedFields), Picked(newMaterial, changedFields));
  }

  lemma MapStep(keys: seq<string>, i: nat, f: string -> Entry)
    requires i < |keys|
    ensures Map(keys[..i + 1], f) == Map(keys[..i], f) + [f(keys[i])]
  {
    assert keys[..i + 1] == keys[..i] + [keys[i]];
    MapAppend(keys[..i], [keys[i]], f);
  }

  method PresentEntries(k: Kind, previous: Index, current: Index) returns (entries: seq<Entry>)
    requires current.Valid()
    ensures entries == Map(current.keys, (key: string) => EntryAt(k, previous, current, key))
  {
    ghost var at := (key: string) => EntryAt(k, previous, current, key);
    entries := [];
    for i := 0 to |current.keys|
      invariant entries == Map(current.keys[..i], at)
    {
      var key := current.keys[i];
      assert key in current.keys;
      MapStep(current.keys, i, at);
      var e := EntryOf(k, key, current.table[key], previous);
      entries := entries + [e];
    }
    assert current.keys[..|current.keys|] == current.keys;
  }

  method GoneEntries(k: Kind, previous: Index, current: Index) returns (entries: seq<Entry>)
    requires previous.Valid()
    ensures entries == Map(Filter(previous.keys, (key: string) => key !in current.table), (key: string) => EntryAt(k, previous, current, key))
  {
    ghost var at := (key: string) => EntryAt(k, previous, current, key);
    ghost var gone := (key: string) => key !in current.table;
    entries := [];
    for i := 0 to |previous.keys|
      invariant entries == Map(Filter(previous.keys[..i], gone), at)
    {
      var key := previous.keys[i];
      assert key in previous.keys;
      GoneStep(previous.keys, i, gone, at);
      if key in current.table {
        continue;
      }
      GoneIsRemoved(k, previous, current, key);
      entries := entries + [Entry(k, key, Removed, previous.table[key].title, [], previous.table[key].material, map[])];
    }
    assert previous.keys[..|previous.keys|] == previous.keys;
  }

  lemma GoneIsRemoved(k: Kind, previous: Index, current: Index, key: string)
    requires key in previous.table && key !in current.table
    ensures EntryAt(k, previous, current, key)
            == Entry(k, key, Removed, previous.table[key].title, [], previous.table[key].material, map[])
  {
  }

  lemma GoneStep(keys: seq<string>, i: nat, keep: string -> bool, f: string -> Entry)
    requires i < |keys|
    ensures Map(Filter(keys[..i + 1], keep), f) == Map(Filter(keys[..i], keep), f) + if keep(keys[i]) then [f(keys[i])] else []
  {
    assert keys[..i + 1] == keys[..i] + [keys[i]];
    FilterAppend(keys[..i], [keys[i]], keep);
    MapAppend(Filter(keys[..i], keep), Filter([keys[i]], keep), f);
  }

  method DiffCollection(k: Kind, before: seq<Item>, after: seq<Item>) returns (entries: seq<Entry>)
    ensures entries == Diff(k, before, after)
  {
    var previous := IndexItems(k, before);
    var current := IndexItems(k, after);
    var present := PresentEntries(k, previous, current);
    var gone := GoneEntries(k, previous, current);
    MapAppend(current.keys, Filter(previous.keys, (key: string) => key !in current.table), (key: string) => EntryAt(k, previous, current, key));
    entries := present + gone;
  }

  // ---- Exactly one entry per identity ---------------------------------------

  predicate DistinctFingerprints(entries: seq<Entry>) {
    forall i, j :: 0 <= i < j < |entries| ==> entries[i].fingerprint != entries[j].fingerprint
  }

  lemma EntryKeysAreKnown(previous: Index, current: Index)
    requires previous.Valid() && current.Valid()
    ensures forall key :: key in EntryKeys(previous, current) <==> Known(previous, current, key)
    ensures forall i, j :: 0 <= i < j < |EntryKeys(previous, current)| ==> EntryKeys(previous, current)[i] != EntryKeys(previous, current)[j]
  {
    var gone := (key: string) => key !in current.table;
    forall key: string ensures key in Filter(previous.keys, gone) <==> key in previous.keys && key !in current.table {
      FilterMember(previous.keys, gone, key);
    }
    FilterDistinct(previous.keys, gone);
    var keys := EntryKeys(previous, current);
    forall i, j | 0 <= i < j < |keys| ensures keys[i] != keys[j] {
      if i < |current.keys| <= j {
        assert keys[i] in current.keys;
        assert Filter(previous.keys, gone)[j - |current.keys|] in Filter(previous.keys, gone);
      }
    }
  }

  predicate Seen(k: Kind, items: seq<Item>, key: string) {
    exists x :: x in items && Fingerprint(k, x.identity) == key
  }

  lemma SeenOneMore(k: Kind, rest: seq<Item>, last: Item, items: seq<Item>, key: string)
    requires items == rest + [last]
    ensures Seen(k, items, key) <==> Seen(k, rest, key) || Fingerprint(k, last.identity) == key
  {
    assert last in items;
    if x :| x in rest && Fingerprint(k, x.identity) == key { assert x in items; }
  }

  lemma IndexedOneMore(k: Kind, rest: seq<Item>, last: Item, items: seq<Item>)
    requires items == rest + [last]
    ensures var key, table := Fingerprint(k, last.identity), Indexed(k, rest).table;
            Indexed(k, items).table == if key in table then table else table[key := last]
  {
    assert items[..|items| - 1] == rest;
  }

  lemma {:induction false} SeenIsIndexed(k: Kind, items: seq<Item>, key: string)
    ensures Seen(k, items, key) <==> key in Indexed(k, items).table
    ensures key in Indexed(k, items).table ==>
              Indexed(k, items).table[key] in items && Fingerprint(k, Indexed(k, items).table[key].identity) == key
  {
    if items != [] {
      var rest, last := items[..|items| - 1], items[|items| - 1];
      SeenIsIndexed(k, rest, key);
      IndexedOneMore(k, rest, last, items);
      SeenOneMore(k, rest, last, items, key);
    }
  }

  lemma IndexedMembers(k: Kind, items: seq<Item>)
    ensures forall key :: key in Indexed(k, items).table <==> Seen(k, items, key)
    ensures forall key :: key in Indexed(k, items).table ==>
              Indexed(k, items).table[key] in items && Fingerprint(k, Indexed(k, items).table[key].identity) == key
  {
    forall key: string
      ensures key in Indexed(k, items).table <==> Seen(k, items, key)
      ensures key in Indexed(k, items).table ==>
                Indexed(k, items).table[key] in items && Fingerprint(k, Indexed(k, items).table[key].identity) == key
    {
      SeenIsIndexed(k, items, key);
    }
  }

  /** What an entry says, without its materials. */
  lemma EntrySays(k: Kind, previous: Index, current: Index, key: string)
    ensures var e := EntryAt(k, previous, current, key);
            && e.fingerprint == key && e.kind == k
            && (Known(previous, current, key) ==>
                  && (e.status == New <==> key !in previous.table)
                  && (e.status == Removed <==> key !in current.table))
  {
  }

  /** An entry is in the diff exactly when its resource is in either index and it says what became of it. */
  lemma EntryMembers(k: Kind, previous: Index, current: Index, e: Entry)
    requires previous.Valid() && current.Valid()
    ensures e in Entries(k, previous, current) <==> IsEntry(k, previous, current, e)
  {
    var keys, at := EntryKeys(previous, current), (key: string) => EntryAt(k, previous, current, key);
    EntryKeysAreKnown(previous, current);
    MapMember(keys, at, e);
    if e in Map(keys, at) {
      var key :| key in keys && at(key) == e;
      EntrySays(k, previous, current, key);
    }
    if IsEntry(k, previous, current, e) {
      assert e.fingerprint in keys && at(e.fingerprint) == e;
    }
  }

  predicate IsEntry(k: Kind, previous: Index, current: Index, e: Entry) {
    Known(previous, current, e.fingerprint) && e == EntryAt(k, previous, current, e.fingerprint)
  }

  lemma EntriesDistinct(k: Kind, previous: Index, current: Index)
    requires previous.Valid() && current.Valid()
    ensures DistinctFingerprints(Entries(k, previous, current))
  {
    EntryKeysAreKnown(previous, current);
    var keys, entries := EntryKeys(previous, current), Entries(k, previous, current);
    forall i | 0 <= i < |entries| ensures entries[i].fingerprint == keys[i] {
      assert keys[i] in keys;
    }
  }

  /** Each identity seen in either scan has exactly one entry, and no entry is about anything else. */
  lemma OneEntryPerIdentity(k: Kind, before: seq<Item>, after: seq<Item>, key: string)
    ensures DistinctFingerprints(Diff(k, before, after))
    ensures Seen(k, before, key) || Seen(k, after, key) <==> exists e :: e in Diff(k, before, after) && e.fingerprint == key
    ensures forall e :: e in Diff(k, before, after) && e.fingerprint == key ==>
              && (e.status == New <==> !Seen(k, before, key))
              && (e.status == Removed <==> !Seen(k, after, key))
  {
    var previous, current := Indexed(k, before), Indexed(k, after);
    EntriesDistinct(k, previous, current);
    SeenIsIndexed(k, before, key);
    SeenIsIndexed(k, after, key);
    EntrySays(k, previous, current, key);
    EntryMembers(k, previous, current, EntryAt(k, previous, current, key));
    forall e | e in Diff(k, before, after) && e.fingerprint == key ensures IsEntry(k, previous, current, e) {
      EntryMembers(k, previous, current, e);
    }
  }

  // ---- What an entry says ---------------------------------------------------

  /** What a collection shows under a key: the first item seen with it. */
  predicate FirstUnder(k: Kind, items: seq<Item>, i: nat, key: string) {
    && i < |items| && Fingerprint(k, items[i].identity) == key
    && forall j :: 0 <= j < i ==> Fingerprint(k, items[j].identity) != key
  }

  lemma {:induction false} IndexKeepsTheFirst(k: Kind, items: seq<Item>, i: nat, key: string)
    requires FirstUnder(k, items, i, key)
    ensures Get(Indexed(k, items), key) == Some(items[i])
  {
    var rest, last := items[..|items| - 1], items[|items| - 1];
    IndexedOneMore(k, rest, last, items);
    if i < |rest| {
      IndexKeepsTheFirst(k, rest, i, key);
    } else {
      SeenIsIndexed(k, rest, key);
      assert forall x :: x in rest ==> Fingerprint(k, x.identity) != key;
    }
  }

  ghost predicate FieldDiffers(k: Kind, was: Material, now: Material, f: string) {
    f in FieldsOf(k) && f in now && (f in was ==> was[f] != now[f])
  }

  /** Changed exactly when a field of the kind differs; those fields, in order and once each, and their values on either side. */
  ghost predicate ReadsAsCompared(k: Kind, was: Item, now: Item, e: Entry) {
    && e.status in {Changed, Unchanged} && e.title == now.title
    && (e.status == Changed <==> exists f :: FieldDiffers(k, was.material, now.material, f))
    && (forall f :: f in e.changedFields <==> FieldDiffers(k, was.material, now.material, f))
    && (forall f :: multiset(e.changedFields)[f] <= 1) && Sorted(e.changedFields, Leq)
    && (forall f :: f in e.before <==> f in e.changedFields && f in was.material)
    && (forall f :: f in e.before ==> e.before[f] == was.material[f])
    && (forall f :: f in e.after <==> f in e.changedFields)
    && (forall f :: f in e.after ==> e.after[f] == now.material[f])
  }

  lemma CookieFieldsAreDistinct(i: nat, j: nat)
    requires i < j < 5
    ensures FieldsOf(Cookie)[i] != FieldsOf(Cookie)[j]
  {
    var fields := FieldsOf(Cookie);
    assert fields[0][..2] == "se" && fields[1][..2] == "ht" && fields[2][..2] == "sa" && fields[3][..2] == "th" && fields[4][..2] == "pe";
  }

  lemma TechnologyFieldsAreDistinct(i: nat, j: nat)
    requires i < j < 4
    ensures FieldsOf(Technology)[i] != FieldsOf(Technology)[j]
  {
    var fields := FieldsOf(Technology);
    assert fields[0][1] == 'a' && fields[1][1] == 'o' && fields[2][1] == 'r' && fields[3][1] == 'e';
  }

  lemma FieldsAreDistinct(k: Kind, f: string)
    ensures multiset(FieldsOf(k))[f] <= 1
  {
    var fields := FieldsOf(k);
    forall i, j | 0 <= i < j < |fields| ensures fields[i] != fields[j] {
      match k
      case Cookie => CookieFieldsAreDistinct(i, j);
      case Script => assert fields[0][0] == 't' && fields[1][0] == 'h';
      case Technology => TechnologyFieldsAreDistinct(i, j);
      case _ =>
    }
    DistinctCounts(fields, f);
  }

  lemma ChangedFieldsAre(k: Kind, was: Material, now: Material)
    ensures var fields := ChangedFields(k, was, now);
            && (forall f :: f in fields <==> FieldDiffers(k, was, now, f))
            && (forall f :: multiset(fields)[f] <= 1) && Sorted(fields, Leq)
  {
    var differs := (f: string) => Differs(was, now, f);
    var some := Filter(FieldsOf(k), differs);
    LeqOrders();
    SortSorts(some, Leq);
    FilterMultiset(FieldsOf(k), differs);
    forall f: string
      ensures f in ChangedFields(k, was, now) <==> FieldDiffers(k, was, now, f)
      ensures multiset(ChangedFields(k, was, now))[f] <= 1
    {
      FilterMember(FieldsOf(k), differs, f);
      FieldsAreDistinct(k, f);
    }
  }

  lemma ComparedReads(k: Kind, key: string, was: Item, now: Item)
    ensures ReadsAsCompared(k, was, now, EntryFor(k, key, Some(was), Some(now)))
  {
    ChangedFieldsAre(k, was.material, now.material);
    var fields := ChangedFields(k, was.material, now.material);
    if fields != [] {
      assert FieldDiffers(k, was.material, now.material, fields[0]);
    }
  }

  /** The entry of a key, by the first item either scan has under it. */
  lemma EntryReads(k: Kind, before: seq<Item>, after: seq<Item>, e: Entry, i: nat, j: nat)
    requires e in Diff(k, before, after)
    ensures FirstUnder(k, before, i, e.fingerprint) && FirstUnder(k, after, j, e.fingerprint) ==> ReadsAsCompared(k, before[i], after[j], e)
    ensures FirstUnder(k, after, j, e.fingerprint) && e.status == New ==>
              e == Entry(k, e.fingerprint, New, after[j].title, [], map[], after[j].material)
    ensures FirstUnder(k, before, i, e.fingerprint) && e.status == Removed ==>
              e == Entry(k, e.fingerprint, Removed, before[i].title, [], before[i].material, map[])
  {
    EntryMembers(k, Indexed(k, before), Indexed(k, after), e);
    EntrySays(k, Indexed(k, before), Indexed(k, after), e.fingerprint);
    if FirstUnder(k, before, i, e.fingerprint) { IndexKeepsTheFirst(k, before, i, e.fingerprint); }
    if FirstUnder(k, after, j, e.fingerprint) { IndexKeepsTheFirst(k, after, j, e.fingerprint); }
    if FirstUnder(k, before, i, e.fingerprint) && FirstUnder(k, after, j, e.fingerprint) {
      ComparedReads(k, e.fingerprint, before[i], after[j]);
    }
  }

  // ---- Counting -------------------------------------------------------------

  datatype Counts = Counts(added: nat, removed: nat, changed: nat, same: nat)

  function CountOf(entries: seq<Entry>, status: Status): nat {
    if entries == [] then 0
    else CountOf(entries[..|entries| - 1], status) + if entries[|entries| - 1].status == status then 1 else 0
  }

  method Tally(entries: seq<Entry>) returns (counts: Counts)
    ensures counts == Counts(CountOf(entries, New), CountOf(entries, Removed), CountOf(entries, Changed), CountOf(entries, Unchanged))
    ensures counts.added + counts.removed + counts.changed + counts.same == |entries|
  {
    counts := Counts(0, 0, 0, 0);
    for i := 0 to |entries|
      invariant counts == Counts(CountOf(entries[..i], New), CountOf(entries[..i], Removed),
                                 CountOf(entries[..i], Changed), CountOf(entries[..i], Unchanged))
      invariant counts.added + counts.removed + counts.changed + counts.same == i
    {
      assert entries[..i + 1][..i] == entries[..i];
      match entries[i].status {
        case New => counts := counts.(added := counts.added + 1);
        case Removed => counts := counts.(removed := counts.removed + 1);
        case Changed => counts := counts.(changed := counts.changed + 1);
        case Unchanged => counts := counts.(same := counts.same + 1);
      }
    }
    assert entries[..|entries|] == entries;
  }

  function KeysWith(entries: seq<Entry>, status: Status): set<string> {
    set e | e in entries && e.status == status :: e.fingerprint
  }

  lemma LastDiffers(entries: seq<Entry>)
    requires entries != [] && DistinctFingerprints(entries)
    ensures DistinctFingerprints(entries[..|entries| - 1])
    ensures forall e :: e in entries[..|entries| - 1] ==> e.fingerprint != entries[|entries| - 1].fingerprint
  {
    var rest := entries[..|entries| - 1];
    forall e | e in rest ensures e.fingerprint != entries[|entries| - 1].fingerprint {
      var i := IndexOf(rest, e);
      assert entries[i] == e;
    }
  }

  lemma KeysWithStep(rest: seq<Entry>, last: Entry, status: Status)
    ensures KeysWith(rest + [last], status) == KeysWith(rest, status) + if last.status == status then {last.fingerprint} else {}
  {
    forall e ensures e in rest + [last] <==> e in rest || e == last {
    }
  }

  /** With one entry per fingerprint, counting entries is counting fingerprints. */
  lemma {:induction false} CountIsSize(entries: seq<Entry>, status: Status)
    requires DistinctFingerprints(entries)
    ensures CountOf(entries, status) == |KeysWith(entries, status)|
  {
    if entries != [] {
      var rest, last := entries[..|entries| - 1], entries[|entries| - 1];
      LastDiffers(entries);
      CountIsSize(rest, status);
      KeysWithStep(rest, last, status);
      assert entries == rest + [last];
      assert last.fingerprint !in KeysWith(rest, status);
    }
  }

  lemma KeyHasStatus(k: Kind, previous: Index, current: Index, entries: seq<Entry>, key: string, status: Status)
    requires previous.Valid() && current.Valid() && entries == Entries(k, previous, current)
    ensures key in KeysWith(entries, status) <==> Known(previous, current, key) && EntryAt(k, previous, current, key).status == status
  {
    var e := EntryAt(k, previous, current, key);
    EntrySays(k, previous, current, key);
    EntryMembers(k, previous, current, e);
    if key in KeysWith(entries, status) {
      var d :| d in entries && d.status == status && d.fingerprint == key;
      EntryMembers(k, previous, current, d);
    }
  }

  lemma KeyByStatus(k: Kind, previous: Index, current: Index, entries: seq<Entry>, key: string)
    requires previous.Valid() && current.Valid() && entries == Entries(k, previous, current)
    ensures key in KeysWith(entries, New) <==> key in current.table && key !in previous.table
    ensures key in KeysWith(entries, Removed) <==> key in previous.table && key !in current.table
    ensures key in KeysWith(entries, Changed) || key in KeysWith(entries, Unchanged) <==> key in previous.table && key in current.table
    ensures !(key in KeysWith(entries, Changed) && key in KeysWith(entries, Unchanged))
  {
    EntrySays(k, previous, current, key);
    KeyHasStatus(k, previous, current, entries, key, New);
    KeyHasStatus(k, previous, current, entries, key, Removed);
    KeyHasStatus(k, previous, current, entries, key, Changed);
    KeyHasStatus(k, previous, current, entries, key, Unchanged);
  }

  /** The fingerprints of each status, read off the two indexes. */
  lemma KeysByStatus(k: Kind, previous: Index, current: Index)
    requires previous.Valid() && current.Valid()
    ensures var entries := Entries(k, previous, current);
            && KeysWith(entries, New) == current.table.Keys - previous.table.Keys
            && KeysWith(entries, Removed) == previous.table.Keys - current.table.Keys
            && KeysWith(entries, Changed) + KeysWith(entries, Unchanged) == previous.table.Keys * current.table.Keys
            && KeysWith(entries, Changed) !! KeysWith(entries, Unchanged)
  {
    var entries := Entries(k, previous, current);
    forall key: string
      ensures key in KeysWith(entries, New) <==> key in current.table && key !in previous.table
      ensures key in KeysWith(entries, Removed) <==> key in previous.table && key !in current.table
      ensures key in KeysWith(entries, Changed) || key in KeysWith(entries, Unchanged) <==> key in previous.table && key in current.table
      ensures !(key in KeysWith(entries, Changed) && key in KeysWith(entries, Unchanged))
    {
      KeyByStatus(k, previous, current, entries, key);
    }
  }

  /** How many identities a collection has. */
  function Identities(k: Kind, items: seq<Item>): set<string> {
    set x | x in items :: Fingerprint(k, x.identity)
  }

  /** New, changed and unchanged count what the later scan saw; removed, changed and unchanged what the earlier one did. */
  lemma CountsAddUp(k: Kind, before: seq<Item>, after: seq<Item>)
    ensures var d := Diff(k, before, after);
            && CountOf(d, New) + CountOf(d, Changed) + CountOf(d, Unchanged) == |Identities(k, after)|
            && CountOf(d, Removed) + CountOf(d, Changed) + CountOf(d, Unchanged) == |Identities(k, before)|
  {
    IdentitiesAreIndexed(k, before);
    IdentitiesAreIndexed(k, after);
    CountsOfIndexes(k, Indexed(k, before), Indexed(k, after));
  }

  lemma CountsOfIndexes(k: Kind, previous: Index, current: Index)
    requires previous.Valid() && current.Valid()
    ensures var d := Entries(k, previous, current);
            && CountOf(d, New) + CountOf(d, Changed) + CountOf(d, Unchanged) == |current.table.Keys|
            && CountOf(d, Removed) + CountOf(d, Changed) + CountOf(d, Unchanged) == |previous.table.Keys|
  {
    EntriesDistinct(k, previous, current);
    KeysByStatus(k, previous, current);
    CountsFromKeys(Entries(k, previous, current), previous.table.Keys, current.table.Keys);
  }

  lemma CountsFromKeys(d: seq<Entry>, earlier: set<string>, later: set<string>)
    requires DistinctFingerprints(d)
    requires KeysWith(d, New) == later - earlier && KeysWith(d, Removed) == earlier - later
    requires KeysWith(d, Changed) + KeysWith(d, Unchanged) == earlier * later && KeysWith(d, Changed) !! KeysWith(d, Unchanged)
    ensures CountOf(d, New) + CountOf(d, Changed) + CountOf(d, Unchanged) == |later|
    ensures CountOf(d, Removed) + CountOf(d, Changed) + CountOf(d, Unchanged) == |earlier|
  {
    CountIsSize(d, New);
    CountIsSize(d, Removed);
    CountIsSize(d, Changed);
    CountIsSize(d, Unchanged);
    PartsOfBoth(earlier, later, KeysWith(d, New), KeysWith(d, Removed), KeysWith(d, Changed), KeysWith(d, Unchanged));
  }

  lemma PartsOfBoth(earlier: set<string>, later: set<string>, added: set<string>, removed: set<string>, changed: set<string>, same: set<string>)
    requires added == later - earlier && removed == earlier - later
    requires changed + same == earlier * later && changed !! same
    ensures |later| == |added| + |changed| + |same|
    ensures |earlier| == |removed| + |changed| + |same|
  {
    assert later * earlier == earlier * later;
    OnlyAndShared(later, earlier, added, changed, same);
    OnlyAndShared(earlier, later, removed, changed, same);
  }

  lemma OnlyAndShared(whole: set<string>, other: set<string>, only: set<string>, changed: set<string>, same: set<string>)
    requires only == whole - other && changed + same == whole * other && changed !! same
    ensures |whole| == |only| + |changed| + |same|
  {
    assert whole == only + (changed + same);
    ThreeParts(whole, only, changed, same);
  }

  lemma ThreeParts(whole: set<string>, a: set<string>, b: set<string>, c: set<string>)
    requires whole == a + (b + c) && a !! (b + c) && b !! c
    ensures |whole| == |a| + |b| + |c|
  {
    assert |b + c| == |b| + |c|;
  }

  lemma IdentitiesAreIndexed(k: Kind, items: seq<Item>)
    ensures Identities(k, items) == Indexed(k, items).table.Keys
  {
    IndexedMembers(k, items);
  }

  // ---- Swapping the scans ---------------------------------------------------

  function Mirrored(status: Status): Status {
    match status
    case New => Removed case Removed => New case Changed => Changed case Unchanged => Unchanged
  }

  lemma ChangedFieldsMirror(k: Kind, o: Material, n: Material)
    requires forall f :: f in o <==> f in n
    ensures ChangedFields(k, o, n) == ChangedFields(k, n, o)
  {
    FilterSame(FieldsOf(k), (f: string) => Differs(o, n, f), (f: string) => Differs(n, o, f));
  }

  predicate SameFields(o: Option<Item>, n: Option<Item>) {
    o.Some? && n.Some? ==> o.value.material.Keys == n.value.material.Keys
  }

  predicate Mirrors(e: Entry, m: Entry) {
    m == e.(status := Mirrored(e.status), before := e.after, after := e.before, title := m.title)
  }

  lemma BothMirror(k: Kind, key: string, o: Item, n: Item)
    requires o.material.Keys == n.material.Keys
    ensures Mirrors(EntryFor(k, key, Some(o), Some(n)), EntryFor(k, key, Some(n), Some(o)))
  {
    ChangedFieldsMirror(k, o.material, n.material);
    ComparedMirrors(k, key, o, n, ChangedFields(k, o.material, n.material));
  }

  lemma ComparedMirrors(k: Kind, key: string, o: Item, n: Item, fields: seq<string>)
    ensures Mirrors(Compared(k, key, o, n, fields), Compared(k, key, n, o, fields))
  {
  }

  lemma EntriesMirror(k: Kind, key: string, o: Option<Item>, n: Option<Item>)
    requires (o.Some? || n.Some?) && SameFields(o, n)
    ensures Mirrors(EntryFor(k, key, o, n), EntryFor(k, key, n, o))
  {
    match (o, n)
    case (Some(x), Some(y)) => BothMirror(k, key, x, y);
    case (Some(x), None) =>
    case (None, _) =>
  }

  lemma ShapedSameFields(k: Kind, before: seq<Item>, after: seq<Item>, key: string)
    requires Shaped(k, before) && Shaped(k, after)
    ensures SameFields(Get(Indexed(k, before), key), Get(Indexed(k, after), key))
  {
    IndexedMembers(k, before);
    IndexedMembers(k, after);
    var o, n := Get(Indexed(k, before), key), Get(Indexed(k, after), key);
    if o.Some? && n.Some? {
      assert o.value in before && n.value in after;
      forall f: string ensures f in o.value.material <==> f in n.value.material {
        assert f in o.value.material <==> f in FieldsOf(k);
        assert f in n.value.material <==> f in FieldsOf(k);
      }
      assert o.value.material.Keys == n.value.material.Keys;
    }
  }

  /** Comparing the other way round turns each entry about: new for removed, before for after. */
  lemma SwapMirrors(k: Kind, before: seq<Item>, after: seq<Item>, e: Entry)
    requires Shaped(k, before) && Shaped(k, after) && e in Diff(k, before, after)
    ensures exists m :: m in Diff(k, after, before) && Mirrors(e, m)
  {
    var previous, current := Indexed(k, before), Indexed(k, after);
    EntryMembers(k, previous, current, e);
    ShapedSameFields(k, before, after, e.fingerprint);
    EntriesMirror(k, e.fingerprint, Get(previous, e.fingerprint), Get(current, e.fingerprint));
    var m := EntryAt(k, current, previous, e.fingerprint);
    EntrySays(k, current, previous, e.fingerprint);
    EntryMembers(k, current, previous, m);
  }

  // ---- The diff as a patch --------------------------------------------------

  function Materials(index: Index): map<string, Material> {
    map key | key in index.table :: index.table[key].material
  }

  function Apply(e: Entry, m: map<string, Material>): map<string, Material> {
    match e.status
    case New => m[e.fingerprint := e.after]
    case Removed => m - {e.fingerprint}
    case Unchanged => m
    case Changed => if e.fingerprint in m then m[e.fingerprint := m[e.fingerprint] + e.after] else m
  }

  function Patch(entries: seq<Entry>, m: map<string, Material>): map<string, Material> {
    if entries == [] then m else Apply(entries[|entries| - 1], Patch(entries[..|entries| - 1], m))
  }

  function At(m: map<string, Material>, key: string): Option<Material> {
    if key in m then Some(m[key]) else None
  }

  lemma ApplyIsLocal(e: Entry, m: map<string, Material>, n: map<string, Material>, key: string)
    ensures key != e.fingerprint ==> At(Apply(e, m), key) == At(m, key)
    ensures At(m, e.fingerprint) == At(n, e.fingerprint) ==> At(Apply(e, m), e.fingerprint) == At(Apply(e, n), e.fingerprint)
  {
  }

  lemma {:induction false} PatchElsewhere(entries: seq<Entry>, m: map<string, Material>, key: string)
    requires forall e :: e in entries ==> e.fingerprint != key
    ensures At(Patch(entries, m), key) == At(m, key)
  {
    if entries != [] {
      var rest, last := entries[..|entries| - 1], entries[|entries| - 1];
      assert last in entries;
      PatchElsewhere(rest, m, key);
      ApplyIsLocal(last, Patch(rest, m), m, key);
    }
  }

  /** What a patch leaves at a fingerprint is what its one entry makes of what was there. */
  lemma {:induction false} PatchAt(entries: seq<Entry>, m: map<string, Material>, e: Entry)
    requires DistinctFingerprints(entries) && e in entries
    ensures At(Patch(entries, m), e.fingerprint) == At(Apply(e, m), e.fingerprint)
  {
    var rest, last := entries[..|entries| - 1], entries[|entries| - 1];
    LastDiffers(entries);
    assert entries == rest + [last];
    ApplyIsLocal(last, Patch(rest, m), m, e.fingerprint);
    if e in rest {
      PatchAt(rest, m, e);
    } else {
      PatchElsewhere(rest, m, e.fingerprint);
    }
  }

  lemma ChangedFieldsMembers(k: Kind, o: Material, n: Material)
    ensures forall f :: f in ChangedFields(k, o, n) <==> f in FieldsOf(k) && Differs(o, n, f)
  {
    var differs := (f: string) => Differs(o, n, f);
    LeqOrders();
    SortSorts(Filter(FieldsOf(k), differs), Leq);
    forall f: string ensures f in ChangedFields(k, o, n) <==> f in FieldsOf(k) && Differs(o, n, f) {
      FilterMember(FieldsOf(k), differs, f);
    }
  }

  /** Overwriting the changed fields turns the earlier material into the later one. */
  lemma ChangedFieldsSuffice(k: Kind, o: Material, n: Material)
    requires forall f :: f in o <==> f in FieldsOf(k)
    requires forall f :: f in n <==> f in FieldsOf(k)
    ensures o + Picked(n, ChangedFields(k, o, n)) == n
    ensures ChangedFields(k, o, n) == [] <==> o == n
  {
    ChangedFieldsMembers(k, o, n);
    PickedSuffices(o, n, FieldsOf(k), ChangedFields(k, o, n));
  }

  lemma PickedSuffices(o: Material, n: Material, all: seq<string>, fields: seq<string>)
    requires forall f :: f in o <==> f in all
    requires forall f :: f in n <==> f in all
    requires forall f :: f in fields <==> f in all && Differs(o, n, f)
    ensures o + Picked(n, fields) == n
    ensures fields == [] <==> o == n
  {
    forall f | f in n && f !in fields ensures o[f] == n[f] {
      assert f in all && !Differs(o, n, f);
    }
    if fields != [] {
      assert fields[0] in fields;
    } else {
      assert o.Keys == n.Keys;
    }
  }

  /** Applying the entries to what the earlier scan saw gives exactly what the later one saw. */
  lemma DiffIsAPatch(k: Kind, before: seq<Item>, after: seq<Item>)
    requires Shaped(k, before) && Shaped(k, after)
    ensures Patch(Diff(k, before, after), Materials(Indexed(k, before))) == Materials(Indexed(k, after))
  {
    var previous, current := Indexed(k, before), Indexed(k, after);
    forall key: string ensures At(Patch(Diff(k, before, after), Materials(previous)), key) == At(Materials(current), key) {
      PatchedKey(k, before, after, key);
    }
    SameMaps(Patch(Diff(k, before, after), Materials(previous)), Materials(current));
  }

  lemma SameMaps(a: map<string, Material>, b: map<string, Material>)
    requires forall key: string :: At(a, key) == At(b, key)
    ensures a == b
  {
    forall key: string ensures key in a <==> key in b {
      assert At(a, key) == At(b, key);
    }
    forall key | key in a ensures a[key] == b[key] {
      assert At(a, key) == At(b, key);
    }
  }

  lemma PatchedKey(k: Kind, before: seq<Item>, after: seq<Item>, key: string)
    requires Shaped(k, before) && Shaped(k, after)
    ensures At(Patch(Diff(k, before, after), Materials(Indexed(k, before))), key) == At(Materials(Indexed(k, after)), key)
  {
    var previous, current := Indexed(k, before), Indexed(k, after);
    if Known(previous, current, key) {
      var e := EntryAt(k, previous, current, key);
      EntrySays(k, previous, current, key);
      EntryMembers(k, previous, current, e);
      EntriesDistinct(k, previous, current);
      PatchAt(Diff(k, before, after), Materials(previous), e);
      EntryBringsAfter(k, before, after, key);
    } else {
      forall e | e in Diff(k, before, after) ensures e.fingerprint != key {
        EntryMembers(k, previous, current, e);
      }
      PatchElsewhere(Diff(k, before, after), Materials(previous), key);
    }
  }

  lemma EntryBringsAfter(k: Kind, before: seq<Item>, after: seq<Item>, key: string)
    requires Shaped(k, before) && Shaped(k, after) && Known(Indexed(k, before), Indexed(k, after), key)
    ensures var previous, current := Indexed(k, before), Indexed(k, after);
            At(Apply(EntryAt(k, previous, current, key), Materials(previous)), key) == At(Materials(current), key)
  {
    var previous, current := Indexed(k, before), Indexed(k, after);
    IndexedMembers(k, before);
    IndexedMembers(k, after);
    if key in previous.table && key in current.table {
      assert previous.table[key] in before && current.table[key] in after;
      ChangeBringsAfter(k, key, previous.table[key], current.table[key], Materials(previous));
    } else {
      OneSidedBringsAfter(k, key, Get(previous, key), Get(current, key), Materials(previous));
    }
  }

  lemma ChangeBringsAfter(k: Kind, key: string, o: Item, n: Item, m: map<string, Material>)
    requires key in m && m[key] == o.material
    requires forall f :: f in o.material <==> f in FieldsOf(k)
    requires forall f :: f in n.material <==> f in FieldsOf(k)
    ensures At(Apply(EntryFor(k, key, Some(o), Some(n)), m), key) == Some(n.material)
  {
    ChangedFieldsSuffice(k, o.material, n.material);
    ComparedBringsAfter(k, key, o, n, ChangedFields(k, o.material, n.material), m);
  }

  lemma ComparedBringsAfter(k: Kind, key: string, o: Item, n: Item, fields: seq<string>, m: map<string, Material>)
    requires key in m && m[key] == o.material
    requires o.material + Picked(n.material, fields) == n.material && (fields == [] ==> o.material == n.material)
    ensures At(Apply(Compared(k, key, o, n, fields), m), key) == Some(n.material)
  {
  }

  lemma OneSidedBringsAfter(k: Kind, key: string, o: Option<Item>, n: Option<Item>, m: map<string, Material>)
    requires o.Some? != n.Some?
    ensures At(Apply(EntryFor(k, key, o, n), m), key) == if n.Some? then Some(n.value.material) else None
  {
  }
}
