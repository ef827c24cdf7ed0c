/** Effective consent: the decision in force per purpose. */
module EffectiveConsent {
  // It is derived from an append-only log, in two ways that must agree.

  import opened Text
  import opened Sequences
  import opened InsertionMaps

  datatype Status = GRANTED | DENIED | WITHDRAWN

  datatype Record = Record(id: string, siteId: string, principalId: string, purposeId: string, purposeCode: string,
                           status: Status, decidedAt: int, recordedAt: int)

  datatype Effective = Effective(purposeCode: string, status: Status, decidedAt: int, recordId: string)

  function EffectiveOf(r: Record): Effective {
    Effective(r.purposeCode, r.status, r.decidedAt, r.id)
  }

  // ---- Precedence -----------------------------------------------------------

  /** `comparePrecedence(a, b) > 0`: decision time, then storage time, then id. */
  predicate Outranks(a: Record, b: Record) {
    if a.decidedAt != b.decidedAt then a.decidedAt > b.decidedAt
    else if a.recordedAt != b.recordedAt then a.recordedAt > b.recordedAt
    else Less(b.id, a.id)
  }

  /** The order the database returns a log in. */
  predicate Precedes(a: Record, b: Record) {
    || a.decidedAt < b.decidedAt
    || (a.decidedAt == b.decidedAt && a.recordedAt < b.recordedAt)
    || (a.decidedAt == b.decidedAt && a.recordedAt == b.recordedAt && Leq(a.id, b.id))
  }

  lemma PrecedenceOrders()
    ensures TotalPreorder(Precedes)
    ensures forall a, b :: Outranks(a, b) <==> !Precedes(a, b)
    ensures forall a, b :: Precedes(a, b) && Precedes(b, a) ==> a.id == b.id
  {
    LeqOrders();
  }

  predicate DistinctIds(log: seq<Record>) {
    forall r, s :: r in log && s in log && r.id == s.id ==> r == s
  }

  /** `r` is the greatest record of its purpose in the log. */
  predicate Greatest(log: seq<Record>, r: Record) {
    r in log && forall s :: s in log && s.purposeCode == r.purposeCode ==> Precedes(s, r)
  }

  // ---- Resolution -----------------------------------------------------------

  /** What the map of latest records holds for one purpose after the whole log. */
  function InForce(log: seq<Record>, purpose: string): Option<Record> {
    if log == [] then None
    else
      var last := log[|log| - 1];
      var before := InForce(log[..|log| - 1], purpose);
      if last.purposeCode == purpose && (before.None? || Outranks(last, before.value)) then Some(last) else before
  }

  predicate ByPurpose(a: Record, b: Record) {
    Leq(a.purposeCode, b.purposeCode)
  }

  /** One entry per purpose decided, in purpose order, each the decision in force. */
  ghost predicate Resolves(log: seq<Record>, effective: seq<Effective>) {
    && (forall e :: e in effective <==> InForce(log, e.purposeCode).Some? && e == EffectiveOf(InForce(log, e.purposeCode).value))
    && (forall i, j :: 0 <= i < j < |effective| ==> Less(effective[i].purposeCode, effective[j].purposeCode))
  }

  /** The records held in the map, in the order their purposes first appeared. */
  function Held(latest: Dict<string, Record>): (r: seq<Record>)
    requires latest.Valid()
  {
    seq(|latest.keys|, i requires 0 <= i < |latest.keys| => assert latest.keys[i] in latest.keys; latest.table[latest.keys[i]])
  }

  method ResolveEffectiveConsent(log: seq<Record>) returns (effective: seq<Effective>)
    ensures Resolves(log, effective)
  {
    var latest: Dict<string, Record> := Empty();
    for i := 0 to |log|
      invariant latest.Valid()
      invariant forall p :: InForce(log[..i], p) == if p in latest.table then Some(latest.table[p]) else None
    {
      var record := log[i];
      assert log[..i + 1][..i] == log[..i];
      if record.purposeCode !in latest.table || Outranks(record, latest.table[record.purposeCode]) {
        latest := latest.Put(record.purposeCode, record);
      }
    }
    assert log[..|log|] == log;
    forall p | p in latest.table ensures latest.table[p].purposeCode == p {
      InForceIsGreatest(log, p);
      assert InForce(log, p) == Some(latest.table[p]);
    }
    effective := Map(Sort(Held(latest), ByPurpose), EffectiveOf);
    SortedEntries(log, latest);
  }

  /** The map holds exactly the record in force for each purpose. */
  ghost predicate HoldsInForce(log: seq<Record>, latest: Dict<string, Record>) {
    && latest.Valid()
    && (forall p :: InForce(log, p) == if p in latest.table then Some(latest.table[p]) else None)
    && (forall p :: p in latest.table ==> latest.table[p].purposeCode == p)
  }

  lemma SortedEntries(log: seq<Record>, latest: Dict<string, Record>)
    requires HoldsInForce(log, latest)
    ensures Resolves(log, Map(Sort(Held(latest), ByPurpose), EffectiveOf))
  {
    var sorted := Sort(Held(latest), ByPurpose);
    LeqOrders();
    SortSorts(Held(latest), ByPurpose);
    HeldDistinct(log, latest);
    DistinctImages(Held(latest), sorted, (r: Record) => r.purposeCode);
    var effective := Map(sorted, EffectiveOf);
    forall e ensures e in effective <==> InForce(log, e.purposeCode).Some? && e == EffectiveOf(InForce(log, e.purposeCode).value) {
      EntryIsInForce(log, latest, sorted, e);
    }
    forall i, j | 0 <= i < j < |effective| ensures Less(effective[i].purposeCode, effective[j].purposeCode) {
      assert ByPurpose(sorted[i], sorted[j]);
    }
  }

  lemma HeldDistinct(log: seq<Record>, latest: Dict<string, Record>)
    requires HoldsInForce(log, latest)
    ensures forall i, j :: 0 <= i < j < |Held(latest)| ==> Held(latest)[i].purposeCode != Held(latest)[j].purposeCode
  {
    forall i | 0 <= i < |latest.keys| ensures Held(latest)[i].purposeCode == latest.keys[i] {
      assert latest.keys[i] in latest.keys;
    }
  }

  lemma EntryIsInForce(log: seq<Record>, latest: Dict<string, Record>, sorted: seq<Record>, e: Effective)
    requires HoldsInForce(log, latest) && forall r :: r in sorted <==> r in Held(latest)
    ensures e in Map(sorted, EffectiveOf)
            <==> InForce(log, e.purposeCode).Some? && e == EffectiveOf(InForce(log, e.purposeCode).value)
  {
    if e in Map(sorted, EffectiveOf) {
      var i := IndexOf(Map(sorted, EffectiveOf), e);
      HeldIsInForce(log, latest, sorted[i]);
    }
    if InForce(log, e.purposeCode).Some? && e == EffectiveOf(InForce(log, e.purposeCode).value) {
      var r := InForce(log, e.purposeCode).value;
      InForceIsGreatest(log, e.purposeCode);
      HeldIsInForce(log, latest, r);
      var i := IndexOf(sorted, r);
      assert Map(sorted, EffectiveOf)[i] == e;
    }
  }

  lemma HeldIsInForce(log: seq<Record>, latest: Dict<string, Record>, r: Record)
    requires HoldsInForce(log, latest)
    ensures r in Held(latest) <==> InForce(log, r.purposeCode) == Some(r)
  {
    var held := Held(latest);
    if r in held {
      var k := IndexOf(held, r);
      assert latest.keys[k] in latest.keys;
    }
    if InForce(log, r.purposeCode) == Some(r) {
      assert r.purposeCode in latest.keys;
      var k := IndexOf(latest.keys, r.purposeCode);
      assert held[k] == r;
    }
  }

  /** The fold ends with the greatest record of the purpose, whatever order the log is in. */
  lemma {:induction false} InForceIsGreatest(log: seq<Record>, purpose: string)
    ensures InForce(log, purpose).None? <==> forall r :: r in log ==> r.purposeCode != purpose
    ensures InForce(log, purpose).Some? ==>
              InForce(log, purpose).value.purposeCode == purpose && Greatest(log, InForce(log, purpose).value)
  {
    if log != [] {
      var rest, last := log[..|log| - 1], log[|log| - 1];
      InForceIsGreatest(rest, purpose);
      PrecedenceOrders();
      assert log == rest + [last];
    }
  }

  /** The decision in force is the one decided last; of those decided at once the one stored last; of those the one with the greatest id. */
  lemma InForceIsLatest(log: seq<Record>, purpose: string)
    ensures InForce(log, purpose).Some? <==> exists r :: r in log && r.purposeCode == purpose
    ensures forall r, s :: InForce(log, purpose) == Some(r) && s in log && s.purposeCode == purpose ==>
              && r in log && r.purposeCode == purpose
              && s.decidedAt <= r.decidedAt
              && (s.decidedAt == r.decidedAt ==> s.recordedAt <= r.recordedAt)
              && (s.decidedAt == r.decidedAt && s.recordedAt == r.recordedAt ==> s.id == r.id || Less(s.id, r.id))
  {
    InForceIsGreatest(log, purpose);
  }

  /** With record ids unique, only one record of a purpose can be the greatest. */
  lemma GreatestIsUnique(log: seq<Record>, r: Record)
    requires DistinctIds(log) && Greatest(log, r)
    ensures InForce(log, r.purposeCode) == Some(r)
  {
    InForceIsGreatest(log, r.purposeCode);
    PrecedenceOrders();
  }

  /** Every ordering of one log resolves to the same answer. */
  lemma LogOrderIsIrrelevant(log: seq<Record>, shuffled: seq<Record>, a: seq<Effective>, b: seq<Effective>)
    requires multiset(log) == multiset(shuffled) && DistinctIds(log)
    requires Resolves(log, a) && Resolves(shuffled, b)
    ensures a == b
  {
    SameElements(log, shuffled);
    forall p ensures InForce(log, p) == InForce(shuffled, p) {
      InForceIsGreatest(log, p);
      InForceIsGreatest(shuffled, p);
      if InForce(log, p).Some? {
        GreatestIsUnique(shuffled, InForce(log, p).value);
      }
    }
    LeqOrders();
    SameAscending(a, b, EarlierPurpose);
  }

  predicate EarlierPurpose(a: Effective, b: Effective) {
    Less(a.purposeCode, b.purposeCode)
  }

  predicate Ascending(a: seq<Effective>) {
    forall i, j :: 0 <= i < j < |a| ==> Less(a[i].purposeCode, a[j].purposeCode)
  }

  lemma OnePerPurpose(effective: seq<Effective>, i: nat, k: nat)
    requires Ascending(effective) && i < |effective| && k < |effective|
    requires effective[i].purposeCode == effective[k].purposeCode
    ensures i == k
  {
    LeqOrders();
  }

  /** `isPurposeGranted`, over the resolved list. */
  method IsPurposeGranted(effective: seq<Effective>, purpose: string) returns (granted: bool)
    requires Ascending(effective)
    ensures granted <==> exists e :: e in effective && e.purposeCode == purpose && e.status == GRANTED
  {
    for i := 0 to |effective|
      invariant forall j :: 0 <= j < i ==> effective[j].purposeCode != purpose
    {
      if effective[i].purposeCode == purpose {
        granted := effective[i].status == GRANTED;
        forall e | e in effective && e.purposeCode == purpose ensures e == effective[i] {
          var k := IndexOf(effective, e);
          OnePerPurpose(effective, i, k);
        }
        return;
      }
    }
    granted := false;
  }

  /** A purpose is granted exactly when its greatest record is a grant: no decision is no permission. */
  predicate Granted(log: seq<Record>, purpose: string) {
    InForce(log, purpose).Some? && InForce(log, purpose).value.status == GRANTED
  }

  lemma GrantedIffGreatestGrants(log: seq<Record>, purpose: string)
    requires DistinctIds(log)
    ensures Granted(log, purpose)
            <==> exists r :: r in log && r.purposeCode == purpose && Greatest(log, r) && r.status == GRANTED
  {
    InForceIsGreatest(log, purpose);
    forall r | r in log && r.purposeCode == purpose && Greatest(log, r) ensures InForce(log, purpose) == Some(r) {
      GreatestIsUnique(log, r);
    }
  }

  /** What `isPurposeGranted` answers on the resolved list is what the log says. */
  lemma GrantedIffListed(log: seq<Record>, effective: seq<Effective>, purpose: string)
    requires Resolves(log, effective)
    ensures (exists e :: e in effective && e.purposeCode == purpose && e.status == GRANTED) <==> Granted(log, purpose)
  {
    InForceIsGreatest(log, purpose);
    if Granted(log, purpose) {
      assert EffectiveOf(InForce(log, purpose).value) in effective;
    }
  }

  /** Resolving a log and asking for a purpose: granted exactly when the greatest record of the purpose is a grant. */
  method PurposeGranted(log: seq<Record>, purpose: string) returns (granted: bool)
    ensures granted <==> Granted(log, purpose)
    ensures DistinctIds(log) ==>
              (granted <==> exists r :: r in log && r.purposeCode == purpose && Greatest(log, r) && r.status == GRANTED)
  {
    var effective := ResolveEffectiveConsent(log);
    GrantedIffListed(log, effective, purpose);
    granted := IsPurposeGranted(effective, purpose);
    if DistinctIds(log) {
      GrantedIffGreatestGrants(log, purpose);
    }
  }

  // ---- The overwrite fold of the experiment report --------------------------

  datatype Entry = Entry(status: Status, code: string)

  /** The entry the last row for this principal and purpose leaves behind. */
  function Overwritten(rows: seq<Record>, principal: string, purposeId: string): Option<Entry> {
    if rows == [] then None
    else
      var last := rows[|rows| - 1];
      if last.principalId == principal && last.purposeId == purposeId then Some(Entry(last.status, last.purposeCode))
      else Overwritten(rows[..|rows| - 1], principal, purposeId)
  }

  type Table = Dict<string, Dict<string, Entry>>

  /** What the table holds for a principal and a purpose. */
  function Lookup(effective: Table, q: string, p: string): Option<Entry> {
    if q in effective.table && p in effective.table[q].table then Some(effective.table[q].table[p]) else None
  }

  ghost predicate TableValid(effective: Table) {
    && effective.Valid()
    && (forall q :: q in effective.table ==> effective.table[q].Valid() && effective.table[q].keys != [])
  }

  /** The table holds, per principal and purpose, exactly what the fold leaves. */
  ghost predicate Folds(rows: seq<Record>, effective: Table) {
    TableValid(effective) && forall q, p :: Lookup(effective, q, p) == Overwritten(rows, q, p)
  }

  function Overwrite(effective: Table, row: Record): Table
    requires TableValid(effective)
  {
    var byPurpose := if row.principalId in effective.table then effective.table[row.principalId] else Empty();
    effective.Put(row.principalId, byPurpose.Put(row.purposeId, Entry(row.status, row.purposeCode)))
  }

  lemma OverwriteFolds(rows: seq<Record>, effective: Table, row: Record)
    requires Folds(rows, effective)
    ensures Folds(rows + [row], Overwrite(effective, row))
  {
    var after := Overwrite(effective, row);
    OverwriteValid(effective, row);
    assert (rows + [row])[..|rows|] == rows;
    forall q, p ensures Lookup(after, q, p) == Overwritten(rows + [row], q, p) {
      assert Lookup(effective, q, p) == Overwritten(rows, q, p);
      OverwriteLooksUp(effective, row, q, p);
    }
  }

  lemma OverwriteValid(effective: Table, row: Record)
    requires TableValid(effective)
    ensures TableValid(Overwrite(effective, row))
  {
    var after := Overwrite(effective, row);
    assert row.purposeId in after.table[row.principalId].table;
    assert row.purposeId in after.table[row.principalId].keys;
  }

  lemma OverwriteLooksUp(effective: Table, row: Record, q: string, p: string)
    requires TableValid(effective)
    ensures Lookup(Overwrite(effective, row), q, p)
            == if q == row.principalId && p == row.purposeId then Some(Entry(row.status, row.purposeCode)) else Lookup(effective, q, p)
  {
  }

  method EffectiveByPrincipal(rows: seq<Record>) returns (effective: Table)
    ensures Folds(rows, effective)
  {
    effective := Empty();
    for i := 0 to |rows|
      invariant Folds(rows[..i], effective)
    {
      var row := rows[i];
      OverwriteFolds(rows[..i], effective, row);
      assert rows[..i + 1] == rows[..i] + [row];
      var byPurpose := if row.principalId in effective.table then effective.table[row.principalId] else Empty();
      byPurpose := byPurpose.Put(row.purposeId, Entry(row.status, row.purposeCode));
      effective := effective.Put(row.principalId, byPurpose);
    }
    assert rows[..|rows|] == rows;
  }

  /** A purpose code names one purpose, as the unique index on (organisation, code) says. */
  predicate CodesAgree(log: seq<Record>) {
    forall r, s :: r in log && s in log ==> (r.purposeId == s.purposeId <==> r.purposeCode == s.purposeCode)
  }

  function OfPrincipal(log: seq<Record>, principal: string): seq<Record> {
    Filter(log, (r: Record) => r.principalId == principal)
  }

  /** The last matching row is a row of the log, and no matching row comes after it. */
  lemma {:induction false} OverwrittenIsLast(rows: seq<Record>, principal: string, purposeId: string) returns (k: nat)
    requires Overwritten(rows, principal, purposeId).Some?
    ensures k < |rows| && rows[k].principalId == principal && rows[k].purposeId == purposeId
    ensures Overwritten(rows, principal, purposeId) == Some(Entry(rows[k].status, rows[k].purposeCode))
    ensures forall j :: k < j < |rows| ==> !(rows[j].principalId == principal && rows[j].purposeId == purposeId)
  {
    var last := rows[|rows| - 1];
    if last.principalId == principal && last.purposeId == purposeId {
      k := |rows| - 1;
    } else {
      k := OverwrittenIsLast(rows[..|rows| - 1], principal, purposeId);
    }
  }

  lemma {:induction false} OverwrittenAbsent(rows: seq<Record>, principal: string, purposeId: string)
    ensures Overwritten(rows, principal, purposeId).None?
            <==> forall r :: r in rows ==> !(r.principalId == principal && r.purposeId == purposeId)
  {
    if rows != [] {
      OverwrittenAbsent(rows[..|rows| - 1], principal, purposeId);
      assert rows == rows[..|rows| - 1] + [rows[|rows| - 1]];
    }
  }

  /**
   * Overwriting row by row down the sorted log leaves, for each principal and purpose, the status
   * of the decision in force: the two ways the source derives "the latest decision" agree.
   */
  lemma OverwritingTheSortedLogIsInForce(log: seq<Record>, principal: string, record: Record)
    requires DistinctIds(log) && CodesAgree(log)
    requires record in log && record.principalId == principal
    ensures var effective := InForce(OfPrincipal(log, principal), record.purposeCode);
            && effective.Some?
            && Overwritten(Sort(log, Precedes), principal, record.purposeId)
               == Some(Entry(effective.value.status, record.purposeCode))
  {
    var rows, mine := Sort(log, Precedes), OfPrincipal(log, principal);
    PrecedenceOrders();
    SortSorts(log, Precedes);
    OverwrittenAbsent(rows, principal, record.purposeId);
    var k := OverwrittenIsLast(rows, principal, record.purposeId);
    var top := rows[k];
    assert top in log && top.purposeCode == record.purposeCode;
    MembersOfPrincipal(log, principal);
    forall s | s in mine && s.purposeCode == top.purposeCode ensures Precedes(s, top) {
      var j := IndexOf(rows, s);
      assert s.purposeId == record.purposeId;
      assert j <= k;
      if j == k { LeqTotal(s.id, s.id); }
    }
    assert DistinctIds(mine);
    GreatestIsUnique(mine, top);
  }

  lemma MembersOfPrincipal(log: seq<Record>, principal: string)
    ensures forall r :: r in OfPrincipal(log, principal) <==> r in log && r.principalId == principal
  {
    forall r ensures r in OfPrincipal(log, principal) <==> r in log && r.principalId == principal {
      FilterMember(log, (x: Record) => x.principalId == principal, r);
    }
  }

  // ---- Counting people ------------------------------------------------------

  predicate SomeStatus(rows: seq<Record>, principal: string, status: Status) {
    exists r :: r in rows && r.principalId == principal
             && Overwritten(rows, principal, r.purposeId).Some? && Overwritten(rows, principal, r.purposeId).value.status == status
  }

  predicate Accepts(rows: seq<Record>, q: string) {
    SomeStatus(rows, q, GRANTED)
  }

  predicate Refuses(rows: seq<Record>, q: string) {
    SomeStatus(rows, q, DENIED) || SomeStatus(rows, q, WITHDRAWN)
  }

  function Deciders(rows: seq<Record>): set<string> {
    set r | r in rows :: r.principalId
  }

  datatype Metrics = Metrics(accepted: nat, rejected: nat, partial: nat, withdrew: nat, deciders: nat)

  /** How many entries of one person carry one of two statuses. */
  method CountEntries(byPurpose: Dict<string, Entry>, a: Status, b: Status) returns (n: nat)
    requires byPurpose.Valid()
    ensures n > 0 <==> exists p :: p in byPurpose.table && byPurpose.table[p].status in {a, b}
  {
    n := 0;
    for i := 0 to |byPurpose.keys|
      invariant n > 0 <==> exists j :: 0 <= j < i && byPurpose.keys[j] in byPurpose.table
                                   && byPurpose.table[byPurpose.keys[j]].status in {a, b}
    {
      assert byPurpose.keys[i] in byPurpose.keys;
      if byPurpose.table[byPurpose.keys[i]].status in {a, b} {
        n := n + 1;
      }
    }
    forall p | p in byPurpose.table && byPurpose.table[p].status in {a, b} ensures n > 0 {
      var j := IndexOf(byPurpose.keys, p);
    }
  }

  lemma FoldedStatus(rows: seq<Record>, effective: Table, q: string, status: Status)
    requires Folds(rows, effective) && q in effective.table
    ensures SomeStatus(rows, q, status)
            <==> exists p :: p in effective.table[q].table && effective.table[q].table[p].status == status
  {
    if SomeStatus(rows, q, status) {
      var r :| r in rows && r.principalId == q
               && Overwritten(rows, q, r.purposeId).Some? && Overwritten(rows, q, r.purposeId).value.status == status;
      assert Lookup(effective, q, r.purposeId) == Overwritten(rows, q, r.purposeId);
    }
    if p :| p in effective.table[q].table && effective.table[q].table[p].status == status {
      assert Lookup(effective, q, p) == Overwritten(rows, q, p);
      var k := OverwrittenIsLast(rows, q, p);
      assert rows[k] in rows && rows[k].purposeId == p;
    }
  }

  lemma FoldedDeciders(rows: seq<Record>, effective: Table)
    requires Folds(rows, effective)
    ensures KeySet(effective.keys) == Deciders(rows)
  {
    forall q | q in effective.keys ensures q in Deciders(rows) {
      var p := effective.table[q].keys[0];
      assert p in effective.table[q].keys;
      assert Lookup(effective, q, p) == Overwritten(rows, q, p);
      var k := OverwrittenIsLast(rows, q, p);
      assert rows[k] in rows;
    }
    forall r | r in rows ensures r.principalId in effective.keys {
      OverwrittenAbsent(rows, r.principalId, r.purposeId);
      assert Lookup(effective, r.principalId, r.purposeId) == Overwritten(rows, r.principalId, r.purposeId);
    }
  }

  function Among(keys: seq<string>, rows: seq<Record>, wants: (seq<Record>, string) -> bool): set<string> {
    set q | q in keys && wants(rows, q)
  }

  lemma AmongStep(keys: seq<string>, i: nat, rows: seq<Record>, wants: (seq<Record>, string) -> bool)
    requires i < |keys| && forall a, b :: 0 <= a < b < |keys| ==> keys[a] != keys[b]
    ensures |Among(keys[..i + 1], rows, wants)| == |Among(keys[..i], rows, wants)| + (if wants(rows, keys[i]) then 1 else 0)
  {
    assert keys[..i + 1] == keys[..i] + [keys[i]];
    assert keys[i] !in keys[..i];
    assert Among(keys[..i + 1], rows, wants)
        == Among(keys[..i], rows, wants) + (if wants(rows, keys[i]) then {keys[i]} else {});
  }

  predicate AcceptsAll(rows: seq<Record>, q: string) { Accepts(rows, q) && !Refuses(rows, q) }

  predicate RejectsAll(rows: seq<Record>, q: string) { Refuses(rows, q) && !Accepts(rows, q) }

  predicate Splits(rows: seq<Record>, q: string) { Accepts(rows, q) && Refuses(rows, q) }

  predicate Withdraws(rows: seq<Record>, q: string) { SomeStatus(rows, q, WITHDRAWN) }

  function DecidersWho(rows: seq<Record>, wants: (seq<Record>, string) -> bool): set<string> {
    set q | q in Deciders(rows) && wants(rows, q)
  }

  /** The counters after one more person. */
  function Counted(m: Metrics, granted: bool, refused: bool, revoked: bool): Metrics {
    Metrics(m.accepted + (if granted && !refused then 1 else 0), m.rejected + (if refused && !granted then 1 else 0),
            m.partial + (if granted && refused then 1 else 0), m.withdrew + (if revoked then 1 else 0), m.deciders + 1)
  }

  function Tally(keys: seq<string>, rows: seq<Record>): Metrics {
    if keys == [] then Metrics(0, 0, 0, 0, 0)
    else
      var q := keys[|keys| - 1];
      Counted(Tally(keys[..|keys| - 1], rows), Accepts(rows, q), Refuses(rows, q), Withdraws(rows, q))
  }

  ghost predicate CountsGroups(m: Metrics, keys: seq<string>, rows: seq<Record>) {
    && m.accepted == |Among(keys, rows, AcceptsAll)| && m.rejected == |Among(keys, rows, RejectsAll)|
    && m.partial == |Among(keys, rows, Splits)| && m.withdrew == |Among(keys, rows, Withdraws)|
  }

  lemma CountedGroups(keys: seq<string>, i: nat, rows: seq<Record>, m: Metrics)
    requires i < |keys| && forall a, b :: 0 <= a < b < |keys| ==> keys[a] != keys[b]
    requires CountsGroups(m, keys[..i], rows)
    ensures CountsGroups(Counted(m, Accepts(rows, keys[i]), Refuses(rows, keys[i]), Withdraws(rows, keys[i])), keys[..i + 1], rows)
  {
    AmongStep(keys, i, rows, AcceptsAll);
    AmongStep(keys, i, rows, RejectsAll);
    AmongStep(keys, i, rows, Splits);
    AmongStep(keys, i, rows, Withdraws);
  }

  /** The counters are the sizes of the groups. */
  lemma {:induction false} TallyCounts(keys: seq<string>, n: nat, rows: seq<Record>)
    requires n <= |keys| && forall a, b :: 0 <= a < b < |keys| ==> keys[a] != keys[b]
    ensures CountsGroups(Tally(keys[..n], rows), keys[..n], rows) && Tally(keys[..n], rows).deciders == n
  {
    if n > 0 {
      TallyCounts(keys, n - 1, rows);
      assert keys[..n][..n - 1] == keys[..n - 1];
      CountedGroups(keys, n - 1, rows, Tally(keys[..n - 1], rows));
    } else {
      assert keys[..0] == [];
    }
  }

  lemma TallyAll(rows: seq<Record>, effective: Table)
    requires Folds(rows, effective)
    ensures var m := Tally(effective.keys, rows);
            && m.accepted == |DecidersWho(rows, AcceptsAll)| && m.rejected == |DecidersWho(rows, RejectsAll)|
            && m.partial == |DecidersWho(rows, Splits)| && m.withdrew == |DecidersWho(rows, Withdraws)|
            && m.deciders == |Deciders(rows)|
  {
    var keys := effective.keys;
    FoldedDeciders(rows, effective);
    PrefixSize(keys, |keys|);
    TallyCounts(keys, |keys|, rows);
    assert keys[..|keys|] == keys;
    AmongAll(keys, rows, AcceptsAll);
    AmongAll(keys, rows, RejectsAll);
    AmongAll(keys, rows, Splits);
    AmongAll(keys, rows, Withdraws);
  }

  method Classify(rows: seq<Record>, effective: Table, i: nat) returns (granted: bool, refused: bool, revoked: bool)
    requires Folds(rows, effective) && i < |effective.keys|
    ensures var q := effective.keys[i];
            granted == Accepts(rows, q) && refused == Refuses(rows, q) && revoked == Withdraws(rows, q)
    ensures granted || refused
  {
    var q := effective.keys[i];
    assert q in effective.keys;
    var g := CountEntries(effective.table[q], GRANTED, GRANTED);
    var r := CountEntries(effective.table[q], DENIED, WITHDRAWN);
    var w := CountEntries(effective.table[q], WITHDRAWN, WITHDRAWN);
    granted, refused, revoked := g > 0, r > 0, w > 0;
    Classified(rows, effective, q, granted, refused, revoked);
  }

  method CountPerson(m: Metrics, granted: bool, refused: bool, revoked: bool) returns (n: Metrics)
    ensures n == Counted(m, granted, refused, revoked)
  {
    n := m.(deciders := m.deciders + 1);
    if revoked { n := n.(withdrew := n.withdrew + 1); }
    if granted && refused { n := n.(partial := n.partial + 1); }
    else if granted { n := n.(accepted := n.accepted + 1); }
    else if refused { n := n.(rejected := n.rejected + 1); }
  }

  method CountPeople(rows: seq<Record>, effective: Table) returns (m: Metrics)
    requires Folds(rows, effective)
    ensures m == Tally(effective.keys, rows)
    ensures m.accepted + m.rejected + m.partial == m.deciders
  {
    m := Metrics(0, 0, 0, 0, 0);
    for i := 0 to |effective.keys|
      invariant m == Tally(effective.keys[..i], rows)
      invariant m.accepted + m.rejected + m.partial == m.deciders
    {
      var granted, refused, revoked := Classify(rows, effective, i);
      assert effective.keys[..i + 1][..i] == effective.keys[..i];
      m := CountPerson(m, granted, refused, revoked);
    }
    assert effective.keys[..|effective.keys|] == effective.keys;
  }

  /** Each person falls in exactly one of the three groups, and the counts say how many do. */
  method MetricsFor(rows: seq<Record>) returns (m: Metrics)
    ensures m.accepted == |DecidersWho(rows, AcceptsAll)|
    ensures m.rejected == |DecidersWho(rows, RejectsAll)|
    ensures m.partial == |DecidersWho(rows, Splits)|
    ensures m.withdrew == |DecidersWho(rows, Withdraws)|
    ensures m.accepted + m.rejected + m.partial == m.deciders == |Deciders(rows)|
  {
    var effective := EffectiveByPrincipal(rows);
    m := CountPeople(rows, effective);
    TallyAll(rows, effective);
  }

  lemma AmongAll(keys: seq<string>, rows: seq<Record>, wants: (seq<Record>, string) -> bool)
    requires KeySet(keys) == Deciders(rows)
    ensures Among(keys, rows, wants) == DecidersWho(rows, wants)
  {
    forall q ensures q in keys <==> q in Deciders(rows) {
      assert q in KeySet(keys) <==> q in keys;
    }
  }

  lemma Classified(rows: seq<Record>, effective: Table, q: string, granted: bool, refused: bool, revoked: bool)
    requires Folds(rows, effective) && q in effective.table
    requires granted <==> exists p :: p in effective.table[q].table && effective.table[q].table[p].status in {GRANTED, GRANTED}
    requires refused <==> exists p :: p in effective.table[q].table && effective.table[q].table[p].status in {DENIED, WITHDRAWN}
    requires revoked <==> exists p :: p in effective.table[q].table && effective.table[q].table[p].status in {WITHDRAWN, WITHDRAWN}
    ensures granted == Accepts(rows, q) && refused == Refuses(rows, q) && revoked == Withdraws(rows, q)
    ensures granted || refused
  {
    FoldedStatus(rows, effective, q, GRANTED);
    FoldedStatus(rows, effective, q, DENIED);
    FoldedStatus(rows, effective, q, WITHDRAWN);
    var p := effective.table[q].keys[0];
    assert p in effective.table[q].keys;
    var e := effective.table[q].table[p];
    assert e.status in {GRANTED, GRANTED} || e.status in {DENIED, WITHDRAWN};
  }
}
