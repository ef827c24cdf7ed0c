/** Recording consent decisions while writers race. */
module ConsentLedger {
  // Principal creation, the chain read, the insert under the unique index on (site, principal,
  // sequence), and the retry. Each database round trip is one step, and the steps of any number
  // of calls interleave in any order.

  import opened Text
  import opened ConsentProof

  const MAX_ATTEMPTS: nat := 12

  datatype Decision = Decision(
    siteId: string, principalExternalId: string, purposeCode: string, status: string, decidedAt: int,
    noticeId: Option<string>, policyVersionId: Option<string>, policyConfigVersion: Option<string>,
    jurisdictions: seq<string>, vendors: seq<string>, mechanism: Option<string>, source: string,
    experimentId: Option<string>, variantKey: Option<string>, key: Option<SigningKey>)

  function EvidenceOf(d: Decision): Evidence {
    Evidence(d.siteId, d.principalExternalId, d.purposeCode, d.status, d.decidedAt, d.noticeId,
             d.policyVersionId, d.policyConfigVersion, d.jurisdictions, d.vendors, d.mechanism, d.source)
  }

  /** The facts stated when the proof is built; the receipt digest is filled in by `BuildProof`. */
  function StatedFacts(d: Decision, recordId: string, sequence: nat, previous: Option<string>): Facts {
    Facts(recordId, d.siteId, d.principalExternalId, d.purposeCode, d.status, d.decidedAt,
          d.policyVersionId, d.policyConfigVersion, d.jurisdictions, "", sequence, previous,
          d.experimentId, d.variantKey)
  }

  /** The row an attempt tries to insert. */
  function MakeRow(p: Primitives, d: Decision, recordId: string, principalId: string,
                   sequence: nat, previous: Option<string>): Row {
    var signed := BuildProof(p, StatedFacts(d, recordId, sequence, previous), EvidenceOf(d), d.key);
    Row(recordId, d.siteId, principalId, d.principalExternalId, d.purposeCode, d.status, d.decidedAt,
        d.noticeId, d.policyVersionId, d.policyConfigVersion, d.jurisdictions, d.vendors, d.mechanism,
        d.source, Some(ProofHash(p, EvidenceOf(d))),
        (match signed.signature case None => None case Some(sig) => Some(sig.value)),
        (match signed.signature case None => None case Some(sig) => Some(sig.keyId)),
        Some(signed.proofHash), signed.facts.previousProofHash, Some(sequence), Some(PROOF_VERSION),
        d.experimentId, d.variantKey)
  }

  /** What is inserted is what verification later reassembles. */
  lemma MadeRowIsWrittenWell(p: Primitives, d: Decision, recordId: string, principalId: string,
                             sequence: nat, previous: Option<string>)
    requires sequence >= 1
    ensures WrittenWell(p, MakeRow(p, d, recordId, principalId, sequence, previous))
  {
    var row := MakeRow(p, d, recordId, principalId, sequence, previous);
    assert EvidenceFor(row) == EvidenceOf(d);
    assert FactsFor(row) == BuildProof(p, StatedFacts(d, recordId, sequence, previous), EvidenceOf(d), d.key).facts;
  }

  // ---- The chain read -------------------------------------------------------

  predicate InChain(r: Row, site: string, principal: string) {
    r.siteId == site && r.principalId == principal && r.proofSequence.Some?
  }

  /** The row with the highest sequence of one chain. */
  function Latest(table: seq<Row>, site: string, principal: string): (r: Option<Row>)
    ensures r.Some? ==> InChain(r.value, site, principal)
  {
    if table == [] then None
    else
      var rest := Latest(table[1..], site, principal);
      if !InChain(table[0], site, principal) then rest
      else if rest.None? || rest.value.proofSequence.value <= table[0].proofSequence.value then Some(table[0])
      else rest
  }

  function Top(table: seq<Row>, site: string, principal: string): nat {
    match Latest(table, site, principal) case None => 0 case Some(r) => r.proofSequence.value
  }

  lemma {:induction false} LatestIsHighest(table: seq<Row>, site: string, principal: string)
    ensures Latest(table, site, principal).Some? ==> Latest(table, site, principal).value in table
    ensures forall r :: r in table && InChain(r, site, principal) ==> r.proofSequence.value <= Top(table, site, principal)
    ensures Latest(table, site, principal).None? ==> forall r :: r in table ==> !InChain(r, site, principal)
  {
    if table != [] {
      LatestIsHighest(table[1..], site, principal);
      assert table == [table[0]] + table[1..];
    }
  }

  lemma {:induction false} TopAppend(table: seq<Row>, row: Row, site: string, principal: string)
    ensures Top(table + [row], site, principal) >= Top(table, site, principal)
    ensures InChain(row, site, principal) ==> Top(table + [row], site, principal) >= row.proofSequence.value
  {
    LatestIsHighest(table, site, principal);
    LatestIsHighest(table + [row], site, principal);
    assert row in table + [row];
    if Latest(table, site, principal).Some? {
      assert Latest(table, site, principal).value in table + [row];
    }
  }

  /** In an honest table the sequences of a chain are exactly 1 to the highest, each held once. */
  lemma PositionsAreOneToTop(p: Primitives, table: seq<Row>, site: string, principal: string, s: nat)
    requires Honest(p, table)
    ensures FindPosition(table, site, principal, s).Some? <==> 1 <= s <= Top(table, site, principal)
  {
    LatestIsHighest(table, site, principal);
    FindPositionFinds(table, site, principal, s);
    if FindPosition(table, site, principal, s).Some? {
      var i :| 0 <= i < |table| && table[i] == FindPosition(table, site, principal, s).value;
      assert WellAt(p, table, i);
      assert InChain(table[i], site, principal);
    }
    if 1 <= s <= Top(table, site, principal) {
      DownTo(p, table, site, principal, Latest(table, site, principal).value, s);
    }
  }

  lemma {:induction false} DownTo(p: Primitives, table: seq<Row>, site: string, principal: string, r: Row, s: nat)
    requires Honest(p, table) && r in table && InChain(r, site, principal)
    requires 1 <= s <= r.proofSequence.value
    ensures FindPosition(table, site, principal, s).Some?
    decreases r.proofSequence.value
  {
    var i :| 0 <= i < |table| && table[i] == r;
    assert WellAt(p, table, i);
    if s == r.proofSequence.value {
      FindPositionFinds(table, site, principal, s);
    } else {
      var before := FindPosition(table, site, principal, r.proofSequence.value - 1).value;
      FindPositionFinds(table, site, principal, r.proofSequence.value - 1);
      DownTo(p, table, site, principal, before, s);
    }
  }

  // ---- Appending ------------------------------------------------------------

  predicate Taken(table: seq<Row>, site: string, principal: string, s: nat) {
    FindPosition(table, site, principal, s).Some?
  }

  lemma {:induction false} FindPositionAppend(table: seq<Row>, row: Row, site: string, principal: string, s: nat)
    ensures FindPosition(table + [row], site, principal, s)
            == if Taken(table, site, principal, s) then FindPosition(table, site, principal, s)
               else if AtPosition(row, site, principal, s) then Some(row) else None
  {
    if table == [] {
      assert table + [row] == [row] && [row][1..] == [];
    } else {
      FindPositionAppend(table[1..], row, site, principal, s);
      assert (table + [row])[1..] == table[1..] + [row];
    }
  }

  /** The digest a writer read for the position before `s` is the one the table holds there. */
  predicate ReadFrom(table: seq<Row>, site: string, principal: string, s: nat, previous: Option<string>) {
    && s >= 1
    && (s == 1 ==> previous.None?)
    && (s > 1 ==> previous.Some? && Taken(table, site, principal, s - 1)
                  && FindPosition(table, site, principal, s - 1).value.proofDocumentHash == previous)
  }

  lemma HonestAppend(p: Primitives, table: seq<Row>, row: Row)
    requires Honest(p, table) && WrittenWell(p, row) && row.proofSequence.Some?
    requires !Taken(table, row.siteId, row.principalId, row.proofSequence.value)
    requires ReadFrom(table, row.siteId, row.principalId, row.proofSequence.value, row.proofPreviousHash)
    ensures Honest(p, table + [row])
  {
    var now := table + [row];
    FindPositionFinds(table, row.siteId, row.principalId, row.proofSequence.value);
    forall i, j | 0 <= i < j < |now| ensures !SamePosition(now[i], now[j]) {
      if j < |table| {
        assert !SamePosition(table[i], table[j]);
      } else {
        assert table[i] in table;
      }
    }
    forall i: nat | i < |now| ensures WellAt(p, now, i) {
      if i < |table| {
        assert WellAt(p, table, i);
        LinkSurvives(table, row, table[i]);
      } else {
        FindPositionAppend(table, row, row.siteId, row.principalId, row.proofSequence.value - 1);
      }
    }
  }

  lemma LinkSurvives(table: seq<Row>, row: Row, r: Row)
    requires Linked(table, r)
    ensures Linked(table + [row], r)
  {
    if r.proofSequence.Some? && r.proofSequence.value > 1 {
      FindPositionAppend(table, row, r.siteId, r.principalId, r.proofSequence.value - 1);
    }
  }

  lemma ReadFromSurvives(table: seq<Row>, row: Row, site: string, principal: string, s: nat, previous: Option<string>)
    requires ReadFrom(table, site, principal, s, previous)
    ensures ReadFrom(table + [row], site, principal, s, previous)
  {
    if s > 1 {
      FindPositionAppend(table, row, site, principal, s - 1);
    }
  }

  /** Position and link digest the next row gets, from the latest row read. */
  function NextPosition(table: seq<Row>, site: string, principal: string): (nat, Option<string>) {
    match Latest(table, site, principal)
    case None => (1, None)
    case Some(r) => (r.proofSequence.value + 1, r.proofDocumentHash)
  }

  lemma NextPositionIsRead(p: Primitives, table: seq<Row>, site: string, principal: string)
    requires Honest(p, table)
    ensures var (s, previous) := NextPosition(table, site, principal);
            && s == Top(table, site, principal) + 1
            && ReadFrom(table, site, principal, s, previous)
            && !Taken(table, site, principal, s)
  {
    LatestIsHighest(table, site, principal);
    PositionsAreOneToTop(p, table, site, principal, Top(table, site, principal) + 1);
    if Latest(table, site, principal).Some? {
      var r := Latest(table, site, principal).value;
      var i :| 0 <= i < |table| && table[i] == r;
      assert WellAt(p, table, i);
      NoOtherAt(table, i);
      FindPositionIs(table, i, r.proofSequence.value);
    }
  }

  // ---- All calls, all interleavings -----------------------------------------

  /** Where one call of `recordConsentDecision` stands between two round trips. */
  datatype Pc =
    | FindPrincipal
    | CreatePrincipal
    | FindAgain
    | ReadLatest
    | InsertAt(sequence: nat, previous: Option<string>)
    | Recorded(index: nat)
    | GaveUp
    | Failed
    | Unresolved

  /** `first` is the highest sequence the call's first chain read saw: bookkeeping for the proofs only. */
  datatype Call = Call(input: Decision, principalId: string, attempt: nat, first: Option<nat>, pc: Pc)

  type Key = (string, string)

  datatype State = State(principals: map<Key, string>, rows: seq<Row>, calls: map<nat, Call>)

  /** One scheduler choice. `newId` is the identifier minted for an insert; `fails` a failure other than a collision. */
  datatype Action = Begin(call: nat, input: Decision) | Advance(call: nat, newId: string, fails: bool)

  function KeyOf(d: Decision): Key {
    (d.siteId, d.principalExternalId)
  }

  predicate IdUsed(table: seq<Row>, id: string) {
    exists i :: 0 <= i < |table| && table[i].id == id
  }

  function Resolve(s: State, call: Call, missing: Pc): Call {
    if KeyOf(call.input) in s.principals
    then call.(principalId := s.principals[KeyOf(call.input)], pc := ReadLatest)
    else call.(pc := missing)
  }

  function ReadStep(s: State, call: Call): Call {
    var (sequence, previous) := NextPosition(s.rows, call.input.siteId, call.principalId);
    call.(first := if call.attempt == 0 then Some(sequence - 1) else call.first, pc := InsertAt(sequence, previous))
  }

  /** The losing branch: retry until the last attempt, then fail loudly. */
  function Collide(call: Call): Call {
    if call.attempt == MAX_ATTEMPTS - 1 then call.(pc := GaveUp)
    else call.(attempt := call.attempt + 1, pc := ReadLatest)
  }

  function InsertStep(p: Primitives, s: State, id: nat, call: Call, newId: string, fails: bool): State
    requires call.pc.InsertAt?
  {
    var sequence := call.pc.sequence;
    if fails || IdUsed(s.rows, newId) then s.(calls := s.calls[id := call.(pc := Failed)])
    else if Taken(s.rows, call.input.siteId, call.principalId, sequence) then s.(calls := s.calls[id := Collide(call)])
    else s.(rows := s.rows + [MakeRow(p, call.input, newId, call.principalId, sequence, call.pc.previous)],
            calls := s.calls[id := call.(pc := Recorded(|s.rows|))])
  }

  function CreateStep(s: State, id: nat, call: Call, newId: string, fails: bool): State {
    if fails then s.(calls := s.calls[id := call.(pc := Failed)])
    else if KeyOf(call.input) in s.principals || newId in s.principals.Values then s.(calls := s.calls[id := call.(pc := FindAgain)])
    else s.(principals := s.principals[KeyOf(call.input) := newId],
            calls := s.calls[id := call.(principalId := newId, pc := ReadLatest)])
  }

  function Step(p: Primitives, s: State, a: Action): State {
    match a
    case Begin(id, input) =>
      if id in s.calls then s else s.(calls := s.calls[id := Call(input, "", 0, None, FindPrincipal)])
    case Advance(id, newId, fails) =>
      if id !in s.calls then s
      else
        var call := s.calls[id];
        match call.pc
        case FindPrincipal => s.(calls := s.calls[id := Resolve(s, call, CreatePrincipal)])
        case CreatePrincipal => CreateStep(s, id, call, newId, fails)
        case FindAgain => s.(calls := s.calls[id := Resolve(s, call, Unresolved)])
        case ReadLatest => s.(calls := s.calls[id := ReadStep(s, call)])
        case InsertAt(_, _) => InsertStep(p, s, id, call, newId, fails)
        case _ => s
  }

  function Run(p: Primitives, s: State, actions: seq<Action>): State
    decreases |actions|
  {
    if actions == [] then s else Run(p, Step(p, s, actions[0]), actions[1..])
  }

  /** Any principals, any honest history, no call in flight. */
  ghost predicate Initial(p: Primitives, s: State) {
    && s.calls == map[]
    && Honest(p, s.rows)
    && (forall k, m :: k in s.principals && m in s.principals && s.principals[k] == s.principals[m] ==> k == m)
  }

  predicate HasPrincipal(principals: map<Key, string>, call: Call) {
    KeyOf(call.input) in principals && principals[KeyOf(call.input)] == call.principalId
  }

  /** What is known of a call at each point; every collision has pushed the chain one position further. */
  predicate CallOk(p: Primitives, base: seq<Row>, principals: map<Key, string>, rows: seq<Row>, call: Call) {
    var site, principal := call.input.siteId, call.principalId;
    match call.pc
    case FindPrincipal => call.attempt == 0
    case CreatePrincipal => call.attempt == 0
    case FindAgain => call.attempt == 0
    case ReadLatest =>
      && HasPrincipal(principals, call) && call.attempt < MAX_ATTEMPTS
      && (call.attempt > 0 ==> call.first.Some? && call.first.value >= Top(base, site, principal)
                               && Top(rows, site, principal) >= call.first.value + call.attempt)
    case InsertAt(sequence, previous) =>
      && HasPrincipal(principals, call) && call.attempt < MAX_ATTEMPTS
      && call.first.Some? && call.first.value >= Top(base, site, principal)
      && sequence > call.first.value + call.attempt
      && ReadFrom(rows, site, principal, sequence, previous)
    case Recorded(index) =>
      && HasPrincipal(principals, call)
      && |base| <= index < |rows|
      && rows[index].proofSequence.Some?
      && rows[index] == MakeRow(p, call.input, rows[index].id, principal, rows[index].proofSequence.value, rows[index].proofPreviousHash)
    case GaveUp =>
      && HasPrincipal(principals, call)
      && call.first.Some? && call.first.value >= Top(base, site, principal)
      && Top(rows, site, principal) >= call.first.value + MAX_ATTEMPTS
    case _ => true
  }

  /** Row `i` was written by exactly one call of this run. */
  ghost predicate Authored(calls: map<nat, Call>, i: nat) {
    exists c :: c in calls && calls[c].pc == Recorded(i)
  }

  ghost predicate Inv(p: Primitives, base: seq<Row>, s: State) {
    && (forall k, m :: k in s.principals && m in s.principals && s.principals[k] == s.principals[m] ==> k == m)
    && |base| <= |s.rows| && s.rows[..|base|] == base
    && Honest(p, s.rows)
    && (forall c :: c in s.calls ==> CallOk(p, base, s.principals, s.rows, s.calls[c]))
    && (forall i: nat :: |base| <= i < |s.rows| ==> Authored(s.calls, i))
    && (forall c, d :: c in s.calls && d in s.calls && s.calls[c].pc.Recorded? && s.calls[c].pc == s.calls[d].pc ==> c == d)
  }

  lemma CallOkAppend(p: Primitives, base: seq<Row>, principals: map<Key, string>, rows: seq<Row>, row: Row, call: Call)
    requires CallOk(p, base, principals, rows, call)
    ensures CallOk(p, base, principals, rows + [row], call)
  {
    TopAppend(rows, row, call.input.siteId, call.principalId);
    if call.pc.InsertAt? {
      ReadFromSurvives(rows, row, call.input.siteId, call.principalId, call.pc.sequence, call.pc.previous);
    }
  }

  /** A step that changes one call and neither table. */
  lemma CallChangeKeepsInv(p: Primitives, base: seq<Row>, s: State, id: nat, call: Call)
    requires Inv(p, base, s) && !call.pc.Recorded?
    requires id in s.calls ==> !s.calls[id].pc.Recorded?
    requires CallOk(p, base, s.principals, s.rows, call)
    ensures Inv(p, base, s.(calls := s.calls[id := call]))
  {
    var calls := s.calls[id := call];
    forall i: nat | |base| <= i < |s.rows| ensures Authored(calls, i) {
      assert Authored(s.calls, i);
      var c :| c in s.calls && s.calls[c].pc == Recorded(i);
      assert c in calls && calls[c].pc == Recorded(i);
    }
  }

  lemma RowsStayAuthored(base: nat, calls: map<nat, Call>, n: nat, id: nat, done: Call, after: map<nat, Call>)
    requires forall i: nat :: base <= i < n ==> Authored(calls, i)
    requires id in calls && !calls[id].pc.Recorded? && done.pc == Recorded(n)
    requires after == calls[id := done]
    ensures forall i: nat :: base <= i < n + 1 ==> Authored(after, i)
  {
    forall i: nat | base <= i < n + 1 ensures Authored(after, i) {
      if i < n {
        assert Authored(calls, i);
        var c :| c in calls && calls[c].pc == Recorded(i);
        assert c in after && after[c].pc == Recorded(i);
      } else {
        assert after[id].pc == Recorded(i);
      }
    }
  }

  /** No recorded call points past the table. */
  lemma RecordedBelow(p: Primitives, base: seq<Row>, s: State)
    requires Inv(p, base, s)
    ensures forall c :: c in s.calls && s.calls[c].pc.Recorded? ==> s.calls[c].pc.index < |s.rows|
  {
    forall c | c in s.calls && s.calls[c].pc.Recorded? ensures s.calls[c].pc.index < |s.rows| {
      assert CallOk(p, base, s.principals, s.rows, s.calls[c]);
    }
  }

  lemma OthersStayOk(p: Primitives, base: seq<Row>, s: State, row: Row, id: nat, done: Call, after: map<nat, Call>)
    requires Inv(p, base, s) && CallOk(p, base, s.principals, s.rows + [row], done)
    requires after == s.calls[id := done]
    ensures forall c :: c in after ==> CallOk(p, base, s.principals, s.rows + [row], after[c])
  {
    forall c | c in after ensures CallOk(p, base, s.principals, s.rows + [row], after[c]) {
      if c != id {
        assert CallOk(p, base, s.principals, s.rows, s.calls[c]);
        CallOkAppend(p, base, s.principals, s.rows, row, s.calls[c]);
      }
    }
  }

  /** A step that adds one row and marks the call that wrote it. */
  lemma AppendKeepsInv(p: Primitives, base: seq<Row>, s: State, id: nat, row: Row, done: Call)
    requires Inv(p, base, s) && id in s.calls && !s.calls[id].pc.Recorded?
    requires done.pc == Recorded(|s.rows|) && CallOk(p, base, s.principals, s.rows + [row], done)
    requires Honest(p, s.rows + [row])
    ensures Inv(p, base, s.(rows := s.rows + [row], calls := s.calls[id := done]))
  {
    RowsStayAuthored(|base|, s.calls, |s.rows|, id, done, s.calls[id := done]);
    RecordedBelow(p, base, s);
    OthersStayOk(p, base, s, row, id, done, s.calls[id := done]);
    assert (s.rows + [row])[..|base|] == base;
  }

  lemma InsertedIsOk(p: Primitives, base: seq<Row>, principals: map<Key, string>, rows: seq<Row>, call: Call, newId: string)
    requires call.pc.InsertAt? && CallOk(p, base, principals, rows, call) && |base| <= |rows|
    ensures var row := MakeRow(p, call.input, newId, call.principalId, call.pc.sequence, call.pc.previous);
            CallOk(p, base, principals, rows + [row], call.(pc := Recorded(|rows|)))
  {
  }

  lemma InsertKeepsInv(p: Primitives, base: seq<Row>, s: State, id: nat, newId: string)
    requires Inv(p, base, s) && id in s.calls && s.calls[id].pc.InsertAt?
    requires !Taken(s.rows, s.calls[id].input.siteId, s.calls[id].principalId, s.calls[id].pc.sequence)
    requires !IdUsed(s.rows, newId)
    ensures Inv(p, base, InsertStep(p, s, id, s.calls[id], newId, false))
  {
    var call := s.calls[id];
    assert CallOk(p, base, s.principals, s.rows, call);
    InsertedIsOk(p, base, s.principals, s.rows, call, newId);
    MadeRowFits(p, call.input, newId, call.principalId, call.pc.sequence, call.pc.previous, s.rows);
    AppendKeepsInv(p, base, s, id, MakeRow(p, call.input, newId, call.principalId, call.pc.sequence, call.pc.previous),
                   call.(pc := Recorded(|s.rows|)));
  }

  lemma MadeRowFits(p: Primitives, d: Decision, newId: string, principalId: string, sequence: nat, previous: Option<string>, rows: seq<Row>)
    requires Honest(p, rows) && ReadFrom(rows, d.siteId, principalId, sequence, previous)
    requires !Taken(rows, d.siteId, principalId, sequence)
    ensures Honest(p, rows + [MakeRow(p, d, newId, principalId, sequence, previous)])
  {
    MadeRowIsWrittenWell(p, d, newId, principalId, sequence, previous);
    HonestAppend(p, rows, MakeRow(p, d, newId, principalId, sequence, previous));
  }

  lemma CreateKeepsInv(p: Primitives, base: seq<Row>, s: State, id: nat, newId: string)
    requires Inv(p, base, s) && id in s.calls && s.calls[id].pc.CreatePrincipal? && s.calls[id].attempt == 0
    requires KeyOf(s.calls[id].input) !in s.principals && newId !in s.principals.Values
    ensures Inv(p, base, CreateStep(s, id, s.calls[id], newId, false))
  {
    var call := s.calls[id];
    var principals := s.principals[KeyOf(call.input) := newId];
    var grown := s.(principals := principals);
    forall c | c in grown.calls ensures CallOk(p, base, principals, grown.rows, grown.calls[c]) {
      assert CallOk(p, base, s.principals, s.rows, s.calls[c]);
    }
    forall k, m | k in principals && m in principals && principals[k] == principals[m] ensures k == m {
      if k != KeyOf(call.input) { assert principals[k] in s.principals.Values; }
      if m != KeyOf(call.input) { assert principals[m] in s.principals.Values; }
    }
    CallChangeKeepsInv(p, base, grown, id, call.(principalId := newId, pc := ReadLatest));
  }

  lemma StepKeepsInv(p: Primitives, base: seq<Row>, s: State, a: Action)
    requires Inv(p, base, s)
    ensures Inv(p, base, Step(p, s, a))
  {
    match a
    case Begin(id, input) =>
      if id !in s.calls {
        CallChangeKeepsInv(p, base, s, id, Call(input, "", 0, None, FindPrincipal));
      }
    case Advance(id, newId, fails) =>
      if id in s.calls {
        AdvanceKeepsInv(p, base, s, id, newId, fails);
      }
  }

  lemma AdvanceKeepsInv(p: Primitives, base: seq<Row>, s: State, id: nat, newId: string, fails: bool)
    requires Inv(p, base, s) && id in s.calls
    ensures Inv(p, base, Step(p, s, Advance(id, newId, fails)))
  {
    var call := s.calls[id];
    assert CallOk(p, base, s.principals, s.rows, call);
    match call.pc
    case FindPrincipal =>
      CallChangeKeepsInv(p, base, s, id, Resolve(s, call, CreatePrincipal));
    case FindAgain =>
      CallChangeKeepsInv(p, base, s, id, Resolve(s, call, Unresolved));
    case CreatePrincipal =>
      if fails {
        CallChangeKeepsInv(p, base, s, id, call.(pc := Failed));
      } else if KeyOf(call.input) in s.principals || newId in s.principals.Values {
        CallChangeKeepsInv(p, base, s, id, call.(pc := FindAgain));
      } else {
        CreateKeepsInv(p, base, s, id, newId);
      }
    case ReadLatest =>
      ReadKeepsOk(p, base, s, call);
      CallChangeKeepsInv(p, base, s, id, ReadStep(s, call));
    case InsertAt(sequence, previous) =>
      if fails || IdUsed(s.rows, newId) {
        CallChangeKeepsInv(p, base, s, id, call.(pc := Failed));
      } else if Taken(s.rows, call.input.siteId, call.principalId, sequence) {
        PositionsAreOneToTop(p, s.rows, call.input.siteId, call.principalId, sequence);
        CallChangeKeepsInv(p, base, s, id, Collide(call));
      } else {
        InsertKeepsInv(p, base, s, id, newId);
      }
    case _ =>
  }

  lemma {:induction false} TopMonotone(base: seq<Row>, rows: seq<Row>, site: string, principal: string)
    requires |base| <= |rows| && rows[..|base|] == base
    ensures Top(base, site, principal) <= Top(rows, site, principal)
  {
    LatestIsHighest(base, site, principal);
    LatestIsHighest(rows, site, principal);
    if Latest(base, site, principal).Some? {
      var i :| 0 <= i < |base| && base[i] == Latest(base, site, principal).value;
      assert rows[i] == base[i];
    }
  }

  lemma ReadKeepsOk(p: Primitives, base: seq<Row>, s: State, call: Call)
    requires Inv(p, base, s) && call.pc.ReadLatest? && CallOk(p, base, s.principals, s.rows, call)
    ensures CallOk(p, base, s.principals, s.rows, ReadStep(s, call))
  {
    NextPositionIsRead(p, s.rows, call.input.siteId, call.principalId);
    TopMonotone(base, s.rows, call.input.siteId, call.principalId);
  }

  /** Every interleaving of any number of calls keeps the invariant. */
  lemma {:induction false} RunKeepsInv(p: Primitives, base: seq<Row>, s: State, actions: seq<Action>)
    requires Inv(p, base, s)
    ensures Inv(p, base, Run(p, s, actions))
    decreases |actions|
  {
    if actions != [] {
      StepKeepsInv(p, base, s, actions[0]);
      RunKeepsInv(p, base, Step(p, s, actions[0]), actions[1..]);
    }
  }

  // ---- Main results ---------------------------------------------------------

  /** The chain's positions are 1 to n, without a hole. */
  ghost predicate Contiguous(table: seq<Row>, site: string, principal: string) {
    forall s: nat :: Taken(table, site, principal, s) <==> 1 <= s <= Top(table, site, principal)
  }

  /** A record with a proof reassembles exactly, and its check finds it intact and in place. */
  predicate Passes(p: Primitives, keys: seq<VerificationKey>, table: seq<Row>, r: Row) {
    r.proofSequence.Some? ==>
      && !ProofFor(p, r).reassemblyMismatch
      && var v := CheckRecord(p, keys, table, r);
         v.Some? && v.value.integrity == Some(IntegrityValid) && v.value.chain == Some(ChainValid)
  }

  /**
   * After any interleaving: one row per position, positions 1 to n, row 1 naming no predecessor
   * and every later row the digest of the row before it (`Honest`), and every check passes.
   */
  lemma ChainsStayHonest(p: Primitives, keys: seq<VerificationKey>, s0: State, actions: seq<Action>)
    requires Initial(p, s0)
    ensures var rows := Run(p, s0, actions).rows;
            && Honest(p, rows)
            && (forall site, principal :: Contiguous(rows, site, principal))
            && (forall i :: 0 <= i < |rows| ==> Passes(p, keys, rows, rows[i]))
  {
    RunKeepsInv(p, s0.rows, s0, actions);
    var rows := Run(p, s0, actions).rows;
    forall site, principal ensures Contiguous(rows, site, principal) {
      forall s: nat ensures Taken(rows, site, principal, s) <==> 1 <= s <= Top(rows, site, principal) {
        PositionsAreOneToTop(p, rows, site, principal, s);
      }
    }
    forall i | 0 <= i < |rows| ensures Passes(p, keys, rows, rows[i]) {
      if rows[i].proofSequence.Some? {
        HonestTableVerifies(p, keys, rows, i);
      }
    }
  }

  lemma {:induction false} RunAppend(p: Primitives, s: State, a: seq<Action>, b: seq<Action>)
    ensures Run(p, s, a + b) == Run(p, Run(p, s, a), b)
    decreases |a|
  {
    if a == [] {
      assert a + b == b;
    } else {
      RunAppend(p, Step(p, s, a[0]), a[1..], b);
      assert (a + b)[1..] == a[1..] + b;
    }
  }

  lemma {:induction false} RowsOnlyGrow(p: Primitives, s: State, actions: seq<Action>)
    ensures |s.rows| <= |Run(p, s, actions).rows| && Run(p, s, actions).rows[..|s.rows|] == s.rows
    decreases |actions|
  {
    if actions != [] {
      var next := Step(p, s, actions[0]);
      assert |s.rows| <= |next.rows| && next.rows[..|s.rows|] == s.rows;
      RowsOnlyGrow(p, next, actions[1..]);
      var last := Run(p, s, actions).rows;
      assert last[..|s.rows|] == last[..|next.rows|][..|s.rows|];
    }
  }

  /** A committed row is never changed by anything that runs after it. */
  lemma CommittedRowsNeverChange(p: Primitives, s0: State, before: seq<Action>, after: seq<Action>, i: nat)
    requires i < |Run(p, s0, before).rows|
    ensures i < |Run(p, s0, before + after).rows|
    ensures Run(p, s0, before + after).rows[i] == Run(p, s0, before).rows[i]
  {
    RunAppend(p, s0, before, after);
    RowsOnlyGrow(p, Run(p, s0, before), after);
    assert Run(p, s0, before).rows[i] == Run(p, s0, before + after).rows[..|Run(p, s0, before).rows|][i];
  }

  /** Other calls for the same principal that have recorded their decision. */
  function OthersRecorded(s: State, id: nat): set<nat>
    requires id in s.calls
  {
    set c | c in s.calls && c != id && s.calls[c].pc.Recorded? && KeyOf(s.calls[c].input) == KeyOf(s.calls[id].input)
  }

  /** A position above everything the chain held at the start is held by a row of this run. */
  lemma PositionIsNew(p: Primitives, base: seq<Row>, s: State, site: string, principal: string, position: nat) returns (i: nat)
    requires Inv(p, base, s) && Top(base, site, principal) < position <= Top(s.rows, site, principal)
    ensures |base| <= i < |s.rows| && AtPosition(s.rows[i], site, principal, position)
  {
    PositionsAreOneToTop(p, s.rows, site, principal, position);
    FindPositionFinds(s.rows, site, principal, position);
    i :| i < |s.rows| && s.rows[i] == FindPosition(s.rows, site, principal, position).value;
    if i < |base| {
      LatestIsHighest(base, site, principal);
      assert false;
    }
  }

  /** The call that wrote a position of this principal's chain during the run. */
  lemma AuthorOf(p: Primitives, base: seq<Row>, s: State, id: nat, position: nat) returns (c: nat)
    requires Inv(p, base, s) && id in s.calls && s.calls[id].pc.GaveUp?
    requires s.calls[id].first.value < position <= Top(s.rows, s.calls[id].input.siteId, s.calls[id].principalId)
    ensures c in OthersRecorded(s, id) && WroteBetween(s, c, position - 1, position)
  {
    var call := s.calls[id];
    assert CallOk(p, base, s.principals, s.rows, call);
    var i := PositionIsNew(p, base, s, call.input.siteId, call.principalId, position);
    assert Authored(s.calls, i);
    c :| c in s.calls && s.calls[c].pc == Recorded(i);
    assert CallOk(p, base, s.principals, s.rows, s.calls[c]);
  }

  /** The call's own row holds a position above `low`, up to `high`. */
  predicate WroteBetween(s: State, c: nat, low: nat, high: nat) {
    && c in s.calls && s.calls[c].pc.Recorded? && s.calls[c].pc.index < |s.rows|
    && s.rows[s.calls[c].pc.index].proofSequence.Some?
    && low < s.rows[s.calls[c].pc.index].proofSequence.value <= high
  }

  /** Collisions are charged to distinct calls: the first `n` positions after `first` have `n` authors. */
  lemma {:induction false} DistinctAuthors(p: Primitives, base: seq<Row>, s: State, id: nat, n: nat) returns (authors: set<nat>)
    requires Inv(p, base, s) && id in s.calls && s.calls[id].pc.GaveUp? && s.calls[id].first.Some?
    requires s.calls[id].first.value + n <= Top(s.rows, s.calls[id].input.siteId, s.calls[id].principalId)
    ensures authors <= OthersRecorded(s, id) && |authors| == n
    ensures forall c :: c in authors ==> WroteBetween(s, c, s.calls[id].first.value, s.calls[id].first.value + n)
  {
    if n == 0 {
      authors := {};
    } else {
      authors := DistinctAuthors(p, base, s, id, n - 1);
      var c := AuthorOf(p, base, s, id, s.calls[id].first.value + n);
      authors := authors + {c};
    }
  }

  lemma InitialInv(p: Primitives, s0: State)
    requires Initial(p, s0)
    ensures Inv(p, s0.rows, s0)
  {
  }

  /**
   * A call gives up on contention only if twelve other decisions for its principal committed
   * after its first read, each at its own position and each by its own call.
   */
  lemma GivingUpNeedsTwelveOthers(p: Primitives, s0: State, actions: seq<Action>, s: State, id: nat)
    returns (others: set<nat>)
    requires Initial(p, s0) && s == Run(p, s0, actions)
    requires id in s.calls && s.calls[id].pc.GaveUp?
    ensures others <= OthersRecorded(s, id) && |others| == 12
    ensures s.calls[id].first.Some?
    ensures forall c :: c in others ==>
              WroteBetween(s, c, s.calls[id].first.value, s.calls[id].first.value + 12)
  {
    InitialInv(p, s0);
    RunKeepsInv(p, s0.rows, s0, actions);
    assert CallOk(p, s0.rows, s.principals, s.rows, s.calls[id]);
    others := DistinctAuthors(p, s0.rows, s, id, MAX_ATTEMPTS);
  }

  /** The calls of a run that decide for one principal. */
  function Racing(s: State, key: Key): set<nat> {
    set c | c in s.calls && KeyOf(s.calls[c].input) == key
  }

  predicate Finished(pc: Pc) {
    pc.Recorded? || pc.GaveUp? || pc.Failed? || pc.Unresolved?
  }

  /** Row `i` was added during the run and belongs to the principal of `key`. */
  predicate NewRowFor(base: seq<Row>, s: State, key: Key, i: nat) {
    |base| <= i < |s.rows| && key in s.principals && InChain(s.rows[i], key.0, s.principals[key])
  }

  /** With at most twelve calls racing for a principal, none of them gives up. */
  lemma TwelveRacersNeverGiveUp(p: Primitives, s0: State, actions: seq<Action>, s: State, key: Key)
    requires Initial(p, s0) && s == Run(p, s0, actions)
    requires |Racing(s, key)| <= 12
    ensures forall c :: c in Racing(s, key) ==> !s.calls[c].pc.GaveUp?
  {
    forall c | c in Racing(s, key) ensures !s.calls[c].pc.GaveUp? {
      if s.calls[c].pc.GaveUp? {
        var others := GivingUpNeedsTwelveOthers(p, s0, actions, s, c);
        SubsetSize(others + {c}, Racing(s, key));
        assert false;
      }
    }
  }

  /** The call holds a row of its own, new in this run, that carries its decision. */
  predicate HasItsRow(p: Primitives, base: seq<Row>, s: State, key: Key, c: nat) {
    && c in s.calls && s.calls[c].pc.Recorded?
    && NewRowFor(base, s, key, s.calls[c].pc.index)
    && RecordsDecision(p, s.rows[s.calls[c].pc.index], s.calls[c].input)
    && SignedFor(p, s.rows[s.calls[c].pc.index], s.calls[c].input)
  }

  /** Exactly one call of those racing for `key` wrote row `i`. */
  ghost predicate HasItsCall(s: State, key: Key, i: nat) {
    exists c :: c in Racing(s, key) && s.calls[c].pc == Recorded(i)
             && forall d :: d in s.calls && s.calls[d].pc == Recorded(i) ==> d == c
  }

  /**
   * Calls that succeeded and rows they added correspond one to one, in every interleaving: each
   * such call has one row carrying its own decision, and each new row of the chain has one call.
   */
  lemma RecordedExactlyOnce(p: Primitives, s0: State, actions: seq<Action>, key: Key)
    requires Initial(p, s0)
    ensures var s := Run(p, s0, actions);
            && (forall c :: c in Racing(s, key) && s.calls[c].pc.Recorded? ==> HasItsRow(p, s0.rows, s, key, c))
            && (forall i: nat :: NewRowFor(s0.rows, s, key, i) ==> HasItsCall(s, key, i))
  {
    InitialInv(p, s0);
    RunKeepsInv(p, s0.rows, s0, actions);
    var s := Run(p, s0, actions);
    forall c | c in Racing(s, key) && s.calls[c].pc.Recorded? ensures HasItsRow(p, s0.rows, s, key, c) {
      RecordedHasItsRow(p, s0.rows, s, key, c);
    }
    forall i: nat | NewRowFor(s0.rows, s, key, i) ensures HasItsCall(s, key, i) {
      NewRowHasItsCall(p, s0.rows, s, key, i);
    }
  }

  lemma RecordedHasItsRow(p: Primitives, base: seq<Row>, s: State, key: Key, c: nat)
    requires Inv(p, base, s) && c in Racing(s, key) && s.calls[c].pc.Recorded?
    ensures HasItsRow(p, base, s, key, c)
  {
    var call := s.calls[c];
    assert CallOk(p, base, s.principals, s.rows, call);
    var row := s.rows[call.pc.index];
    MadeRowIsSigned(p, call.input, row.id, call.principalId, row.proofSequence.value, row.proofPreviousHash);
    MadeRowRecords(p, call.input, row.id, call.principalId, row.proofSequence.value, row.proofPreviousHash);
  }

  lemma NewRowHasItsCall(p: Primitives, base: seq<Row>, s: State, key: Key, i: nat)
    requires Inv(p, base, s) && NewRowFor(base, s, key, i)
    ensures HasItsCall(s, key, i)
  {
    assert Authored(s.calls, i);
    var c :| c in s.calls && s.calls[c].pc == Recorded(i);
    assert CallOk(p, base, s.principals, s.rows, s.calls[c]);
    assert KeyOf(s.calls[c].input) == key;
    assert c in Racing(s, key);
  }

  /** The row holds this decision: the evidence, the attribution and the signer are the call's. */
  predicate RecordsDecision(p: Primitives, r: Row, d: Decision) {
    && EvidenceFor(r) == EvidenceOf(d)
    && r.experimentId == d.experimentId && r.variantKey == d.variantKey
    && r.proofKeyId == (match d.key case None => None case Some(k) => Some(k.keyId))
  }

  /** The row is signed, where there is a key, over the very document it reassembles into, under version 2. */
  predicate SignedFor(p: Primitives, r: Row, d: Decision) {
    && r.proofSequence.Some? && r.proofVersion == Some("rift-consent-proof/2")
    && r.proofSignature == (match d.key case None => None
                            case Some(k) => Some(p.sign(k.privateKey, CanonicalProof(p, FactsFor(r), "rift-consent-proof/2"))))
  }

  lemma MadeRowIsSigned(p: Primitives, d: Decision, id: string, principalId: string, sequence: nat, previous: Option<string>)
    ensures SignedFor(p, MakeRow(p, d, id, principalId, sequence, previous), d)
  {
    var row := MakeRow(p, d, id, principalId, sequence, previous);
    assert FactsFor(row) == BuildProof(p, StatedFacts(d, id, sequence, previous), EvidenceOf(d), d.key).facts;
  }

  // ---- Every call finishes --------------------------------------------------

  /** How many round trips a call can still make: three to find its principal, then two for each attempt. */
  const MOST_STEPS: nat := 3 + 2 * MAX_ATTEMPTS

  function StepsLeft(call: Call): int {
    match call.pc
    case FindPrincipal => MOST_STEPS
    case CreatePrincipal => MOST_STEPS - 1
    case FindAgain => MOST_STEPS - 2
    case ReadLatest => 2 * (MAX_ATTEMPTS - call.attempt)
    case InsertAt(_, _) => 2 * (MAX_ATTEMPTS - call.attempt) - 1
    case _ => 0
  }

  /** How many of the actions are steps of this call. */
  function OwnSteps(actions: seq<Action>, id: nat): nat {
    if actions == [] then 0
    else (if actions[0].Advance? && actions[0].call == id then 1 else 0) + OwnSteps(actions[1..], id)
  }

  lemma InsertUsesOne(p: Primitives, s: State, id: nat, call: Call, newId: string, fails: bool)
    requires call.pc.InsertAt? && call.attempt < MAX_ATTEMPTS
    ensures var t := InsertStep(p, s, id, call, newId, fails);
            id in t.calls && t.calls[id].input == call.input && StepsLeft(t.calls[id]) < StepsLeft(call)
  {
    if fails || IdUsed(s.rows, newId) {
      EndingUsesOne(call, Failed);
    } else if Taken(s.rows, call.input.siteId, call.principalId, call.pc.sequence) {
      CollidingUsesOne(call);
    } else {
      EndingUsesOne(call, Recorded(|s.rows|));
    }
  }

  lemma EndingUsesOne(call: Call, pc: Pc)
    requires call.pc.InsertAt? && call.attempt < MAX_ATTEMPTS && Finished(pc)
    ensures StepsLeft(call.(pc := pc)) < StepsLeft(call)
  {
  }

  lemma CollidingUsesOne(call: Call)
    requires call.pc.InsertAt? && call.attempt < MAX_ATTEMPTS
    ensures Collide(call).input == call.input && StepsLeft(Collide(call)) < StepsLeft(call)
  {
  }

  lemma CreateUsesOne(s: State, id: nat, call: Call, newId: string, fails: bool)
    requires call.pc.CreatePrincipal? && call.attempt == 0
    ensures var t := CreateStep(s, id, call, newId, fails);
            id in t.calls && t.calls[id].input == call.input && StepsLeft(t.calls[id]) < StepsLeft(call)
  {
  }

  lemma OwnStepUsesOne(p: Primitives, base: seq<Row>, s: State, id: nat, newId: string, fails: bool)
    requires Inv(p, base, s) && id in s.calls
    ensures var t := Step(p, s, Advance(id, newId, fails));
            && id in t.calls && t.calls[id].input == s.calls[id].input
            && (if Finished(s.calls[id].pc) then t.calls[id] == s.calls[id]
                else StepsLeft(t.calls[id]) < StepsLeft(s.calls[id]))
  {
    var call := s.calls[id];
    assert CallOk(p, base, s.principals, s.rows, call);
    if call.pc.InsertAt? {
      InsertUsesOne(p, s, id, call, newId, fails);
    } else if call.pc.CreatePrincipal? {
      CreateUsesOne(s, id, call, newId, fails);
    }
  }

  lemma OthersUseNone(p: Primitives, s: State, id: nat, a: Action)
    requires id in s.calls && !(a.Advance? && a.call == id)
    ensures id in Step(p, s, a).calls && Step(p, s, a).calls[id] == s.calls[id]
  {
  }

  lemma LeftUntilFinished(p: Primitives, base: seq<Row>, s: State, id: nat)
    requires Inv(p, base, s) && id in s.calls
    ensures StepsLeft(s.calls[id]) >= 0 && (StepsLeft(s.calls[id]) == 0 ==> Finished(s.calls[id].pc))
  {
    assert CallOk(p, base, s.principals, s.rows, s.calls[id]);
  }

  /** Whatever others do, a call that has made all its round trips has finished. */
  lemma {:induction false} FinishesInTime(p: Primitives, base: seq<Row>, s: State, actions: seq<Action>, id: nat)
    requires Inv(p, base, s) && id in s.calls && OwnSteps(actions, id) >= StepsLeft(s.calls[id])
    ensures id in Run(p, s, actions).calls && Finished(Run(p, s, actions).calls[id].pc)
    decreases |actions|
  {
    LeftUntilFinished(p, base, s, id);
    if actions != [] {
      var a, t := actions[0], Step(p, s, actions[0]);
      StepKeepsInv(p, base, s, a);
      if a.Advance? && a.call == id {
        OwnStepUsesOne(p, base, s, id, a.newId, a.fails);
      } else {
        OthersUseNone(p, s, id, a);
      }
      LeftUntilFinished(p, base, t, id);
      if Finished(s.calls[id].pc) {
        assert StepsLeft(t.calls[id]) == 0;
      }
      FinishesInTime(p, base, t, actions[1..], id);
    }
  }

  lemma StepsLeftAtMost(p: Primitives, base: seq<Row>, s: State, id: nat)
    requires Inv(p, base, s) && id in s.calls
    ensures StepsLeft(s.calls[id]) <= MOST_STEPS
  {
    assert CallOk(p, base, s.principals, s.rows, s.calls[id]);
  }

  /** From wherever a run has come to, twenty-seven round trips of its own finish any call. */
  lemma EveryCallFinishes(p: Primitives, s0: State, before: seq<Action>, after: seq<Action>, id: nat)
    requires Initial(p, s0) && id in Run(p, s0, before).calls && OwnSteps(after, id) >= 27
    ensures var s := Run(p, s0, before + after); id in s.calls && Finished(s.calls[id].pc)
  {
    InitialInv(p, s0);
    RunKeepsInv(p, s0.rows, s0, before);
    RunAppend(p, s0, before, after);
    StepsLeftAtMost(p, s0.rows, Run(p, s0, before), id);
    FinishesInTime(p, s0.rows, Run(p, s0, before), after, id);
  }

  /**
   * With at most twelve calls racing for a principal, each that has finished and met no failure of
   * another kind is recorded, in one row of its own that carries its decision.
   */
  lemma TwelveRacersAreRecorded(p: Primitives, s0: State, actions: seq<Action>, s: State, key: Key, c: nat)
    requires Initial(p, s0) && s == Run(p, s0, actions)
    requires |Racing(s, key)| <= 12 && c in Racing(s, key)
    requires Finished(s.calls[c].pc) && !s.calls[c].pc.Failed? && !s.calls[c].pc.Unresolved?
    ensures HasItsRow(p, s0.rows, s, key, c)
    ensures forall d :: d in s.calls && s.calls[d].pc == s.calls[c].pc ==> d == c
  {
    TwelveRacersNeverGiveUp(p, s0, actions, s, key);
    RecordedExactlyOnce(p, s0, actions, key);
    assert HasItsCall(s, key, s.calls[c].pc.index);
  }

  lemma {:induction false} SubsetSize<T>(a: set<T>, b: set<T>)
    requires a <= b
    ensures |a| <= |b|
  {
    if a != {} {
      var x :| x in a;
      SubsetSize(a - {x}, b - {x});
    }
  }

  // ---- One call as the code runs it -----------------------------------------

  datatype Outcome = Wrote(row: Row) | Contention | OtherFailure

  /** The consent_records table: reads, and an insert the unique index may refuse. */
  class ConsentTable {
    var rows: seq<Row>

    constructor (initial: seq<Row>)
      ensures rows == initial
    {
      rows := initial;
    }

    /** A row enters only at a free position and under a new id; a refused insert changes nothing. */
    method Create(row: Row) returns (collided: bool, failed: bool)
      requires row.proofSequence.Some?
      modifies this
      ensures failed == IdUsed(old(rows), row.id)
      ensures collided == (!failed && Taken(old(rows), row.siteId, row.principalId, row.proofSequence.value))
      ensures rows == if failed || collided then old(rows) else old(rows) + [row]
    {
      failed := IdUsed(rows, row.id);
      collided := !failed && Taken(rows, row.siteId, row.principalId, row.proofSequence.value);
      if !failed && !collided {
        rows := rows + [row];
      }
    }
  }

  /** What other writers commit between this call's read and its insert, attempt by attempt. */
  function Before(others: seq<seq<Row>>, n: nat): seq<Row>
    requires n <= |others|
  {
    if n == 0 then [] else Before(others, n - 1) + others[n - 1]
  }

  predicate Competes(batch: seq<Row>, site: string, principal: string) {
    exists i :: 0 <= i < |batch| && InChain(batch[i], site, principal)
  }

  /** A batch that adds to the chain fills the very position the call was about to take. */
  lemma CompetitorTakesThePosition(p: Primitives, table: seq<Row>, batch: seq<Row>, site: string, principal: string)
    requires Honest(p, table) && Honest(p, table + batch)
    ensures Taken(table + batch, site, principal, Top(table, site, principal) + 1) <==> Competes(batch, site, principal)
  {
    var s := Top(table, site, principal) + 1;
    var all := table + batch;
    LatestIsHighest(table, site, principal);
    LatestIsHighest(all, site, principal);
    PositionsAreOneToTop(p, all, site, principal, s);
    if Competes(batch, site, principal) {
      var i :| 0 <= i < |batch| && InChain(batch[i], site, principal);
      assert all[|table| + i] == batch[i];
      if batch[i].proofSequence.value < s {
        SameChainPosition(p, table, batch, i, site, principal);
      }
    }
  }

  lemma Contested(p: Primitives, table: seq<Row>, batch: seq<Row>, site: string, principal: string, s: nat) returns (contested: bool)
    requires Honest(p, table) && Honest(p, table + batch) && s == Top(table, site, principal) + 1
    ensures contested == Competes(batch, site, principal) == Taken(table + batch, site, principal, s)
  {
    CompetitorTakesThePosition(p, table, batch, site, principal);
    contested := Competes(batch, site, principal);
  }

  lemma SameChainPosition(p: Primitives, table: seq<Row>, batch: seq<Row>, i: nat, site: string, principal: string)
    requires Honest(p, table) && Honest(p, table + batch)
    requires i < |batch| && InChain(batch[i], site, principal)
    ensures batch[i].proofSequence.value > Top(table, site, principal)
  {
    var all := table + batch;
    var s := batch[i].proofSequence.value;
    assert all[|table| + i] == batch[i];
    assert WellAt(p, all, |table| + i);
    if s <= Top(table, site, principal) {
      PositionsAreOneToTop(p, table, site, principal, s);
      FindPositionFinds(table, site, principal, s);
      var j :| 0 <= j < |table| && table[j] == FindPosition(table, site, principal, s).value;
      assert SamePosition(all[j], all[|table| + i]);
    }
  }

  /** Whether the call succeeds turns only on some attempt seeing no competing commit. */
  ghost predicate Uncontested(others: seq<seq<Row>>, k: nat, site: string, principal: string) {
    && k < |others| && !Competes(others[k], site, principal)
    && forall j :: 0 <= j < k ==> Competes(others[j], site, principal)
  }

  /** One round: read, build on what was read, let others commit, insert. */
  method Attempt(p: Primitives, table: ConsentTable, input: Decision, principalId: string,
                 id: string, batch: seq<Row>)
    returns (row: Row, collided: bool, failed: bool)
    requires Honest(p, table.rows) && Honest(p, table.rows + batch)
    modifies table
    ensures Honest(p, table.rows)
    ensures failed <==> IdUsed(old(table.rows) + batch, id)
    ensures collided <==> !failed && Competes(batch, input.siteId, principalId)
    ensures table.rows == old(table.rows) + batch + if failed || collided then [] else [row]
    ensures RecordsDecision(p, row, input) && AtPosition(row, input.siteId, principalId, Top(old(table.rows), input.siteId, principalId) + 1)
    ensures !failed && !collided ==> Top(old(table.rows) + batch, input.siteId, principalId) == Top(old(table.rows), input.siteId, principalId)
  {
    ghost var read := table.rows;
    var sequence, previous := ReadChain(p, table.rows, input.siteId, principalId);
    ghost var contested := Contested(p, read, batch, input.siteId, principalId, sequence);
    row := Build(p, input, id, principalId, sequence, previous);
    table.rows := table.rows + batch;
    collided, failed := InsertBuilt(p, table, read, batch, row, contested);
  }

  /** The chain read: the next free position and the digest to link to. */
  method ReadChain(p: Primitives, rows: seq<Row>, site: string, principal: string)
    returns (sequence: nat, previous: Option<string>)
    requires Honest(p, rows)
    ensures sequence == Top(rows, site, principal) + 1 && ReadFrom(rows, site, principal, sequence, previous)
  {
    NextPositionIsRead(p, rows, site, principal);
    var (s, link) := NextPosition(rows, site, principal);
    return s, link;
  }

  /** The insert, after `batch` was committed behind the back of the read. */
  method InsertBuilt(p: Primitives, table: ConsentTable, ghost read: seq<Row>, ghost batch: seq<Row>, row: Row,
                     ghost contested: bool)
    returns (collided: bool, failed: bool)
    requires table.rows == read + batch && Honest(p, read) && Honest(p, read + batch)
    requires row.proofSequence.Some? && row.proofSequence.value == Top(read, row.siteId, row.principalId) + 1
    requires WrittenWell(p, row)
    requires ReadFrom(read, row.siteId, row.principalId, row.proofSequence.value, row.proofPreviousHash)
    requires contested == Taken(read + batch, row.siteId, row.principalId, row.proofSequence.value)
    modifies table
    ensures failed == IdUsed(read + batch, row.id)
    ensures collided == (!failed && contested)
    ensures table.rows == read + batch + (if failed || collided then [] else [row])
    ensures Honest(p, table.rows)
    ensures !failed && !collided ==> Top(read + batch, row.siteId, row.principalId) == Top(read, row.siteId, row.principalId)
  {
    collided, failed := table.Create(row);
    if !failed && !collided {
      WindowUnused(p, read, batch, row);
    } else {
      assert read + batch + [] == read + batch;
    }
  }

  /** The row for one attempt, with its digests over what it holds. */
  method Build(p: Primitives, input: Decision, id: string, principalId: string, sequence: nat, previous: Option<string>)
    returns (row: Row)
    requires sequence >= 1
    ensures row.id == id && AtPosition(row, input.siteId, principalId, sequence) && row.proofPreviousHash == previous
    ensures RecordsDecision(p, row, input) && WrittenWell(p, row)
  {
    row := MakeRow(p, input, id, principalId, sequence, previous);
    MadeRowRecords(p, input, id, principalId, sequence, previous);
    MadeRowIsWrittenWell(p, input, id, principalId, sequence, previous);
  }

  lemma MadeRowRecords(p: Primitives, d: Decision, id: string, principalId: string, sequence: nat, previous: Option<string>)
    ensures RecordsDecision(p, MakeRow(p, d, id, principalId, sequence, previous), d)
  {
  }

  /**
   * The retry loop, with what others commit inside each read-to-insert window as an input.
   * The row is rebuilt for every attempt, and is written in the first window nobody else used.
   */
  method RecordDecision(p: Primitives, table: ConsentTable, input: Decision, principalId: string,
                        ids: seq<string>, others: seq<seq<Row>>)
    returns (outcome: Outcome, attempts: nat)
    requires |ids| == |others| == MAX_ATTEMPTS
    requires forall k :: 0 <= k <= MAX_ATTEMPTS ==> Honest(p, table.rows + Before(others, k))
    modifies table
    ensures Honest(p, table.rows)
    ensures 1 <= attempts <= MAX_ATTEMPTS
    ensures outcome.Wrote? ==>
              && Uncontested(others, attempts - 1, input.siteId, principalId)
              && table.rows == old(table.rows) + Before(others, attempts) + [outcome.row]
              && RecordsDecision(p, outcome.row, input)
              && outcome.row.proofSequence == Some(Top(old(table.rows) + Before(others, attempts), input.siteId, principalId) + 1)
    ensures outcome.Contention? ==>
              && attempts == MAX_ATTEMPTS
              && (forall j :: 0 <= j < MAX_ATTEMPTS ==> Competes(others[j], input.siteId, principalId))
              && table.rows == old(table.rows) + Before(others, MAX_ATTEMPTS)
    ensures outcome.OtherFailure? ==>
              IdUsed(table.rows, ids[attempts - 1]) && table.rows == old(table.rows) + Before(others, attempts)
  {
    ghost var start := table.rows;
    var attempt := 0;
    while attempt < MAX_ATTEMPTS
      invariant 0 <= attempt < MAX_ATTEMPTS
      invariant table.rows == start + Before(others, attempt)
      invariant forall j :: 0 <= j < attempt ==> Competes(others[j], input.siteId, principalId)
    {
      assert table.rows + others[attempt] == start + Before(others, attempt + 1);
      var row, collided, failed := Attempt(p, table, input, principalId, ids[attempt], others[attempt]);
      attempts := attempt + 1;
      if failed {
        assert table.rows == start + Before(others, attempts);
        return OtherFailure, attempts;
      }
      if !collided {
        return Wrote(row), attempts;
      }
      assert table.rows == start + Before(others, attempts);
      if attempt == MAX_ATTEMPTS - 1 {
        return Contention, attempts;
      }
      attempt := attempt + 1;
    }
    assert false;
  }

  /** A row built on a read still fits after a window in which its own chain did not move. */
  lemma WindowUnused(p: Primitives, read: seq<Row>, batch: seq<Row>, row: Row)
    requires Honest(p, read) && Honest(p, read + batch)
    requires row.proofSequence.Some? && row.proofSequence.value == Top(read, row.siteId, row.principalId) + 1
    requires WrittenWell(p, row)
    requires ReadFrom(read, row.siteId, row.principalId, row.proofSequence.value, row.proofPreviousHash)
    requires !Taken(read + batch, row.siteId, row.principalId, row.proofSequence.value)
    ensures Honest(p, read + batch + [row])
    ensures row.proofSequence.value == Top(read + batch, row.siteId, row.principalId) + 1
  {
    var s := row.proofSequence.value;
    ReadFromLater(read, batch, row.siteId, row.principalId, s, row.proofPreviousHash);
    HonestAppend(p, read + batch, row);
    PositionsAreOneToTop(p, read + batch, row.siteId, row.principalId, s);
    TopMonotone(read, read + batch, row.siteId, row.principalId);
  }

  lemma {:induction false} ReadFromLater(table: seq<Row>, batch: seq<Row>, site: string, principal: string, s: nat, previous: Option<string>)
    requires ReadFrom(table, site, principal, s, previous)
    ensures ReadFrom(table + batch, site, principal, s, previous)
    decreases |batch|
  {
    if batch == [] {
      assert table + batch == table;
    } else {
      ReadFromSurvives(table, batch[0], site, principal, s, previous);
      ReadFromLater(table + [batch[0]], batch[1..], site, principal, s, previous);
      assert table + [batch[0]] + batch[1..] == table + batch;
    }
  }
}
