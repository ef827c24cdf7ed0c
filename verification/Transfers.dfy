/** Single-use transfer authorisations, interleaved. */
module Transfers {
  // Every call is a sequence of database steps, and the steps of any number of calls interleave;
  // the database adds a unique index and forward-only status triggers.

  import opened Text
  import opened Sequences
  import opened EffectiveConsent

  // ---- Rows -----------------------------------------------------------------

  datatype AuthorisationStatus = AUTHORISED | CONSUMED | EXPIRED
  datatype TransferStatus = RECORDED | DELIVERED | FAILED
  datatype Envelope = Envelope(ciphertext: string, iv: string, authTag: string, ephemeralPublicKey: string)

  /** A row's id is its position in its table. */
  datatype Authorisation = Authorisation(
    organisationId: string, siteId: string, principalId: string, purposeCode: string, recipientId: string,
    consentRecordId: string, nonce: string, status: AuthorisationStatus, expiresAt: int)

  datatype Transfer = Transfer(
    organisationId: string, authorisationId: nat, envelope: Envelope, digest: string, payloadBytes: nat,
    status: TransferStatus, deliveredAt: Option<int>)

  datatype Tables = Tables(authorisations: seq<Authorisation>, transfers: seq<Transfer>)

  /** Reference data, and the functions of an envelope that are not opened up here. */
  datatype Directory = Directory(
    sites: map<string, string>, principals: map<(string, string), string>, purposes: set<(string, string)>,
    recipients: map<(string, string), Recipient>,
    sealedShape: Envelope -> bool, size: Envelope -> nat, digest: Envelope -> string)

  datatype Recipient = Recipient(id: string, isActive: bool)

  const MAX_CIPHERTEXT_BYTES: nat := 256 * 1024

  // ---- What the database lets an update do ----------------------------------

  predicate MayBecome(old_: AuthorisationStatus, new_: AuthorisationStatus) {
    old_ == new_ || old_ == AUTHORISED
  }

  /** The trigger on authorisations: only the status moves, and only forwards. */
  function SetStatus(t: Tables, id: nat, status: AuthorisationStatus): Option<Tables> {
    if id < |t.authorisations| && MayBecome(t.authorisations[id].status, status)
    then Some(t.(authorisations := t.authorisations[id := t.authorisations[id].(status := status)]))
    else None
  }

  predicate HasTransfer(t: Tables, id: nat) {
    exists k :: 0 <= k < |t.transfers| && t.transfers[k].authorisationId == id
  }

  /** One transaction: insert under the unique `authorisation_id`, then consume. Either step undoes both. */
  function CommitTransfer(t: Tables, row: Transfer): Option<Tables> {
    if HasTransfer(t, row.authorisationId) then None
    else SetStatus(t.(transfers := t.transfers + [row]), row.authorisationId, CONSUMED)
  }

  /** The trigger on transfers: RECORDED moves on once, and a delivery time is written once. */
  function SetDelivered(t: Tables, k: nat, now: int): Option<Tables> {
    if k < |t.transfers| && t.transfers[k].status in {RECORDED, DELIVERED} && t.transfers[k].deliveredAt in {None, Some(now)}
    then Some(t.(transfers := t.transfers[k := t.transfers[k].(status := DELIVERED, deliveredAt := Some(now))]))
    else None
  }

  // ---- Deciding whether a transfer is permitted -----------------------------

  datatype Ask = Ask(organisationId: string, siteId: string, principalExternalId: string, purposeCode: string,
                     recipientCode: string, ttl: int, nonce: string)

  datatype Refusal = SiteNotFound | PrincipalNotFound | PurposeNotFound | NoConsentDecision | ConsentDenied
                   | ConsentWithdrawn | UnknownRecipient | NonceInUse

  datatype Ruling = Permitted(principalId: string, consentRecordId: string) | Refused(reason: Refusal)

  function LogOf(log: seq<Record>, site: string, principal: string): seq<Record> {
    Filter(log, (r: Record) => r.siteId == site && r.principalId == principal)
  }

  /** What the log says now about one principal and purpose. */
  function Rule(dir: Directory, log: seq<Record>, ask: Ask): Ruling {
    if ask.siteId !in dir.sites || dir.sites[ask.siteId] != ask.organisationId then Refused(SiteNotFound)
    else if (ask.siteId, ask.principalExternalId) !in dir.principals then Refused(PrincipalNotFound)
    else if (ask.organisationId, ask.purposeCode) !in dir.purposes then Refused(PurposeNotFound)
    else
      var principal := dir.principals[(ask.siteId, ask.principalExternalId)];
      match InForce(LogOf(log, ask.siteId, principal), ask.purposeCode)
      case None => Refused(NoConsentDecision)
      case Some(record) =>
        match record.status
        case GRANTED => Permitted(principal, record.id)
        case WITHDRAWN => Refused(ConsentWithdrawn)
        case DENIED => Refused(ConsentDenied)
  }

  lemma InForceIsListed(log: seq<Record>, effective: seq<Effective>, purpose: string)
    requires Resolves(log, effective)
    ensures InForce(log, purpose).Some? ==> exists e :: e in effective && e.purposeCode == purpose
  {
    if InForce(log, purpose).Some? {
      InForceIsGreatest(log, purpose);
      assert EffectiveOf(InForce(log, purpose).value) in effective;
    }
  }

  /** `evaluateAuthorisation`: reads only, and refuses with the first thing that is missing. */
  method EvaluateAuthorisation(dir: Directory, log: seq<Record>, ask: Ask) returns (ruling: Ruling)
    ensures ruling == Rule(dir, log, ask)
    ensures DistinctIds(log) ==> RulesRightly(dir, log, ask, ruling)
  {
    if DistinctIds(log) {
      RulingIs(dir, log, ask);
    }
    if ask.siteId !in dir.sites || dir.sites[ask.siteId] != ask.organisationId {
      return Refused(SiteNotFound);
    }
    if (ask.siteId, ask.principalExternalId) !in dir.principals {
      return Refused(PrincipalNotFound);
    }
    if (ask.organisationId, ask.purposeCode) !in dir.purposes {
      return Refused(PurposeNotFound);
    }
    var principal := dir.principals[(ask.siteId, ask.principalExternalId)];
    var mine := LogOf(log, ask.siteId, principal);
    var effective := ResolveEffectiveConsent(mine);
    for i := 0 to |effective|
      invariant forall j :: 0 <= j < i ==> effective[j].purposeCode != ask.purposeCode
    {
      if effective[i].purposeCode == ask.purposeCode {
        var decision := effective[i];
        assert decision in effective;
        match decision.status {
          case GRANTED => return Permitted(principal, decision.recordId);
          case WITHDRAWN => return Refused(ConsentWithdrawn);
          case DENIED => return Refused(ConsentDenied);
        }
      }
    }
    InForceIsListed(mine, effective, ask.purposeCode);
    return Refused(NoConsentDecision);
  }

  predicate About(r: Record, site: string, principal: string, purpose: string) {
    r.siteId == site && r.principalId == principal && r.purposeCode == purpose
  }

  /** A decision of this person on this purpose, which none of theirs on it outranks. */
  predicate Standing(read: seq<Record>, site: string, principal: string, purpose: string, r: Record) {
    r in read && About(r, site, principal, purpose) && forall s :: s in read && About(s, site, principal, purpose) ==> Precedes(s, r)
  }

  /** The record was the decision in force, and a grant, when the log was `read`. */
  predicate Justifies(read: seq<Record>, site: string, principal: string, purpose: string, recordId: string) {
    exists r :: r in read && r.id == recordId && r.status == GRANTED && Standing(read, site, principal, purpose, r)
  }

  lemma InForceIsStanding(log: seq<Record>, site: string, principal: string, purpose: string)
    ensures var r := InForce(LogOf(log, site, principal), purpose);
            && (r.None? <==> forall s :: s in log ==> !About(s, site, principal, purpose))
            && (r.Some? ==> Standing(log, site, principal, purpose, r.value))
  {
    var mine := LogOf(log, site, principal);
    InForceIsGreatest(mine, purpose);
    forall s ensures s in mine <==> s in log && s.siteId == site && s.principalId == principal {
      FilterMember(log, (x: Record) => x.siteId == site && x.principalId == principal, s);
    }
  }

  /** With record ids unique only one decision stands. */
  lemma StandingIsUnique(log: seq<Record>, site: string, principal: string, purpose: string, r: Record)
    requires DistinctIds(log) && Standing(log, site, principal, purpose, r)
    ensures InForce(LogOf(log, site, principal), purpose) == Some(r)
  {
    InForceIsStanding(log, site, principal, purpose);
    PrecedenceOrders();
  }

  predicate SiteIsTheirs(dir: Directory, ask: Ask) {
    ask.siteId in dir.sites && dir.sites[ask.siteId] == ask.organisationId
  }

  predicate PersonKnown(dir: Directory, ask: Ask) {
    (ask.siteId, ask.principalExternalId) in dir.principals
  }

  predicate PurposeKnown(dir: Directory, ask: Ask) {
    (ask.organisationId, ask.purposeCode) in dir.purposes
  }

  predicate AllKnown(dir: Directory, ask: Ask) {
    SiteIsTheirs(dir, ask) && PersonKnown(dir, ask) && PurposeKnown(dir, ask)
  }

  /** The person asked about has decided on the purpose, and the decision that stands says this. */
  predicate Decided(dir: Directory, log: seq<Record>, ask: Ask, status: Status)
    requires PersonKnown(dir, ask)
  {
    var principal := dir.principals[(ask.siteId, ask.principalExternalId)];
    exists r :: r in log && Standing(log, ask.siteId, principal, ask.purposeCode, r) && r.status == status
  }

  predicate NeverDecided(dir: Directory, log: seq<Record>, ask: Ask)
    requires PersonKnown(dir, ask)
  {
    var principal := dir.principals[(ask.siteId, ask.principalExternalId)];
    forall s :: s in log ==> !About(s, ask.siteId, principal, ask.purposeCode)
  }

  /** Each answer under its own condition, and under no other. */
  predicate RulesRightly(dir: Directory, log: seq<Record>, ask: Ask, ruling: Ruling) {
    && (ruling == Refused(SiteNotFound) <==> !SiteIsTheirs(dir, ask))
    && (ruling == Refused(PrincipalNotFound) <==> SiteIsTheirs(dir, ask) && !PersonKnown(dir, ask))
    && (ruling == Refused(PurposeNotFound) <==> SiteIsTheirs(dir, ask) && PersonKnown(dir, ask) && !PurposeKnown(dir, ask))
    && (ruling == Refused(NoConsentDecision) <==> AllKnown(dir, ask) && NeverDecided(dir, log, ask))
    && (ruling == Refused(ConsentDenied) <==> AllKnown(dir, ask) && Decided(dir, log, ask, DENIED))
    && (ruling == Refused(ConsentWithdrawn) <==> AllKnown(dir, ask) && Decided(dir, log, ask, WITHDRAWN))
    && (ruling.Permitted? <==> AllKnown(dir, ask) && Decided(dir, log, ask, GRANTED))
    && (ruling.Permitted? ==>
          && ruling.principalId == dir.principals[(ask.siteId, ask.principalExternalId)]
          && Justifies(log, ask.siteId, ruling.principalId, ask.purposeCode, ruling.consentRecordId))
  }

  /** What is ruled follows from who and what is known and from the one decision that stands. */
  lemma RulingIs(dir: Directory, log: seq<Record>, ask: Ask)
    requires DistinctIds(log)
    ensures RulesRightly(dir, log, ask, Rule(dir, log, ask))
  {
    PermittedMeansJustified(dir, log, ask);
    if AllKnown(dir, ask) {
      var principal := dir.principals[(ask.siteId, ask.principalExternalId)];
      InForceIsStanding(log, ask.siteId, principal, ask.purposeCode);
      forall r | Standing(log, ask.siteId, principal, ask.purposeCode, r)
        ensures InForce(LogOf(log, ask.siteId, principal), ask.purposeCode) == Some(r)
      {
        StandingIsUnique(log, ask.siteId, principal, ask.purposeCode, r);
      }
    }
  }

  /** Permission means a grant stands, and nothing recorded outranks it. */
  lemma PermittedMeansJustified(dir: Directory, log: seq<Record>, ask: Ask)
    ensures Rule(dir, log, ask).Permitted? ==>
              var ruling := Rule(dir, log, ask);
              && dir.sites.Items >= {(ask.siteId, ask.organisationId)}
              && Justifies(log, ask.siteId, ruling.principalId, ask.purposeCode, ruling.consentRecordId)
  {
    if Rule(dir, log, ask).Permitted? {
      var principal := dir.principals[(ask.siteId, ask.principalExternalId)];
      InForceIsStanding(log, ask.siteId, principal, ask.purposeCode);
    }
  }

  // ---- Calls and steps ------------------------------------------------------

  /** `readAt` and `mintedAt` are how long the log was when the call read it and when it minted: kept for the proofs only. */
  datatype AuthorisePc =
    | Asking | MayMint(principalId: string, recipientId: string, consentRecordId: string, readAt: nat)
    | Minted(id: nat, readAt: nat, mintedAt: nat) | Denied(reason: Refusal)

  datatype Submission = Submission(organisationId: string, authorisationId: nat, nonce: string, envelope: Envelope)

  datatype RecordPc =
    | Arrived | HasRow(row: Authorisation) | MustExpire(row: Authorisation) | MayCommit(row: Authorisation, checkedAt: int)
    | Stored(index: nat, checkedAt: int) | InvalidEnvelope | NotFound | Consumed | Expired | Conflict | Threw

  datatype CollectPc = Waiting | Holding(row: Transfer) | Collected(envelope: Envelope) | Missing | Failed

  /** `arrivedAt` is how long the log was when the call began, again for the proofs only. */
  datatype Call =
    | Authorise(ask: Ask, arrivedAt: nat, apc: AuthorisePc)
    | Submit(submission: Submission, rpc: RecordPc)
    | Collect(recipientId: string, transferId: nat, cpc: CollectPc)

  datatype State = State(log: seq<Record>, tables: Tables, calls: map<nat, Call>, clock: int)

  /** Time passes, a decision is recorded, a call arrives, a call takes its next step, a commit is refused. */
  datatype Action = Tick(to: int) | Decide(record: Record) | Begin(id: nat, call: Call) | Advance(id: nat) | Refuse(id: nat)

  predicate JustArrived(call: Call) {
    match call
    case Authorise(_, _, pc) => pc.Asking?
    case Submit(_, pc) => pc.Arrived?
    case Collect(_, _, pc) => pc.Waiting?
  }

  function Arriving(s: State, call: Call): Call {
    if call.Authorise? then call.(arrivedAt := |s.log|) else call
  }

  function Step(dir: Directory, s: State, a: Action): State {
    match a
    case Tick(to) => if to < s.clock then s else s.(clock := to)
    case Decide(record) =>
      if exists r :: r in s.log && r.id == record.id then s else s.(log := s.log + [record])
    case Begin(id, call) => if id in s.calls || !JustArrived(call) then s else s.(calls := s.calls[id := Arriving(s, call)])
    case Advance(id) =>
      if id !in s.calls then s
      else
        var (tables, call) := Next(dir, s, s.calls[id]);
        s.(tables := tables, calls := s.calls[id := call])
    case Refuse(id) =>
      if id in s.calls && s.calls[id].Submit? && s.calls[id].rpc.MayCommit?
      then s.(calls := s.calls[id := s.calls[id].(rpc := Conflict)]) else s
  }

  function Next(dir: Directory, s: State, call: Call): (Tables, Call) {
    match call
    case Authorise(_, _, _) => NextAuthorise(dir, s, call)
    case Submit(submission, _) => NextSubmit(dir, s, call)
    case Collect(_, _, _) => NextCollect(s, call)
  }

  function NextAuthorise(dir: Directory, s: State, call: Call): (Tables, Call)
    requires call.Authorise?
  {
    var ask := call.ask;
    match call.apc
    case Asking =>
      var ruling := Rule(dir, s.log, ask);
      var key := (ask.organisationId, ask.recipientCode);
      (s.tables, call.(apc :=
        if ruling.Refused? then Denied(ruling.reason)
        else if key !in dir.recipients || !dir.recipients[key].isActive then Denied(UnknownRecipient)
        else MayMint(ruling.principalId, dir.recipients[key].id, ruling.consentRecordId, |s.log|)))
    case MayMint(principalId, recipientId, consentRecordId, readAt) =>
      if NonceUsed(s.tables, ask.nonce) then (s.tables, call.(apc := Denied(NonceInUse)))
      else
        var row := Authorisation(ask.organisationId, ask.siteId, principalId, ask.purposeCode, recipientId,
                                 consentRecordId, ask.nonce, AUTHORISED, s.clock + ask.ttl);
        (s.tables.(authorisations := s.tables.authorisations + [row]), call.(apc := Minted(|s.tables.authorisations|, readAt, |s.log|)))
    case _ => (s.tables, call)
  }

  predicate NonceUsed(t: Tables, nonce: string) {
    exists i :: 0 <= i < |t.authorisations| && t.authorisations[i].nonce == nonce
  }

  predicate Acceptable(dir: Directory, envelope: Envelope) {
    dir.sealedShape(envelope) && 0 < dir.size(envelope) <= MAX_CIPHERTEXT_BYTES
  }

  function Look(dir: Directory, t: Tables, input: Submission): RecordPc {
    if !Acceptable(dir, input.envelope) then InvalidEnvelope
    else if input.authorisationId >= |t.authorisations| then NotFound
    else
      var row := t.authorisations[input.authorisationId];
      if row.organisationId != input.organisationId || row.nonce != input.nonce then NotFound
      else if row.status == CONSUMED then Consumed
      else HasRow(row)
  }

  function NewTransfer(dir: Directory, input: Submission): Transfer {
    Transfer(input.organisationId, input.authorisationId, input.envelope, dir.digest(input.envelope),
             dir.size(input.envelope), RECORDED, None)
  }

  function NextSubmit(dir: Directory, s: State, call: Call): (Tables, Call)
    requires call.Submit?
  {
    var input := call.submission;
    match call.rpc
    case Arrived => (s.tables, call.(rpc := Look(dir, s.tables, input)))
    case HasRow(row) =>
      (s.tables, call.(rpc := if row.status == EXPIRED then Expired
                              else if row.expiresAt <= s.clock then MustExpire(row)
                              else MayCommit(row, s.clock)))
    case MustExpire(row) =>
      (match SetStatus(s.tables, input.authorisationId, EXPIRED)
       case Some(t) => (t, call.(rpc := Expired))
       case None => (s.tables, call.(rpc := Threw)))
    case MayCommit(row, checkedAt) =>
      (match CommitTransfer(s.tables, NewTransfer(dir, input))
       case Some(t) => (t, call.(rpc := Stored(|s.tables.transfers|, checkedAt)))
       case None => (s.tables, call.(rpc := Conflict)))
    case _ => (s.tables, call)
  }

  function NextCollect(s: State, call: Call): (Tables, Call)
    requires call.Collect?
  {
    var t := s.tables;
    match call.cpc
    case Waiting =>
      (t, call.(cpc :=
        if call.transferId < |t.transfers| && t.transfers[call.transferId].authorisationId < |t.authorisations|
           && t.authorisations[t.transfers[call.transferId].authorisationId].recipientId == call.recipientId
        then Holding(t.transfers[call.transferId]) else Missing))
    case Holding(row) =>
      if row.status == DELIVERED then (t, call.(cpc := Collected(row.envelope)))
      else (match SetDelivered(t, call.transferId, s.clock)
            case Some(after) => (after, call.(cpc := Collected(row.envelope)))
            case None => (t, call.(cpc := Failed)))
    case _ => (t, call)
  }

  function Run(dir: Directory, s: State, actions: seq<Action>): State {
    if actions == [] then s else Step(dir, Run(dir, s, actions[..|actions| - 1]), actions[|actions| - 1])
  }

  predicate Initial(s: State) {
    s.log == [] && s.tables == Tables([], []) && s.calls == map[]
  }

  // ---- How the tables may move ----------------------------------------------

  predicate AuthorisationAdvances(a: Authorisation, b: Authorisation) {
    b == a.(status := b.status) && MayBecome(a.status, b.status)
  }

  predicate TransferAdvances(a: Transfer, b: Transfer) {
    && b == a.(status := b.status, deliveredAt := b.deliveredAt)
    && (a.status == b.status || a.status == RECORDED)
    && (a.deliveredAt.Some? ==> b.deliveredAt == a.deliveredAt)
  }

  /** No row disappears, none is rewritten, and statuses only move forwards. */
  predicate Advances(t: Tables, u: Tables) {
    && |t.authorisations| <= |u.authorisations| && |t.transfers| <= |u.transfers|
    && (forall i :: 0 <= i < |t.authorisations| ==> AuthorisationAdvances(t.authorisations[i], u.authorisations[i]))
    && (forall k :: 0 <= k < |t.transfers| ==> TransferAdvances(t.transfers[k], u.transfers[k]))
  }

  // ---- The invariant --------------------------------------------------------

  predicate TransferOk(t: Tables, k: nat)
    requires k < |t.transfers|
  {
    var row := t.transfers[k];
    && row.authorisationId < |t.authorisations|
    && t.authorisations[row.authorisationId].status == CONSUMED
    && t.authorisations[row.authorisationId].organisationId == row.organisationId
    && (row.status == DELIVERED <==> row.deliveredAt.Some?)
  }

  /** At most one transfer per authorisation, and CONSUMED exactly when there is one. */
  predicate TablesOk(t: Tables) {
    && (forall k :: 0 <= k < |t.transfers| ==> TransferOk(t, k))
    && (forall i, j :: 0 <= i < j < |t.transfers| ==> t.transfers[i].authorisationId != t.transfers[j].authorisationId)
    && (forall i :: 0 <= i < |t.authorisations| && t.authorisations[i].status == CONSUMED ==> HasTransfer(t, i))
    && (forall i, j :: 0 <= i < j < |t.authorisations| ==> t.authorisations[i].nonce != t.authorisations[j].nonce)
  }

  predicate ExpiredInTime(clock: int, a: Authorisation) {
    a.status == EXPIRED ==> a.expiresAt <= clock
  }

  /** The record is the effective grant of the log's first `readAt` entries, a reading taken after the call began. */
  predicate ReadAsEffective(log: seq<Record>, arrivedAt: nat, readAt: nat, site: string, principal: string, purpose: string, recordId: string) {
    arrivedAt <= readAt <= |log| && Justifies(log[..readAt], site, principal, purpose, recordId)
  }

  /** The row this call minted: what it asked for, on the grant that was effective when the call read the log. */
  predicate MintedOn(log: seq<Record>, t: Tables, ask: Ask, arrivedAt: nat, id: nat, readAt: nat, mintedAt: nat) {
    && id < |t.authorisations| && arrivedAt <= readAt <= mintedAt <= |log|
    && var a := t.authorisations[id];
       && a.organisationId == ask.organisationId && a.siteId == ask.siteId && a.purposeCode == ask.purposeCode && a.nonce == ask.nonce
       && ReadAsEffective(log, arrivedAt, readAt, a.siteId, a.principalId, a.purposeCode, a.consentRecordId)
  }

  /** A row read earlier, seen against the table now. */
  predicate SeenEarlier(t: Tables, input: Submission, row: Authorisation) {
    && input.authorisationId < |t.authorisations|
    && AuthorisationAdvances(row, t.authorisations[input.authorisationId])
    && row.organisationId == input.organisationId && row.nonce == input.nonce
  }

  /** The transfer this submission stored. */
  predicate StoredFor(dir: Directory, t: Tables, input: Submission, k: nat) {
    && k < |t.transfers| && input.authorisationId < |t.authorisations|
    && TransferAdvances(NewTransfer(dir, input), t.transfers[k])
    && t.authorisations[input.authorisationId].organisationId == input.organisationId
    && t.authorisations[input.authorisationId].nonce == input.nonce
    && Acceptable(dir, input.envelope)
  }

  /** The recipient the transfer's authorisation names, holding that transfer's envelope. */
  predicate AddressedTo(t: Tables, recipientId: string, k: nat, envelope: Envelope) {
    && k < |t.transfers| && t.transfers[k].authorisationId < |t.authorisations|
    && t.authorisations[t.transfers[k].authorisationId].recipientId == recipientId
    && t.transfers[k].envelope == envelope
  }

  ghost predicate CallOk(dir: Directory, s: State, call: Call) {
    match call
    case Authorise(ask, arrivedAt, pc) =>
      && arrivedAt <= |s.log|
      && (pc.MayMint? ==> ReadAsEffective(s.log, arrivedAt, pc.readAt, ask.siteId, pc.principalId, ask.purposeCode, pc.consentRecordId))
      && (pc.Minted? ==> MintedOn(s.log, s.tables, ask, arrivedAt, pc.id, pc.readAt, pc.mintedAt))
    case Submit(input, pc) =>
      && (pc.HasRow? ==> SeenEarlier(s.tables, input, pc.row) && Acceptable(dir, input.envelope))
      && (pc.MustExpire? ==> SeenEarlier(s.tables, input, pc.row) && pc.row.expiresAt <= s.clock)
      && (pc.MayCommit? ==> SeenEarlier(s.tables, input, pc.row) && Acceptable(dir, input.envelope)
                            && pc.checkedAt < pc.row.expiresAt && pc.checkedAt <= s.clock)
      && (pc.Stored? ==> StoredFor(dir, s.tables, input, pc.index)
                         && pc.checkedAt < s.tables.authorisations[input.authorisationId].expiresAt)
    case Collect(recipientId, k, pc) =>
      && (pc.Holding? ==> AddressedTo(s.tables, recipientId, k, pc.row.envelope) && TransferAdvances(pc.row, s.tables.transfers[k]))
      && (pc.Collected? ==> AddressedTo(s.tables, recipientId, k, pc.envelope) && s.tables.transfers[k].status == DELIVERED)
  }

  predicate SubmittedBy(s: State, id: nat, k: nat) {
    id in s.calls && s.calls[id].Submit? && s.calls[id].rpc.Stored? && s.calls[id].rpc.index == k
  }

  ghost predicate HasSubmitter(s: State, k: nat) {
    exists id :: SubmittedBy(s, id, k)
  }

  predicate MintedBy(s: State, id: nat, i: nat) {
    id in s.calls && s.calls[id].Authorise? && s.calls[id].apc.Minted? && s.calls[id].apc.id == i
  }

  ghost predicate HasMinter(s: State, i: nat) {
    exists id :: MintedBy(s, id, i)
  }

  /** Each authorisation was minted by one call. */
  ghost predicate MintsOk(s: State) {
    && (forall i: nat :: i < |s.tables.authorisations| ==> HasMinter(s, i))
    && (forall c: nat, d: nat, i: nat :: MintedBy(s, c, i) && MintedBy(s, d, i) ==> c == d)
  }

  ghost predicate Inv(dir: Directory, s: State) {
    && TablesOk(s.tables) && MintsOk(s)
    && (forall i :: 0 <= i < |s.tables.authorisations| ==> ExpiredInTime(s.clock, s.tables.authorisations[i]))
    && (forall id :: id in s.calls ==> CallOk(dir, s, s.calls[id]))
    && (forall k: nat :: k < |s.tables.transfers| ==> HasSubmitter(s, k))
    && (forall c: nat, d: nat, k: nat :: SubmittedBy(s, c, k) && SubmittedBy(s, d, k) ==> c == d)
  }

  // ---- Every step moves forwards --------------------------------------------

  /** `t` is a later state than `s`: the log grew, rows moved forwards, time did not go back. */
  predicate Later(s: State, t: State) {
    s.log <= t.log && Advances(s.tables, t.tables) && s.clock <= t.clock
  }

  lemma AdvancesTransitive(t: Tables, u: Tables, v: Tables)
    requires Advances(t, u) && Advances(u, v)
    ensures Advances(t, v)
  {
    forall i | 0 <= i < |t.authorisations| ensures AuthorisationAdvances(t.authorisations[i], v.authorisations[i]) {
      assert AuthorisationAdvances(u.authorisations[i], v.authorisations[i]);
    }
    forall k | 0 <= k < |t.transfers| ensures TransferAdvances(t.transfers[k], v.transfers[k]) {
      assert TransferAdvances(u.transfers[k], v.transfers[k]);
    }
  }

  lemma MintKeeps(t: Tables, row: Authorisation)
    requires TablesOk(t) && row.status == AUTHORISED && !NonceUsed(t, row.nonce)
    ensures TablesOk(t.(authorisations := t.authorisations + [row]))
    ensures Advances(t, t.(authorisations := t.authorisations + [row]))
  {
    var u := t.(authorisations := t.authorisations + [row]);
    forall k | 0 <= k < |u.transfers| ensures TransferOk(u, k) {
      assert TransferOk(t, k);
    }
    forall i | 0 <= i < |u.authorisations| && u.authorisations[i].status == CONSUMED ensures HasTransfer(u, i) {
      assert HasTransfer(t, i);
    }
  }

  lemma ExpireKeeps(t: Tables, id: nat)
    requires TablesOk(t) && SetStatus(t, id, EXPIRED).Some?
    ensures TablesOk(SetStatus(t, id, EXPIRED).value)
    ensures Advances(t, SetStatus(t, id, EXPIRED).value)
  {
    var u := SetStatus(t, id, EXPIRED).value;
    forall k | 0 <= k < |u.transfers| ensures TransferOk(u, k) {
      assert TransferOk(t, k);
    }
    forall i | 0 <= i < |u.authorisations| && u.authorisations[i].status == CONSUMED ensures HasTransfer(u, i) {
      assert HasTransfer(t, i);
    }
  }

  lemma CommitKeeps(t: Tables, row: Transfer)
    requires TablesOk(t) && CommitTransfer(t, row).Some?
    requires row.authorisationId < |t.authorisations| && t.authorisations[row.authorisationId].organisationId == row.organisationId
    requires row.status == RECORDED && row.deliveredAt == None
    ensures TablesOk(CommitTransfer(t, row).value)
    ensures Advances(t, CommitTransfer(t, row).value)
  {
    var u := CommitTransfer(t, row).value;
    forall k | 0 <= k < |u.transfers| ensures TransferOk(u, k) {
      assert k < |t.transfers| ==> TransferOk(t, k);
    }
    forall i | 0 <= i < |u.authorisations| && u.authorisations[i].status == CONSUMED ensures HasTransfer(u, i) {
      if i == row.authorisationId {
        assert u.transfers[|t.transfers|].authorisationId == i;
      } else {
        assert HasTransfer(t, i);
        var k :| 0 <= k < |t.transfers| && t.transfers[k].authorisationId == i;
        assert u.transfers[k].authorisationId == i;
      }
    }
  }

  lemma DeliverKeeps(t: Tables, k: nat, now: int)
    requires TablesOk(t) && SetDelivered(t, k, now).Some?
    ensures TablesOk(SetDelivered(t, k, now).value)
    ensures Advances(t, SetDelivered(t, k, now).value)
  {
    var u := SetDelivered(t, k, now).value;
    assert TransferOk(t, k);
    forall j | 0 <= j < |u.transfers| ensures TransferOk(u, j) {
      assert TransferOk(t, j);
    }
    forall i | 0 <= i < |u.authorisations| && u.authorisations[i].status == CONSUMED ensures HasTransfer(u, i) {
      assert HasTransfer(t, i);
      var j :| 0 <= j < |t.transfers| && t.transfers[j].authorisationId == i;
      assert u.transfers[j].authorisationId == i;
    }
  }

  lemma AuthoriseKeepsTables(dir: Directory, s: State, call: Call)
    requires TablesOk(s.tables) && call.Authorise?
    ensures TablesOk(NextAuthorise(dir, s, call).0) && Advances(s.tables, NextAuthorise(dir, s, call).0)
  {
    AdvancesReflexive(s.tables);
    var ask, pc := call.ask, call.apc;
    if pc.MayMint? && !NonceUsed(s.tables, ask.nonce) {
      MintKeeps(s.tables, Authorisation(ask.organisationId, ask.siteId, pc.principalId, ask.purposeCode, pc.recipientId,
                                        pc.consentRecordId, ask.nonce, AUTHORISED, s.clock + ask.ttl));
    }
  }

  lemma SubmitKeepsTables(dir: Directory, s: State, call: Call)
    requires TablesOk(s.tables) && call.Submit? && CallOk(dir, s, call)
    ensures TablesOk(NextSubmit(dir, s, call).0) && Advances(s.tables, NextSubmit(dir, s, call).0)
  {
    AdvancesReflexive(s.tables);
    var input, pc := call.submission, call.rpc;
    if pc.MustExpire? && SetStatus(s.tables, input.authorisationId, EXPIRED).Some? {
      ExpireKeeps(s.tables, input.authorisationId);
    }
    if pc.MayCommit? && CommitTransfer(s.tables, NewTransfer(dir, input)).Some? {
      CommitKeeps(s.tables, NewTransfer(dir, input));
    }
  }

  lemma CollectKeepsTables(s: State, call: Call)
    requires TablesOk(s.tables) && call.Collect?
    ensures TablesOk(NextCollect(s, call).0) && Advances(s.tables, NextCollect(s, call).0)
  {
    AdvancesReflexive(s.tables);
    if call.cpc.Holding? && SetDelivered(s.tables, call.transferId, s.clock).Some? {
      DeliverKeeps(s.tables, call.transferId, s.clock);
    }
  }

  /** Whatever a call does next, the tables stay well formed and only move forwards. */
  lemma NextKeepsTables(dir: Directory, s: State, call: Call)
    requires TablesOk(s.tables) && CallOk(dir, s, call)
    ensures TablesOk(Next(dir, s, call).0) && Advances(s.tables, Next(dir, s, call).0)
  {
    match call
    case Authorise(_, _, _) => AuthoriseKeepsTables(dir, s, call);
    case Submit(_, _) => SubmitKeepsTables(dir, s, call);
    case Collect(_, _, _) => CollectKeepsTables(s, call);
  }

  lemma AuthoriseOkLater(s: State, t: State, ask: Ask, arrivedAt: nat, pc: AuthorisePc)
    requires Later(s, t)
    ensures pc.MayMint? && ReadAsEffective(s.log, arrivedAt, pc.readAt, ask.siteId, pc.principalId, ask.purposeCode, pc.consentRecordId)
            ==> ReadAsEffective(t.log, arrivedAt, pc.readAt, ask.siteId, pc.principalId, ask.purposeCode, pc.consentRecordId)
    ensures pc.Minted? && MintedOn(s.log, s.tables, ask, arrivedAt, pc.id, pc.readAt, pc.mintedAt)
            ==> MintedOn(t.log, t.tables, ask, arrivedAt, pc.id, pc.readAt, pc.mintedAt)
  {
    if pc.MayMint? && pc.readAt <= |s.log| {
      assert t.log[..pc.readAt] == s.log[..pc.readAt];
    }
    if pc.Minted? && pc.readAt <= |s.log| && pc.id < |s.tables.authorisations| {
      assert t.log[..pc.readAt] == s.log[..pc.readAt];
      assert AuthorisationAdvances(s.tables.authorisations[pc.id], t.tables.authorisations[pc.id]);
    }
  }

  /** What a call has learnt stays true while others act. */
  lemma CallOkLater(dir: Directory, s: State, t: State, call: Call)
    requires CallOk(dir, s, call) && Later(s, t)
    ensures CallOk(dir, t, call)
  {
    match call
    case Authorise(ask, arrivedAt, pc) =>
      AuthoriseOkLater(s, t, ask, arrivedAt, pc);
    case Submit(input, pc) =>
      if pc.HasRow? || pc.MustExpire? || pc.MayCommit? {
        assert AuthorisationAdvances(s.tables.authorisations[input.authorisationId], t.tables.authorisations[input.authorisationId]);
      }
      if pc.Stored? {
        assert AuthorisationAdvances(s.tables.authorisations[input.authorisationId], t.tables.authorisations[input.authorisationId]);
        assert TransferAdvances(s.tables.transfers[pc.index], t.tables.transfers[pc.index]);
      }
    case Collect(_, k, pc) =>
      if pc.Holding? || pc.Collected? {
        assert TransferAdvances(s.tables.transfers[k], t.tables.transfers[k]);
        var i := s.tables.transfers[k].authorisationId;
        assert AuthorisationAdvances(s.tables.authorisations[i], t.tables.authorisations[i]);
      }
  }

  lemma AuthoriseIsOk(dir: Directory, s: State, call: Call, t: State)
    requires call.Authorise? && t.log == s.log && t.tables == NextAuthorise(dir, s, call).0
    requires CallOk(dir, t, call)
    ensures CallOk(dir, t, NextAuthorise(dir, s, call).1)
  {
    if call.apc.Asking? {
      PermittedMeansJustified(dir, s.log, call.ask);
      assert s.log[..|s.log|] == s.log;
    }
    if call.apc.MayMint? && !NonceUsed(s.tables, call.ask.nonce) {
      var i := |s.tables.authorisations|;
      assert NextAuthorise(dir, s, call).0.authorisations[i].consentRecordId == call.apc.consentRecordId;
    }
  }

  lemma SubmitIsOk(dir: Directory, s: State, call: Call, t: State)
    requires call.Submit? && TablesOk(s.tables) && CallOk(dir, s, call)
    requires t.log == s.log && t.clock == s.clock && t.tables == NextSubmit(dir, s, call).0
    requires CallOk(dir, t, call)
    ensures CallOk(dir, t, NextSubmit(dir, s, call).1)
  {
  }

  lemma CollectIsOk(dir: Directory, s: State, call: Call, t: State)
    requires call.Collect? && TablesOk(s.tables) && CallOk(dir, s, call)
    requires t.tables == NextCollect(s, call).0
    ensures CallOk(dir, t, NextCollect(s, call).1)
  {
    var k := call.transferId;
    if (call.cpc.Waiting? || call.cpc.Holding?) && k < |s.tables.transfers| {
      assert TransferOk(s.tables, k);
    }
    if call.cpc.Collected? {
      assert CallOk(dir, t, call);
    }
  }

  /** A call's own step leaves it knowing what its new place requires. */
  lemma NextIsOk(dir: Directory, s: State, call: Call, t: State)
    requires TablesOk(s.tables) && CallOk(dir, s, call)
    requires t.log == s.log && t.clock == s.clock && t.tables == Next(dir, s, call).0
    ensures CallOk(dir, t, Next(dir, s, call).1)
  {
    NextKeepsTables(dir, s, call);
    CallOkLater(dir, s, t, call);
    match call
    case Authorise(_, _, _) => AuthoriseIsOk(dir, s, call, t);
    case Submit(_, _) => SubmitIsOk(dir, s, call, t);
    case Collect(_, _, _) => CollectIsOk(dir, s, call, t);
  }

  lemma RowsExpireInTime(dir: Directory, s: State, call: Call, t: State)
    requires TablesOk(s.tables) && CallOk(dir, s, call)
    requires forall i :: 0 <= i < |s.tables.authorisations| ==> ExpiredInTime(s.clock, s.tables.authorisations[i])
    requires t.clock == s.clock && t.tables == Next(dir, s, call).0
    ensures forall i :: 0 <= i < |t.tables.authorisations| ==> ExpiredInTime(t.clock, t.tables.authorisations[i])
  {
    match call
    case Authorise(_, _, _) =>
    case Submit(_, _) =>
    case Collect(_, _, _) =>
  }

  /** An authorisation enters the table only with the call that minted it. */
  lemma NextMints(dir: Directory, s: State, call: Call)
    ensures var (tables, next) := Next(dir, s, call);
            && |s.tables.authorisations| <= |tables.authorisations| <= |s.tables.authorisations| + 1
            && (|tables.authorisations| > |s.tables.authorisations| <==>
                  next.Authorise? && next.apc.Minted? && next.apc.id == |s.tables.authorisations| && call.Authorise? && call.apc.MayMint?)
            && (call.Authorise? && call.apc.Minted? ==> next == call)
            && (next.Authorise? && next.apc.Minted? ==> next == call || |tables.authorisations| > |s.tables.authorisations|)
  {
  }

  lemma AdvanceKeepsMints(dir: Directory, s: State, id: nat, t: State)
    requires Inv(dir, s) && id in s.calls && t == Step(dir, s, Advance(id))
    ensures MintsOk(t)
  {
    NextMints(dir, s, s.calls[id]);
    forall i: nat | i < |t.tables.authorisations| ensures HasMinter(t, i) {
      if i < |s.tables.authorisations| {
        assert HasMinter(s, i);
        var c :| MintedBy(s, c, i);
        assert MintedBy(t, c, i);
      } else {
        assert MintedBy(t, id, i);
      }
    }
    forall c: nat, d: nat, i: nat | MintedBy(t, c, i) && MintedBy(t, d, i) ensures c == d {
      if i < |s.tables.authorisations| {
        assert MintedBy(s, c, i) && MintedBy(s, d, i);
      } else {
        NotMintedYet(dir, s, c, i);
        NotMintedYet(dir, s, d, i);
      }
    }
  }

  lemma NotMintedYet(dir: Directory, s: State, c: nat, i: nat)
    requires Inv(dir, s) && i >= |s.tables.authorisations|
    ensures !MintedBy(s, c, i)
  {
    if c in s.calls {
      assert CallOk(dir, s, s.calls[c]);
    }
  }

  /** A transfer enters the table only with the call that stored it. */
  lemma NextAuthorship(dir: Directory, s: State, call: Call)
    ensures var (tables, next) := Next(dir, s, call);
            && |s.tables.transfers| <= |tables.transfers| <= |s.tables.transfers| + 1
            && (|tables.transfers| > |s.tables.transfers| <==>
                  next.Submit? && next.rpc.Stored? && next.rpc.index == |s.tables.transfers| && call.Submit? && call.rpc.MayCommit?)
            && (call.Submit? && call.rpc.Stored? ==> next == call)
            && (next.Submit? && next.rpc.Stored? ==> next == call || |tables.transfers| > |s.tables.transfers|)
  {
  }

  lemma AdvanceKeepsInv(dir: Directory, s: State, id: nat)
    requires Inv(dir, s) && id in s.calls
    ensures Inv(dir, Step(dir, s, Advance(id))) && Later(s, Step(dir, s, Advance(id)))
  {
    var call := s.calls[id];
    var t := Step(dir, s, Advance(id));
    var next := Next(dir, s, call).1;
    assert t == s.(tables := Next(dir, s, call).0, calls := s.calls[id := next]);
    NextKeepsTables(dir, s, call);
    NextIsOk(dir, s, call, t);
    RowsExpireInTime(dir, s, call, t);
    forall c | c in t.calls ensures CallOk(dir, t, t.calls[c]) {
      if c != id {
        CallOkLater(dir, s, t, s.calls[c]);
      }
    }
    AdvanceKeepsAuthorship(dir, s, id, t);
    AdvanceKeepsMints(dir, s, id, t);
  }

  lemma AdvanceKeepsAuthorship(dir: Directory, s: State, id: nat, t: State)
    requires Inv(dir, s) && id in s.calls && t == Step(dir, s, Advance(id))
    ensures forall k: nat :: k < |t.tables.transfers| ==> HasSubmitter(t, k)
    ensures forall c: nat, d: nat, k: nat :: SubmittedBy(t, c, k) && SubmittedBy(t, d, k) ==> c == d
  {
    NextAuthorship(dir, s, s.calls[id]);
    forall k: nat | k < |t.tables.transfers| ensures HasSubmitter(t, k) {
      if k < |s.tables.transfers| {
        assert HasSubmitter(s, k);
        var c :| SubmittedBy(s, c, k);
        assert SubmittedBy(t, c, k);
      } else {
        assert SubmittedBy(t, id, k);
      }
    }
    forall c: nat, d: nat, k: nat | SubmittedBy(t, c, k) && SubmittedBy(t, d, k) ensures c == d {
      if k < |s.tables.transfers| {
        assert SubmittedBy(s, c, k) && SubmittedBy(s, d, k);
      } else {
        NotStoredYet(dir, s, c, k);
        NotStoredYet(dir, s, d, k);
      }
    }
  }

  lemma NotStoredYet(dir: Directory, s: State, c: nat, k: nat)
    requires Inv(dir, s) && k >= |s.tables.transfers|
    ensures !SubmittedBy(s, c, k)
  {
    if c in s.calls {
      assert CallOk(dir, s, s.calls[c]);
    }
  }

  lemma StepKeepsInv(dir: Directory, s: State, a: Action)
    requires Inv(dir, s)
    ensures Inv(dir, Step(dir, s, a)) && Later(s, Step(dir, s, a))
  {
    var t := Step(dir, s, a);
    if a.Advance? && a.id in s.calls {
      AdvanceKeepsInv(dir, s, a.id);
    } else {
      assert Later(s, t) && t.tables == s.tables;
      OthersKeepInv(dir, s, a, t);
    }
  }

  lemma OthersKeepInv(dir: Directory, s: State, a: Action, t: State)
    requires Inv(dir, s) && t == Step(dir, s, a) && Later(s, t) && t.tables == s.tables
    requires a.Advance? ==> t == s
    ensures Inv(dir, t)
  {
    forall c | c in t.calls ensures CallOk(dir, t, t.calls[c]) {
      if c in s.calls && t.calls[c] == s.calls[c] {
        CallOkLater(dir, s, t, s.calls[c]);
      }
    }
    forall c: nat, k: nat ensures SubmittedBy(t, c, k) <==> SubmittedBy(s, c, k) {
    }
    SameSubmitters(s, t);
    forall c: nat, i: nat ensures MintedBy(t, c, i) <==> MintedBy(s, c, i) {
    }
    SameMinters(s, t);
  }

  lemma SameMinters(s: State, t: State)
    requires t.tables == s.tables && MintsOk(s)
    requires forall c: nat, i: nat :: MintedBy(t, c, i) <==> MintedBy(s, c, i)
    ensures MintsOk(t)
  {
    forall i: nat | i < |t.tables.authorisations| ensures HasMinter(t, i) {
      assert HasMinter(s, i);
      var c :| MintedBy(s, c, i);
      assert MintedBy(t, c, i);
    }
  }

  lemma SameSubmitters(s: State, t: State)
    requires t.tables == s.tables && forall c: nat, k: nat :: SubmittedBy(t, c, k) <==> SubmittedBy(s, c, k)
    requires forall k: nat :: k < |s.tables.transfers| ==> HasSubmitter(s, k)
    ensures forall k: nat :: k < |t.tables.transfers| ==> HasSubmitter(t, k)
  {
    forall k: nat | k < |t.tables.transfers| ensures HasSubmitter(t, k) {
      assert HasSubmitter(s, k);
      var c :| SubmittedBy(s, c, k);
      assert SubmittedBy(t, c, k);
    }
  }

  lemma {:induction false} RunKeepsInv(dir: Directory, s: State, actions: seq<Action>)
    requires Inv(dir, s)
    ensures Inv(dir, Run(dir, s, actions)) && Later(s, Run(dir, s, actions))
    decreases |actions|
  {
    if actions != [] {
      var before := Run(dir, s, actions[..|actions| - 1]);
      RunKeepsInv(dir, s, actions[..|actions| - 1]);
      StepKeepsInv(dir, before, actions[|actions| - 1]);
      AdvancesTransitive(s.tables, before.tables, Run(dir, s, actions).tables);
    }
  }

  // ---- What every interleaving keeps ----------------------------------------

  lemma Reachable(dir: Directory, s0: State, actions: seq<Action>)
    requires Initial(s0)
    ensures Inv(dir, Run(dir, s0, actions))
  {
    RunKeepsInv(dir, s0, actions);
  }

  predicate Uses(t: Tables, k: int, i: nat) {
    0 <= k < |t.transfers| && t.transfers[k].authorisationId == i
  }

  /** An authorisation has at most one transfer, and is CONSUMED exactly when it has one. */
  lemma SingleUse(dir: Directory, s0: State, actions: seq<Action>, t: Tables, i: nat)
    requires Initial(s0) && t == Run(dir, s0, actions).tables && i < |t.authorisations|
    ensures t.authorisations[i].status == CONSUMED <==> HasTransfer(t, i)
    ensures forall j, k :: Uses(t, j, i) && Uses(t, k, i) ==> j == k
  {
    Reachable(dir, s0, actions);
    if HasTransfer(t, i) {
      var k :| 0 <= k < |t.transfers| && t.transfers[k].authorisationId == i;
      assert TransferOk(t, k);
    }
  }

  lemma {:induction false} RunAppend(dir: Directory, s: State, first: seq<Action>, rest: seq<Action>)
    ensures Run(dir, s, first + rest) == Run(dir, Run(dir, s, first), rest)
    decreases |rest|
  {
    if rest == [] {
      assert first + rest == first;
    } else {
      assert (first + rest)[..|first + rest| - 1] == first + rest[..|rest| - 1];
      RunAppend(dir, s, first, rest[..|rest| - 1]);
    }
  }

  /**
   * Once CONSUMED or EXPIRED, for ever so; everything else an authorisation says is never rewritten,
   * nor is the envelope of a transfer, nor a delivery time once there is one.
   */
  lemma HistoryOnlyMovesForwards(dir: Directory, s0: State, first: seq<Action>, rest: seq<Action>, t: Tables, u: Tables)
    requires Initial(s0) && t == Run(dir, s0, first).tables && u == Run(dir, s0, first + rest).tables
    ensures |t.authorisations| <= |u.authorisations| && |t.transfers| <= |u.transfers|
    ensures forall i :: 0 <= i < |t.authorisations| ==>
              && u.authorisations[i] == t.authorisations[i].(status := u.authorisations[i].status)
              && (t.authorisations[i].status != AUTHORISED ==> u.authorisations[i] == t.authorisations[i])
    ensures forall k :: 0 <= k < |t.transfers| ==>
              && u.transfers[k].envelope == t.transfers[k].envelope
              && u.transfers[k].authorisationId == t.transfers[k].authorisationId
              && (t.transfers[k].status == DELIVERED ==> u.transfers[k] == t.transfers[k])
  {
    Reachable(dir, s0, first);
    RunAppend(dir, s0, first, rest);
    RunKeepsInv(dir, Run(dir, s0, first), rest);
    forall i | 0 <= i < |t.authorisations|
      ensures u.authorisations[i] == t.authorisations[i].(status := u.authorisations[i].status)
      ensures t.authorisations[i].status != AUTHORISED ==> u.authorisations[i] == t.authorisations[i]
    {
      assert AuthorisationAdvances(t.authorisations[i], u.authorisations[i]);
    }
    forall k | 0 <= k < |t.transfers|
      ensures u.transfers[k].envelope == t.transfers[k].envelope
      ensures u.transfers[k].authorisationId == t.transfers[k].authorisationId
      ensures t.transfers[k].status == DELIVERED ==> u.transfers[k] == t.transfers[k]
    {
      assert TransferAdvances(t.transfers[k], u.transfers[k]) && TransferOk(t, k);
    }
  }

  /** The call, its reading of the log and its row: the grounds on which an authorisation stands. */
  ghost predicate Grounds(s: State, minter: nat, i: nat) {
    && MintedBy(s, minter, i)
    && var call := s.calls[minter];
       MintedOn(s.log, s.tables, call.ask, call.arrivedAt, i, call.apc.readAt, call.apc.mintedAt)
  }

  /**
   * Every authorisation was minted by exactly one call, and cites the record that was the effective
   * GRANTED decision of the log that call read, between its arrival and the minting.
   */
  lemma EveryAuthorisationIsJustified(dir: Directory, s0: State, actions: seq<Action>, s: State, i: nat) returns (minter: nat)
    requires Initial(s0) && s == Run(dir, s0, actions) && i < |s.tables.authorisations|
    ensures Grounds(s, minter, i)
    ensures forall c: nat :: MintedBy(s, c, i) ==> c == minter
    ensures s.tables.authorisations[i].status == EXPIRED ==> s.tables.authorisations[i].expiresAt <= s.clock
  {
    Reachable(dir, s0, actions);
    assert HasMinter(s, i);
    minter :| MintedBy(s, minter, i);
    assert CallOk(dir, s, s.calls[minter]);
    assert ExpiredInTime(s.clock, s.tables.authorisations[i]);
  }

  /** So nothing on record when the call arrived, a withdrawal least of all, outranks the grant it was minted on. */
  lemma NothingKnownOutranksTheGrant(dir: Directory, s0: State, actions: seq<Action>, s: State, i: nat, minter: nat, seen: Record)
    requires Initial(s0) && s == Run(dir, s0, actions) && i < |s.tables.authorisations| && MintedBy(s, minter, i)
    requires s.calls[minter].arrivedAt <= |s.log| && seen in s.log[..s.calls[minter].arrivedAt]
    requires var a := s.tables.authorisations[i];
             seen.siteId == a.siteId && seen.principalId == a.principalId && seen.purposeCode == a.purposeCode
    ensures exists r :: r in s.log && r.id == s.tables.authorisations[i].consentRecordId && r.status == GRANTED && Precedes(seen, r)
  {
    var the := EveryAuthorisationIsJustified(dir, s0, actions, s, i);
    var call, a := s.calls[minter], s.tables.authorisations[i];
    var read := s.log[..call.apc.readAt];
    var r :| r in read && r.id == a.consentRecordId && r.status == GRANTED
             && Standing(read, a.siteId, a.principalId, a.purposeCode, r);
    assert seen in read by {
      var k :| 0 <= k < call.arrivedAt && s.log[..call.arrivedAt][k] == seen;
      assert read[k] == seen;
    }
    assert r in s.log;
  }

  /** Accepted submissions and transfers correspond one to one: each transfer holds its submission's envelope. */
  lemma AcceptedExactlyOnce(dir: Directory, s0: State, actions: seq<Action>, s: State)
    requires Initial(s0) && s == Run(dir, s0, actions)
    ensures forall k: nat :: k < |s.tables.transfers| ==> HasSubmitter(s, k)
    ensures forall id: nat, k: nat :: SubmittedBy(s, id, k) ==> StoredFor(dir, s.tables, s.calls[id].submission, k)
    ensures forall c: nat, d: nat, j: nat, k: nat ::
              (SubmittedBy(s, c, j) && SubmittedBy(s, d, k)
               && s.calls[c].submission.authorisationId == s.calls[d].submission.authorisationId) ==> c == d && j == k
  {
    Reachable(dir, s0, actions);
    forall id: nat, k: nat | SubmittedBy(s, id, k) ensures StoredFor(dir, s.tables, s.calls[id].submission, k) {
      assert CallOk(dir, s, s.calls[id]);
    }
    forall c: nat, d: nat, j: nat, k: nat | SubmittedBy(s, c, j) && SubmittedBy(s, d, k)
        && s.calls[c].submission.authorisationId == s.calls[d].submission.authorisationId
      ensures c == d && j == k
    {
      assert StoredFor(dir, s.tables, s.calls[c].submission, j) && StoredFor(dir, s.tables, s.calls[d].submission, k);
    }
  }

  /** Who submitted what a recipient collected, and on what grounds. */
  ghost predicate Provenance(dir: Directory, s: State, recipientId: string, k: nat, envelope: Envelope, submitter: nat, minter: nat) {
    && SubmittedBy(s, submitter, k) && s.calls[submitter].submission.envelope == envelope
    && Acceptable(dir, envelope)
    && s.calls[submitter].submission.authorisationId < |s.tables.authorisations|
    && Grounds(s, minter, s.calls[submitter].submission.authorisationId)
    && var a := s.tables.authorisations[s.calls[submitter].submission.authorisationId];
       && a.status == CONSUMED && a.recipientId == recipientId && a.nonce == s.calls[submitter].submission.nonce
       && s.calls[submitter].rpc.checkedAt < a.expiresAt
  }

  /**
   * From consent to delivery: what a recipient collects is the envelope one call submitted before
   * expiry, under an authorisation naming that recipient that one call minted on the grant that was
   * effective when that call read the log.
   */
  lemma CollectedMeansAuthorised(dir: Directory, s0: State, actions: seq<Action>, s: State, id: nat)
    returns (submitter: nat, minter: nat)
    requires Initial(s0) && s == Run(dir, s0, actions)
    requires id in s.calls && s.calls[id].Collect? && s.calls[id].cpc.Collected?
    ensures Provenance(dir, s, s.calls[id].recipientId, s.calls[id].transferId, s.calls[id].cpc.envelope, submitter, minter)
  {
    Reachable(dir, s0, actions);
    assert CallOk(dir, s, s.calls[id]);
    var k := s.calls[id].transferId;
    assert HasSubmitter(s, k);
    submitter :| SubmittedBy(s, submitter, k);
    assert CallOk(dir, s, s.calls[submitter]);
    assert TransferOk(s.tables, k);
    minter := EveryAuthorisationIsJustified(dir, s0, actions, s, s.tables.transfers[k].authorisationId);
  }

  /** Index and trigger together amount to one test: the commit goes through exactly while AUTHORISED. */
  lemma CommitGoesThroughIff(t: Tables, row: Transfer)
    requires TablesOk(t) && row.authorisationId < |t.authorisations|
    ensures CommitTransfer(t, row).Some? <==> t.authorisations[row.authorisationId].status == AUTHORISED
  {
    if HasTransfer(t, row.authorisationId) {
      var k :| 0 <= k < |t.transfers| && t.transfers[k].authorisationId == row.authorisationId;
      assert TransferOk(t, k);
    }
  }

  // ---- One call as the code runs it -----------------------------------------

  /** The two tables, with the checks the database makes on every write. */
  class Database {
    var tables: Tables

    constructor (initial: Tables)
      ensures tables == initial
    {
      tables := initial;
    }

    method UpdateStatus(id: nat, status: AuthorisationStatus) returns (threw: bool)
      modifies this
      ensures threw == SetStatus(old(tables), id, status).None?
      ensures tables == if threw then old(tables) else SetStatus(old(tables), id, status).value
    {
      threw := !(id < |tables.authorisations| && MayBecome(tables.authorisations[id].status, status));
      if !threw {
        var row := tables.authorisations[id].(status := status);
        tables := tables.(authorisations := tables.authorisations[id := row]);
      }
    }

    /** The transaction: a refused insert or a refused update leaves both tables as they were. */
    method CreateAndConsume(row: Transfer) returns (threw: bool)
      modifies this
      ensures threw == CommitTransfer(old(tables), row).None?
      ensures tables == if threw then old(tables) else CommitTransfer(old(tables), row).value
    {
      var before := tables;
      if HasTransfer(tables, row.authorisationId) {
        return true;
      }
      tables := tables.(transfers := tables.transfers + [row]);
      threw := UpdateStatus(row.authorisationId, CONSUMED);
      if threw {
        tables := before;
      }
    }

    method UpdateDelivered(k: nat, now: int) returns (threw: bool)
      modifies this
      ensures threw == SetDelivered(old(tables), k, now).None?
      ensures tables == if threw then old(tables) else SetDelivered(old(tables), k, now).value
    {
      threw := !(k < |tables.transfers| && tables.transfers[k].status in {RECORDED, DELIVERED}
                 && tables.transfers[k].deliveredAt in {None, Some(now)});
      if !threw {
        var row := tables.transfers[k].(status := DELIVERED, deliveredAt := Some(now));
        tables := tables.(transfers := tables.transfers[k := row]);
      }
    }
  }

  predicate StatusIs(t: Tables, id: nat, status: AuthorisationStatus) {
    id < |t.authorisations| && t.authorisations[id].status == status
  }

  datatype Answer = Issued(id: nat) | Declined(reason: Refusal)

  /** `authoriseTransfer`: the decision is read first, and the permission is minted on what was read. */
  method AuthoriseTransfer(dir: Directory, db: Database, log: seq<Record>, ask: Ask, now: int, meanwhile: Tables)
    returns (r: Answer)
    requires TablesOk(meanwhile)
    modifies db
    ensures TablesOk(db.tables) && Advances(meanwhile, db.tables)
    ensures r.Issued? <==> Rule(dir, log, ask).Permitted? && ActiveRecipient(dir, ask) && !NonceUsed(meanwhile, ask.nonce)
    ensures DistinctIds(log) ==>
              (r.Issued? <==> AllKnown(dir, ask) && Decided(dir, log, ask, GRANTED) && ActiveRecipient(dir, ask)
                              && forall a :: a in meanwhile.authorisations ==> a.nonce != ask.nonce)
    ensures !r.Issued? ==> r.Declined? && db.tables == meanwhile && (Rule(dir, log, ask).Refused? ==> r.reason == Rule(dir, log, ask).reason)
    ensures Rule(dir, log, ask).Permitted? && !r.Issued? ==> r.reason == if ActiveRecipient(dir, ask) then NonceInUse else UnknownRecipient
    ensures r.Issued? ==> r.id == |meanwhile.authorisations| && db.tables.transfers == meanwhile.transfers
                          && |db.tables.authorisations| == r.id + 1 && IssuedTo(dir, log, ask, now, db.tables.authorisations[r.id])
  {
    db.tables := meanwhile;
    AdvancesReflexive(meanwhile);
    var ruling := EvaluateAuthorisation(dir, log, ask);
    PermittedMeansJustified(dir, log, ask);
    if ruling.Refused? {
      return Declined(ruling.reason);
    }
    var key := (ask.organisationId, ask.recipientCode);
    if key !in dir.recipients || !dir.recipients[key].isActive {
      return Declined(UnknownRecipient);
    }
    if NonceUsed(meanwhile, ask.nonce) {
      return Declined(NonceInUse);
    }
    var row := Authorisation(ask.organisationId, ask.siteId, ruling.principalId, ask.purposeCode, dir.recipients[key].id,
                             ruling.consentRecordId, ask.nonce, AUTHORISED, now + ask.ttl);
    MintKeeps(meanwhile, row);
    db.tables := meanwhile.(authorisations := meanwhile.authorisations + [row]);
    return Issued(|meanwhile.authorisations|);
  }

  predicate ActiveRecipient(dir: Directory, ask: Ask) {
    (ask.organisationId, ask.recipientCode) in dir.recipients && dir.recipients[(ask.organisationId, ask.recipientCode)].isActive
  }

  /** The row carries what was asked, and cites a grant that was in force in the log read. */
  predicate IssuedTo(dir: Directory, log: seq<Record>, ask: Ask, now: int, a: Authorisation) {
    && a.organisationId == ask.organisationId && a.siteId == ask.siteId && a.purposeCode == ask.purposeCode
    && a.nonce == ask.nonce && a.status == AUTHORISED && a.expiresAt == now + ask.ttl
    && ActiveRecipient(dir, ask) && a.recipientId == dir.recipients[(ask.organisationId, ask.recipientCode)].id
    && (ask.siteId, ask.principalExternalId) in dir.principals && a.principalId == dir.principals[(ask.siteId, ask.principalExternalId)]
    && Justifies(log, a.siteId, a.principalId, a.purposeCode, a.consentRecordId)
  }

  /** The envelope is of the sealed shape, and its ciphertext has a byte at least and 256 KiB at most. */
  predicate Sound(dir: Directory, envelope: Envelope) {
    dir.sealedShape(envelope) && 1 <= dir.size(envelope) <= 262144
  }

  /** The submission names an authorisation of its organisation, by its nonce. */
  predicate Found(t: Tables, input: Submission) {
    && input.authorisationId < |t.authorisations|
    && t.authorisations[input.authorisationId].organisationId == input.organisationId
    && t.authorisations[input.authorisationId].nonce == input.nonce
  }

  predicate FoundAs(t: Tables, input: Submission, status: AuthorisationStatus) {
    Found(t, input) && t.authorisations[input.authorisationId].status == status
  }

  /** The submission names a live authorisation of its organisation, with its nonce. */
  predicate Usable(dir: Directory, t: Tables, input: Submission, now: int) {
    && Look(dir, t, input).HasRow?
    && Look(dir, t, input).row.status == AUTHORISED
    && now < Look(dir, t, input).row.expiresAt
  }

  /**
   * `recordTransfer`, with the tables as other calls leave them between its read and its write.
   * It stores the envelope exactly when the row it read was usable and is still AUTHORISED when it writes.
   */
  method RecordTransfer(dir: Directory, db: Database, input: Submission, now: int, meanwhile: Tables) returns (r: RecordPc)
    requires TablesOk(db.tables) && TablesOk(meanwhile) && Advances(db.tables, meanwhile)
    modifies db
    ensures TablesOk(db.tables) && Advances(meanwhile, db.tables)
    ensures r.Stored? || r.Conflict? <==> Usable(dir, old(db.tables), input, now)
    ensures r.InvalidEnvelope? <==> !Sound(dir, input.envelope)
    ensures r.NotFound? <==> Sound(dir, input.envelope) && !Found(old(db.tables), input)
    ensures r.Consumed? <==> Sound(dir, input.envelope) && FoundAs(old(db.tables), input, CONSUMED)
    ensures r.Expired? || r.Threw? <==>
              && Sound(dir, input.envelope)
              && (|| FoundAs(old(db.tables), input, EXPIRED)
                  || (FoundAs(old(db.tables), input, AUTHORISED) && old(db.tables).authorisations[input.authorisationId].expiresAt <= now))
    ensures r.Threw? <==>
              && Sound(dir, input.envelope) && FoundAs(old(db.tables), input, AUTHORISED)
              && old(db.tables).authorisations[input.authorisationId].expiresAt <= now
              && StatusIs(meanwhile, input.authorisationId, CONSUMED)
    ensures r.Stored? <==>
              && Sound(dir, input.envelope) && FoundAs(old(db.tables), input, AUTHORISED)
              && now < old(db.tables).authorisations[input.authorisationId].expiresAt
              && StatusIs(meanwhile, input.authorisationId, AUTHORISED)
    ensures r.Stored? ==> r == Stored(|meanwhile.transfers|, now)
    ensures r.Stored? ==> StoredAs(dir, meanwhile, db.tables, input)
    ensures r.Conflict? ==> !StatusIs(meanwhile, input.authorisationId, AUTHORISED) && db.tables == meanwhile
    ensures r.Threw? ==> StatusIs(meanwhile, input.authorisationId, CONSUMED) && db.tables == meanwhile
    ensures r.Expired? ==> (StatusIs(old(db.tables), input.authorisationId, EXPIRED) && db.tables == meanwhile)
                           || ExpiredAs(meanwhile, db.tables, input.authorisationId)
    ensures r.Expired? || r.Threw? ==> Look(dir, old(db.tables), input).HasRow?
    ensures r.InvalidEnvelope? || r.NotFound? || r.Consumed? ==> r == Look(dir, old(db.tables), input) && db.tables == meanwhile
    ensures !r.Arrived? && !r.HasRow? && !r.MustExpire? && !r.MayCommit?
  {
    var read := db.tables;
    db.tables := meanwhile;
    AdvancesReflexive(meanwhile);
    if !dir.sealedShape(input.envelope) {
      return InvalidEnvelope;
    }
    var bytes := dir.size(input.envelope);
    if bytes == 0 || bytes > MAX_CIPHERTEXT_BYTES {
      return InvalidEnvelope;
    }
    if input.authorisationId >= |read.authorisations|
       || read.authorisations[input.authorisationId].organisationId != input.organisationId {
      return NotFound;
    }
    var authorisation := read.authorisations[input.authorisationId];
    if authorisation.nonce != input.nonce {
      return NotFound;
    }
    if authorisation.status == CONSUMED {
      return Consumed;
    }
    assert AuthorisationAdvances(authorisation, meanwhile.authorisations[input.authorisationId]);
    if authorisation.status == EXPIRED || authorisation.expiresAt <= now {
      if authorisation.status != EXPIRED {
        var threw := db.UpdateStatus(input.authorisationId, EXPIRED);
        if threw {
          return Threw;
        }
        ExpireKeeps(meanwhile, input.authorisationId);
      }
      return Expired;
    }
    CommitGoesThroughIff(meanwhile, NewTransfer(dir, input));
    var threw := db.CreateAndConsume(NewTransfer(dir, input));
    if threw {
      return Conflict;
    }
    CommitKeeps(meanwhile, NewTransfer(dir, input));
    return Stored(|meanwhile.transfers|, now);
  }

  /** One transfer more, its authorisation CONSUMED instead of AUTHORISED, and nothing else changed. */
  predicate StoredAs(dir: Directory, t: Tables, u: Tables, input: Submission) {
    && input.authorisationId < |t.authorisations| && t.authorisations[input.authorisationId].status == AUTHORISED
    && u.transfers == t.transfers + [Transfer(input.organisationId, input.authorisationId, input.envelope, dir.digest(input.envelope),
                                              dir.size(input.envelope), RECORDED, None)]
    && u.authorisations == t.authorisations[input.authorisationId := t.authorisations[input.authorisationId].(status := CONSUMED)]
  }

  predicate ExpiredAs(t: Tables, u: Tables, id: nat) {
    && id < |t.authorisations| && t.authorisations[id].status in {AUTHORISED, EXPIRED}
    && u == t.(authorisations := t.authorisations[id := t.authorisations[id].(status := EXPIRED)])
  }

  lemma AdvancesReflexive(t: Tables)
    ensures Advances(t, t)
  {
  }

  /** The transfer is marked delivered at this time, and nothing else changed. */
  function Delivered(t: Tables, k: nat, now: int): Tables
    requires k < |t.transfers|
  {
    t.(transfers := t.transfers[k := t.transfers[k].(status := DELIVERED, deliveredAt := Some(now))])
  }

  /**
   * `collectTransfer`: the envelope goes only to the recipient the authorisation names. Two racing
   * first collections at different instants cannot both succeed, for a delivery time is written once.
   */
  method CollectTransfer(db: Database, recipientId: string, k: nat, now: int, meanwhile: Tables) returns (r: CollectPc)
    requires TablesOk(db.tables) && TablesOk(meanwhile) && Advances(db.tables, meanwhile)
    modifies db
    ensures TablesOk(db.tables) && Advances(meanwhile, db.tables)
    ensures r.Missing? || r.Collected? || r.Failed?
    ensures r.Collected? ==> AddressedTo(db.tables, recipientId, k, r.envelope) && db.tables.transfers[k].status == DELIVERED
    ensures r.Failed? ==> db.tables == meanwhile && k < |old(db.tables).transfers|
                          && old(db.tables).transfers[k].status != DELIVERED
                          && (meanwhile.transfers[k].status == FAILED || meanwhile.transfers[k].deliveredAt !in {None, Some(now)})
    ensures r.Failed? <==> && k < |old(db.tables).transfers|
                           && AddressedTo(old(db.tables), recipientId, k, old(db.tables).transfers[k].envelope)
                           && old(db.tables).transfers[k].status != DELIVERED
                           && (meanwhile.transfers[k].status == FAILED || meanwhile.transfers[k].deliveredAt !in {None, Some(now)})
    ensures r.Collected? ==>
              && k < |old(db.tables).transfers|
              && db.tables == if old(db.tables).transfers[k].status == DELIVERED then meanwhile else Delivered(meanwhile, k, now)
    ensures r.Missing? <==> !(k < |old(db.tables).transfers| && AddressedTo(old(db.tables), recipientId, k, old(db.tables).transfers[k].envelope))
  {
    var read := db.tables;
    db.tables := meanwhile;
    AdvancesReflexive(meanwhile);
    if k >= |read.transfers| {
      return Missing;
    }
    var transfer := read.transfers[k];
    assert TransferOk(read, k) && TransferOk(meanwhile, k) && TransferAdvances(transfer, meanwhile.transfers[k]);
    assert AuthorisationAdvances(read.authorisations[transfer.authorisationId], meanwhile.authorisations[transfer.authorisationId]);
    if read.authorisations[transfer.authorisationId].recipientId != recipientId {
      return Missing;
    }
    if transfer.status != DELIVERED {
      var threw := db.UpdateDelivered(k, now);
      if threw {
        return Failed;
      }
      DeliverKeeps(meanwhile, k, now);
    }
    return Collected(transfer.envelope);
  }
}
